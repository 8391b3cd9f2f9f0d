/** The in-memory record store: three insertion-ordered collections (accounts, articles,
    bookmarks) and one id counter per collection. Each operation is a pure function from
    the store before the call to its result and, for writes, the store after it. */
module Storage {
  import opened Wrappers
  import opened Seqs
  import opened Text
  import opened Schema

  /** Each collection stands for a `Map` keyed by the record's id, in insertion order;
      `next*` is the id the next record of that kind receives. */
  datatype Store = Store(
    users: seq<User>,
    articles: seq<Article>,
    links: seq<SavedLink>,
    nextUserId: int,
    nextArticleId: int,
    nextSavedId: int)

  function UserId(u: User): int { u.id }
  function ArticleId(a: Article): int { a.id }
  function LinkId(l: SavedLink): int { l.id }

  /** Ids are positive, strictly increasing in insertion order and below the counter,
      so every id names at most one record and the counter never hands out a used one. */
  ghost predicate IdsAscending<T>(xs: seq<T>, id: T -> int, next: int) {
    && 1 <= next
    && (forall i :: 0 <= i < |xs| ==> 1 <= id(xs[i]) < next)
    && (forall i, j :: 0 <= i < j < |xs| ==> id(xs[i]) < id(xs[j]))
  }

  lemma IdsAscendingRemove<T>(xs: seq<T>, id: T -> int, next: int, k: int)
    requires IdsAscending(xs, id, next) && 0 <= k < |xs|
    ensures IdsAscending(xs[..k] + xs[k + 1..], id, next)
  {
    var ys := xs[..k] + xs[k + 1..];
    assert forall i :: 0 <= i < |ys| ==> ys[i] == xs[if i < k then i else i + 1];
  }

  ghost predicate Valid(s: Store) {
    && IdsAscending(s.users, UserId, s.nextUserId)
    && IdsAscending(s.articles, ArticleId, s.nextArticleId)
    && IdsAscending(s.links, LinkId, s.nextSavedId)
  }

  function Empty(): Store {
    Store([], [], [], 1, 1, 1)
  }

  // ---------------------------------------------------------------- accounts

  function GetUser(s: Store, id: int): (r: Option<User>)
    ensures r.Some? ==> r.value in s.users && r.value.id == id
    ensures r.None? <==> forall i :: 0 <= i < |s.users| ==> s.users[i].id != id
  {
    match FirstIndex(s.users, (u: User) => u.id == id)
    case None => None
    case Some(k) => Some(s.users[k])
  }

  /** `users[k]` is the earliest account whose email is exactly `email`. */
  ghost predicate FirstWithEmail(users: seq<User>, k: int, email: string) {
    && 0 <= k < |users|
    && users[k].email == email
    && forall j :: 0 <= j < k ==> users[j].email != email
  }

  function GetUserByEmail(s: Store, email: string): (r: Option<User>)
    ensures r.None? <==> forall i :: 0 <= i < |s.users| ==> s.users[i].email != email
    ensures r.Some? ==> exists k :: FirstWithEmail(s.users, k, email) && s.users[k] == r.value
  {
    match FirstIndex(s.users, (u: User) => u.email == email)
    case None => None
    case Some(k) =>
      assert FirstWithEmail(s.users, k, email);
      Some(s.users[k])
  }

  function CreateUser(s: Store, nu: NewUser): (r: (Store, User))
    ensures r.1 == User(s.nextUserId, nu.name, nu.email, nu.password, nu.preferences)
    ensures r.0 == s.(users := s.users + [r.1], nextUserId := s.nextUserId + 1)
  {
    var u := User(s.nextUserId, nu.name, nu.email, nu.password, nu.preferences);
    (s.(users := s.users + [u], nextUserId := s.nextUserId + 1), u)
  }

  /** Under unique ids, looking up a stored account's id finds that very account. */
  lemma GetUserFindsStored(s: Store, i: int)
    requires Valid(s) && 0 <= i < |s.users|
    ensures GetUser(s, s.users[i].id) == Some(s.users[i])
  {
    var r := GetUser(s, s.users[i].id);
    var k :| 0 <= k < |s.users| && s.users[k] == r.value;
    assert k == i;
  }

  lemma CreateUserPreservesValid(s: Store, nu: NewUser)
    requires Valid(s)
    ensures Valid(CreateUser(s, nu).0)
  {
  }

  /** A fresh account is found under the id it was given, and every other id looks up
      what it did before. */
  lemma CreateThenGetUser(s: Store, nu: NewUser)
    requires Valid(s)
    ensures var (s', u) := CreateUser(s, nu); GetUser(s', u.id) == Some(u)
    ensures var (s', u) := CreateUser(s, nu);
            forall id :: id != u.id ==> GetUser(s', id) == GetUser(s, id)
  {
    var (s', u) := CreateUser(s, nu);
    CreateUserPreservesValid(s, nu);
    GetUserFindsStored(s', |s.users|);
    forall id | id != u.id ensures GetUser(s', id) == GetUser(s, id) {
      if GetUser(s, id).Some? {
        var k :| 0 <= k < |s.users| && s.users[k].id == id;
        GetUserFindsStored(s, k);
        GetUserFindsStored(s', k);
      }
    }
  }

  function UpdateUser(s: Store, id: int, p: UserPatch): (r: (Store, Option<User>))
    ensures r.1.None? <==> GetUser(s, id).None?
    ensures r.1.None? ==> r.0 == s
    ensures r.1.Some? ==>
      exists k :: 0 <= k < |s.users| && s.users[k].id == id
        && r.1.value == Merge(s.users[k], p)
        && r.0 == s.(users := s.users[k := r.1.value])
  {
    match FirstIndex(s.users, (u: User) => u.id == id)
    case None => (s, None)
    case Some(k) =>
      var u := Merge(s.users[k], p);
      (s.(users := s.users[k := u]), Some(u))
  }

  lemma UpdateUserPreservesValid(s: Store, id: int, p: UserPatch)
    requires Valid(s)
    ensures Valid(UpdateUser(s, id, p).0)
  {
  }

  /** After an update the account under that id is the merged record, and no other account changed. */
  lemma UpdateThenGetUser(s: Store, id: int, p: UserPatch)
    requires Valid(s)
    ensures var (s', r) := UpdateUser(s, id, p);
            && GetUser(s', id) == r
            && |s'.users| == |s.users|
            && forall i :: 0 <= i < |s.users| && s.users[i].id != id ==> s'.users[i] == s.users[i]
  {
    var (s', r) := UpdateUser(s, id, p);
    if r.Some? {
      var k :| 0 <= k < |s.users| && s.users[k].id == id
        && r.value == Merge(s.users[k], p) && s' == s.(users := s.users[k := r.value]);
      UpdateUserPreservesValid(s, id, p);
      GetUserFindsStored(s', k);
      forall i | 0 <= i < |s.users| && s.users[i].id != id ensures s'.users[i] == s.users[i] {
        assert i != k;
      }
    }
  }

  /** With the body spread over the record as written, a body `id` equal to the counter
      leaves the account under its old key claiming an id no account may yet hold. */
  lemma SpreadUpdateBreaksValid(s: Store, i: int)
    requires Valid(s) && 0 <= i < |s.users|
    ensures var u := SpreadMerge(s.users[i], ProfileBody(Some(s.nextUserId), UserPatch(None, None, None, None)));
            !Valid(s.(users := s.users[i := u]))
  {
    var u := SpreadMerge(s.users[i], ProfileBody(Some(s.nextUserId), UserPatch(None, None, None, None)));
    var s' := s.(users := s.users[i := u]);
    assert UserId(s'.users[i]) == s'.nextUserId;
  }

  // ---------------------------------------------------------------- articles

  function FromDraft(a: NewArticle, id: int): Article {
    Article(id, a.title, a.description, a.content, a.category, a.source, a.author,
            a.publishedAt, a.url, a.imageUrl)
  }

  function CreateArticle(s: Store, a: NewArticle): (r: (Store, Article))
    ensures r.1 == FromDraft(a, s.nextArticleId)
    ensures r.0 == s.(articles := s.articles + [r.1], nextArticleId := s.nextArticleId + 1)
  {
    var art := FromDraft(a, s.nextArticleId);
    (s.(articles := s.articles + [art], nextArticleId := s.nextArticleId + 1), art)
  }

  /** Creates the drafts one after another, in list order. */
  function CreateArticles(s: Store, drafts: seq<NewArticle>): (r: Store)
    ensures r.users == s.users && r.links == s.links
    ensures r.nextUserId == s.nextUserId && r.nextSavedId == s.nextSavedId
    ensures r.nextArticleId == s.nextArticleId + |drafts|
    ensures |r.articles| == |s.articles| + |drafts|
    ensures r.articles[..|s.articles|] == s.articles
    ensures forall j :: |s.articles| <= j < |r.articles| ==>
              r.articles[j] == FromDraft(drafts[j - |s.articles|], s.nextArticleId + j - |s.articles|)
    decreases |drafts|
  {
    if |drafts| == 0 then s
    else
      var s1 := CreateArticle(s, drafts[0]).0;
      var r := CreateArticles(s1, drafts[1..]);
      assert r.articles[..|s.articles|] == r.articles[..|s1.articles|][..|s.articles|];
      assert forall i :: 1 <= i < |drafts| ==> drafts[i] == drafts[1..][i - 1];
      assert r.articles[|s.articles|] == s1.articles[|s.articles|];
      r
  }

  /** The six articles the store starts with, in the order they are created. */
  function SeedArticles(): seq<NewArticle> {
    seq(6, i requires 0 <= i < 6 => SeedArticle(i))
  }

  function SeedArticle(i: nat): NewArticle
    requires i < 6
  {
    if i == 0 then
      NewArticle(
        "Revolutionary AI Technology Transforms Urban Planning in Smart Cities",
        "A groundbreaking artificial intelligence system is now being deployed across major metropolitan areas to optimize traffic flow, reduce energy consumption, and improve urban living conditions for millions of residents.",
        Some("Full article content..."), "technology", "TechCrunch", Some("Sarah Johnson"),
        "2 hours ago", "https://example.com/article1",
        Some("https://images.unsplash.com/photo-1449824913935-59a10b8d2000?ixlib=rb-4.0.3&ixid=MnwxMjA3fDB8MHxwaG90by1wYWdlfHx8fGVufDB8fHx8&auto=format&fit=crop&w=1200&h=400"))
    else if i == 1 then
      NewArticle(
        "Remote Work Trends Continue to Shape Corporate Policies",
        "Companies worldwide are adapting their policies to accommodate the growing demand for flexible work arrangements, with hybrid models becoming the new standard.",
        Some("Full article content..."), "business", "Forbes", Some("Michael Chen"),
        "4 hours ago", "https://example.com/article2",
        Some("https://images.unsplash.com/photo-1551434678-e076c223a692?ixlib=rb-4.0.3&ixid=MnwxMjA3fDB8MHxwaG90by1wYWdlfHx8fGVufDB8fHx8&auto=format&fit=crop&w=600&h=300"))
    else if i == 2 then
      NewArticle(
        "Championship Finals Draw Record Breaking Viewership",
        "The highly anticipated championship game attracted over 50 million viewers worldwide, setting new records for digital streaming platforms.",
        Some("Full article content..."), "sports", "ESPN", Some("David Martinez"),
        "6 hours ago", "https://example.com/article3",
        Some("https://images.unsplash.com/photo-1431324155629-1a6deb1dec8d?ixlib=rb-4.0.3&ixid=MnwxMjA3fDB8MHxwaG90by1wYWdlfHx8fGVufDB8fHx8&auto=format&fit=crop&w=600&h=300"))
    else if i == 3 then
      NewArticle(
        "Breakthrough Treatment Shows Promise for Rare Diseases",
        "Clinical trials reveal significant improvements in patient outcomes using innovative gene therapy techniques developed by international research teams.",
        Some("Full article content..."), "health", "Medical News", Some("Dr. Emily Rodriguez"),
        "8 hours ago", "https://example.com/article4",
        Some("https://images.unsplash.com/photo-1559757148-5c350d0d3c56?ixlib=rb-4.0.3&ixid=MnwxMjA3fDB8MHxwaG90by1wYWdlfHx8fGVufDB8fHx8&auto=format&fit=crop&w=600&h=300"))
    else if i == 4 then
      NewArticle(
        "New Environmental Policy Gains Bipartisan Support",
        "Lawmakers from both parties unite behind comprehensive climate legislation aimed at reducing carbon emissions and promoting renewable energy initiatives.",
        Some("Full article content..."), "politics", "Reuters", Some("Alex Thompson"),
        "1 day ago", "https://example.com/article5",
        Some("https://images.unsplash.com/photo-1555581234-0af19e9c2c12?ixlib=rb-4.0.3&ixid=MnwxMjA3fDB8MHxwaG90by1wYWdlfHx8fGVufDB8fHx8&auto=format&fit=crop&w=600&h=300"))
    else
      NewArticle(
        "Streaming Wars Heat Up with New Platform Launches",
        "The entertainment industry sees increased competition as multiple new streaming services enter the market with exclusive content and innovative features.",
        Some("Full article content..."), "entertainment", "Variety", Some("Jessica Park"),
        "1 day ago", "https://example.com/article6",
        Some("https://images.unsplash.com/photo-1489599663928-f2be171c491a?ixlib=rb-4.0.3&ixid=MnwxMjA3fDB8MHxwaG90by1wYWdlfHx8fGVufDB8fHx8&auto=format&fit=crop&w=600&h=300"))
  }

  /** What the constructor does with its draft list: an otherwise empty store holding
      the drafts with ids 1, 2, ... in list order. */
  function Construct(drafts: seq<NewArticle>): (r: Store)
    ensures Valid(r)
    ensures r.users == [] && r.links == []
    ensures |r.articles| == |drafts|
    ensures forall i {:trigger drafts[i]} :: 0 <= i < |drafts| ==>
              r.articles[i] == FromDraft(drafts[i], i + 1)
    ensures forall i :: 0 <= i < |drafts| ==> r.articles[i].id == i + 1
    ensures r.nextUserId == 1 && r.nextArticleId == |drafts| + 1 && r.nextSavedId == 1
  {
    var r := CreateArticles(Empty(), drafts);
    SeedNumbering(drafts);
    SeedValid(drafts);
    r
  }

  lemma SeedNumbering(drafts: seq<NewArticle>)
    ensures var r := CreateArticles(Empty(), drafts);
            forall i :: 0 <= i < |drafts| ==> r.articles[i] == FromDraft(drafts[i], i + 1)
  {
    var r := CreateArticles(Empty(), drafts);
    forall i | 0 <= i < |drafts| ensures r.articles[i] == FromDraft(drafts[i], i + 1) {
      assert r.articles[i] == FromDraft(drafts[i - 0], 1 + i - 0);
    }
  }

  lemma SeedValid(drafts: seq<NewArticle>)
    ensures Valid(CreateArticles(Empty(), drafts))
  {
    var r := CreateArticles(Empty(), drafts);
    assert forall i :: 0 <= i < |r.articles| ==> ArticleId(r.articles[i]) == i + 1;
  }

  /** The store as the constructor leaves it. */
  function Init(): (r: Store)
    ensures Valid(r) && r.users == [] && r.links == []
    ensures |r.articles| == 6 && r.nextArticleId == 7
  {
    Construct(SeedArticles())
  }

  /** The constructor seeds exactly six articles, numbered 1 to 6 in list order, and
      no accounts or bookmarks. */
  lemma InitSeedsSix()
    ensures Valid(Init())
    ensures Init().users == [] && Init().links == []
    ensures |Init().articles| == 6
    ensures forall i :: 0 <= i < 6 ==> Init().articles[i].id == i + 1
    ensures Init().nextArticleId == 7
  {
  }

  /** The six seeded dates are relative phrases ("2 hours ago", "1 day ago") that
      `new Date` cannot parse; the comparator then yields NaN, which the sort reads as
      equal. With every seeded date comparing equal the listing is ids 1 to 6 in order. */
  lemma SeededListingOrder(date: string -> int)
    requires forall i, j :: 0 <= i < j < |Init().articles| ==>
               date(Init().articles[i].publishedAt) == date(Init().articles[j].publishedAt)
    ensures AllArticles(Init(), date) == Init().articles
    ensures forall i :: 0 <= i < 6 ==> AllArticles(Init(), date)[i].id == i + 1
  {
    InitSeedsSix();
    AllArticlesStable(Init(), date);
  }

  /** `getAllArticles`: every stored article exactly once, newest first by the parsed
      publication date `date`. */
  function AllArticles(s: Store, date: string -> int): (r: seq<Article>)
    ensures multiset(r) == multiset(s.articles)
    ensures forall a :: a in r <==> a in s.articles
    ensures forall i, j :: 0 <= i < j < |r| ==> date(r[i].publishedAt) >= date(r[j].publishedAt)
  {
    var r := SortDesc(s.articles, (a: Article) => date(a.publishedAt));
    SameMembers(r, s.articles);
    r
  }

  /** When every date parses to the same instant the listing keeps insertion order. */
  lemma AllArticlesStable(s: Store, date: string -> int)
    requires forall i, j :: 0 <= i < j < |s.articles| ==>
               date(s.articles[i].publishedAt) == date(s.articles[j].publishedAt)
    ensures AllArticles(s, date) == s.articles
  {
    SortDescOfSorted(s.articles, (a: Article) => date(a.publishedAt));
  }

  function ArticlesByCategory(s: Store, date: string -> int, category: string): (r: seq<Article>)
    ensures forall a :: a in r <==> a in s.articles && a.category == category
    ensures Subseq(r, AllArticles(s, date))
    ensures forall a :: multiset(r)[a] ==
              if a.category == category then multiset(s.articles)[a] else 0
  {
    var all := AllArticles(s, date);
    var r := Filter(all, (a: Article) => a.category == category);
    FilterCount(all, (a: Article) => a.category == category);
    r
  }

  /** Case-insensitive match of an already lower-cased needle against title, description or source. */
  predicate MatchesQuery(a: Article, needle: string) {
    || Includes(ToLower(a.title), needle)
    || Includes(ToLower(a.description), needle)
    || Includes(ToLower(a.source), needle)
  }

  function SearchArticles(s: Store, date: string -> int, query: string): (r: seq<Article>)
    ensures forall a :: a in r <==>
              (&& a in s.articles
               && (|| Contains(ToLower(a.title), ToLower(query))
                   || Contains(ToLower(a.description), ToLower(query))
                   || Contains(ToLower(a.source), ToLower(query))))
    ensures Subseq(r, AllArticles(s, date))
    ensures forall a :: multiset(r)[a] ==
              if MatchesQuery(a, ToLower(query)) then multiset(s.articles)[a] else 0
  {
    var needle := ToLower(query);
    var all := AllArticles(s, date);
    var r := Filter(all, (a: Article) => MatchesQuery(a, needle));
    assert forall a :: a in r <==> a in all && MatchesQuery(a, needle);
    FilterCount(all, (a: Article) => MatchesQuery(a, needle));
    r
  }

  /** The empty query matches every article. */
  lemma SearchEmptyIsAll(s: Store, date: string -> int)
    ensures SearchArticles(s, date, "") == AllArticles(s, date)
  {
    var all := AllArticles(s, date);
    forall i | 0 <= i < |all| ensures MatchesQuery(all[i], ToLower("")) {
      EmptyIsEverywhere(ToLower(all[i].title));
    }
    FilterKeepsAll(all, (a: Article) => MatchesQuery(a, ToLower("")));
  }

  /** Upper- and lower-case spellings of a query find the same articles. */
  lemma SearchIgnoresQueryCase(s: Store, date: string -> int, query: string)
    ensures SearchArticles(s, date, ToLower(query)) == SearchArticles(s, date, query)
  {
    ToLowerIdempotent(query);
  }

  // ---------------------------------------------------------------- bookmarks

  predicate LinkMatches(l: SavedLink, userId: int, articleId: int) {
    l.userId == userId && l.articleId == articleId
  }

  function GetArticle(articles: seq<Article>, id: int): (r: Option<Article>)
    ensures r.Some? ==> r.value in articles && r.value.id == id
    ensures r.Some? ==>
              exists k :: 0 <= k < |articles| && articles[k] == r.value &&
                           (forall j :: 0 <= j < k ==> articles[j].id != id)
    ensures r.None? <==> forall i :: 0 <= i < |articles| ==> articles[i].id != id
  {
    match FirstIndex(articles, (a: Article) => a.id == id)
    case None => None
    case Some(k) => Some(articles[k])
  }

  /** The articles the links point at, in link order; a link to an absent article is skipped. */
  function Resolve(articles: seq<Article>, links: seq<SavedLink>): (r: seq<Article>)
    ensures |r| <= |links|
  {
    if |links| == 0 then []
    else
      match GetArticle(articles, links[0].articleId)
      case None => Resolve(articles, links[1..])
      case Some(a) => [a] + Resolve(articles, links[1..])
  }

  /** Every resolved article is the target of some link, and every link whose article is
      present contributes it. */
  lemma {:induction false} ResolveMembers(articles: seq<Article>, links: seq<SavedLink>)
    ensures |Resolve(articles, links)| <= |links|
    ensures forall a :: a in Resolve(articles, links) ==>
              exists l :: l in links && GetArticle(articles, l.articleId) == Some(a)
    ensures forall l :: l in links && GetArticle(articles, l.articleId).Some? ==>
              GetArticle(articles, l.articleId).value in Resolve(articles, links)
    decreases |links|
  {
    if |links| > 0 {
      ResolveMembers(articles, links[1..]);
      assert forall l :: l in links ==> l == links[0] || l in links[1..];
    }
  }

  lemma {:induction false} ResolveAppend(articles: seq<Article>, links: seq<SavedLink>, l: SavedLink)
    ensures Resolve(articles, links + [l]) ==
            Resolve(articles, links) +
            (match GetArticle(articles, l.articleId) case None => [] case Some(a) => [a])
    decreases |links|
  {
    if |links| == 0 {
      assert links + [l] == [l];
      assert [l][1..] == [];
    } else {
      assert (links + [l])[1..] == links[1..] + [l];
      ResolveAppend(articles, links[1..], l);
    }
  }

  /** The bookmarks of `userId` whose article is still stored, in the order they were saved:
      each contributes one entry to that account's saved list. */
  function LiveLinks(articles: seq<Article>, links: seq<SavedLink>, userId: int): seq<SavedLink> {
    Filter(links, (l: SavedLink) => l.userId == userId && GetArticle(articles, l.articleId).Some?)
  }

  /** Resolving one account's bookmarks yields, position by position, the article of each
      of that account's live bookmarks. */
  lemma {:induction false} ResolveOwn(articles: seq<Article>, links: seq<SavedLink>, userId: int)
    ensures var r := Resolve(articles, Filter(links, (l: SavedLink) => l.userId == userId));
            var live := LiveLinks(articles, links, userId);
            && |r| == |live|
            && forall i :: 0 <= i < |r| ==> GetArticle(articles, live[i].articleId) == Some(r[i])
    decreases |links|
  {
    if |links| > 0 {
      ResolveOwn(articles, links[1..], userId);
      var l := links[0];
      var rest := Filter(links[1..], (l: SavedLink) => l.userId == userId);
      if l.userId == userId {
        assert Filter(links, (l: SavedLink) => l.userId == userId) == [l] + rest;
        assert ([l] + rest)[1..] == rest;
      }
    }
  }

  /** `getSavedArticles`: the articles of `userId`'s bookmarks, in the order they were saved. */
  function SavedArticles(s: Store, userId: int): (r: seq<Article>)
    ensures forall a :: a in r ==>
              a in s.articles && exists l :: l in s.links && l.userId == userId && l.articleId == a.id
    ensures forall l :: l in s.links && l.userId == userId && GetArticle(s.articles, l.articleId).Some? ==>
              GetArticle(s.articles, l.articleId).value in r
    ensures |r| == |LiveLinks(s.articles, s.links, userId)|
    ensures forall i :: 0 <= i < |r| ==>
              GetArticle(s.articles, LiveLinks(s.articles, s.links, userId)[i].articleId) == Some(r[i])
  {
    var mine := Filter(s.links, (l: SavedLink) => l.userId == userId);
    ResolveMembers(s.articles, mine);
    ResolveOwn(s.articles, s.links, userId);
    Resolve(s.articles, mine)
  }

  /** An account without bookmarks gets the empty list, not an error. */
  lemma SavedArticlesOfNobody(s: Store, userId: int)
    requires forall i :: 0 <= i < |s.links| ==> s.links[i].userId != userId
    ensures SavedArticles(s, userId) == []
  {
    FilterNone(s.links, (l: SavedLink) => l.userId == userId);
  }

  function SaveArticle(s: Store, userId: int, articleId: int): (r: (Store, SavedLink))
    ensures r.1 == SavedLink(s.nextSavedId, userId, articleId)
    ensures r.0 == s.(links := s.links + [r.1], nextSavedId := s.nextSavedId + 1)
  {
    var l := SavedLink(s.nextSavedId, userId, articleId);
    (s.(links := s.links + [l], nextSavedId := s.nextSavedId + 1), l)
  }

  /** A new bookmark appends its article to the end of that account's list. */
  lemma SavedArticlesAfterSave(s: Store, userId: int, articleId: int)
    ensures SavedArticles(SaveArticle(s, userId, articleId).0, userId) ==
            SavedArticles(s, userId) +
            (match GetArticle(s.articles, articleId) case None => [] case Some(a) => [a])
  {
    var (s', l) := SaveArticle(s, userId, articleId);
    var mine := (x: SavedLink) => x.userId == userId;
    FilterAppend(s.links, l, mine);
    assert Filter(s'.links, mine) == Filter(s.links, mine) + [l];
    ResolveAppend(s.articles, Filter(s.links, mine), l);
  }

  /** A bookmark of one account leaves every other account's list alone. */
  lemma SavedArticlesOfOthersAfterSave(s: Store, userId: int, articleId: int, other: int)
    requires other != userId
    ensures SavedArticles(SaveArticle(s, userId, articleId).0, other) == SavedArticles(s, other)
  {
    var (s', l) := SaveArticle(s, userId, articleId);
    var theirs := (x: SavedLink) => x.userId == other;
    FilterAppend(s.links, l, theirs);
    assert Filter(s'.links, theirs) == Filter(s.links, theirs);
  }

  function IsArticleSaved(s: Store, userId: int, articleId: int): (r: bool)
    ensures r <==> exists i :: 0 <= i < |s.links| && LinkMatches(s.links[i], userId, articleId)
  {
    FirstIndex(s.links, (l: SavedLink) => LinkMatches(l, userId, articleId)).Some?
  }

  /** Deletes the first bookmark of the pair and reports whether there was one. */
  function UnsaveArticle(s: Store, userId: int, articleId: int): (r: (Store, bool))
    ensures r.1 <==> IsArticleSaved(s, userId, articleId)
    ensures !r.1 ==> r.0 == s
    ensures r.1 ==>
      exists k :: 0 <= k < |s.links| && LinkMatches(s.links[k], userId, articleId)
        && (forall j :: 0 <= j < k ==> !LinkMatches(s.links[j], userId, articleId))
        && r.0 == s.(links := s.links[..k] + s.links[k + 1..])
  {
    match FirstIndex(s.links, (l: SavedLink) => LinkMatches(l, userId, articleId))
    case None => (s, false)
    case Some(k) => (s.(links := s.links[..k] + s.links[k + 1..]), true)
  }

  /** Saving a pair that was not saved and then unsaving it restores the bookmarks;
      only the id counter has moved on. */
  lemma SaveThenUnsave(s: Store, userId: int, articleId: int)
    requires !IsArticleSaved(s, userId, articleId)
    ensures var s1 := SaveArticle(s, userId, articleId).0;
            var (s2, found) := UnsaveArticle(s1, userId, articleId);
            found && s2 == s.(nextSavedId := s.nextSavedId + 1)
  {
    var s1 := SaveArticle(s, userId, articleId).0;
    assert LinkMatches(s1.links[|s.links|], userId, articleId);
    var (s2, found) := UnsaveArticle(s1, userId, articleId);
    var k :| 0 <= k < |s1.links| && LinkMatches(s1.links[k], userId, articleId)
        && (forall j :: 0 <= j < k ==> !LinkMatches(s1.links[j], userId, articleId))
        && s2 == s1.(links := s1.links[..k] + s1.links[k + 1..]);
    assert k == |s.links|;
    assert s1.links[..k] == s.links;
  }

  lemma SaveArticlePreservesValid(s: Store, userId: int, articleId: int)
    requires Valid(s)
    ensures Valid(SaveArticle(s, userId, articleId).0)
  {
  }

  lemma UnsaveArticlePreservesValid(s: Store, userId: int, articleId: int)
    requires Valid(s)
    ensures Valid(UnsaveArticle(s, userId, articleId).0)
  {
    var (s', found) := UnsaveArticle(s, userId, articleId);
    if found {
      var k :| 0 <= k < |s.links| && LinkMatches(s.links[k], userId, articleId)
        && (forall j :: 0 <= j < k ==> !LinkMatches(s.links[j], userId, articleId))
        && s' == s.(links := s.links[..k] + s.links[k + 1..]);
      IdsAscendingRemove(s.links, LinkId, s.nextSavedId, k);
    }
  }
}
