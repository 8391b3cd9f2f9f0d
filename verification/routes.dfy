/** The REST handlers, each read as a decision function: from the store and an
    already-parsed request to a reply and, on the writing routes, the next store.
    One request is applied at a time. */
module Routes {
  import opened Wrappers
  import opened Seqs
  import opened Text
  import opened Schema
  import opened Storage

  /** The outcome of schema validation of a JSON body. */
  datatype Input<T> = Malformed | WellFormed(value: T)

  /** What a handler sends back. Every variant except `Failure` is a 200 response. */
  datatype Reply =
    | UserBody(user: PublicUser)
    | ArticleList(articles: seq<Article>)
    | LinkBody(link: SavedLink)
    | SavedFlag(isSaved: bool)
    | Done(message: string)
    | Failure(status: int, message: string)

  function Status(r: Reply): int {
    if r.Failure? then r.status else 200
  }

  ghost predicate EmailTaken(s: Store, email: string) {
    exists i :: 0 <= i < |s.users| && s.users[i].email == email
  }

  // ---------------------------------------------------------------- POST /api/auth/register

  function Register(s: Store, body: Input<NewUser>): (r: (Store, Reply))
    ensures Status(r.1) == 200 || Status(r.1) == 400
    ensures Status(r.1) == 400 <==> body.Malformed? || EmailTaken(s, body.value.email)
    ensures Status(r.1) == 400 ==> r.0 == s
    ensures body.Malformed? ==> r == (s, Failure(400, "Invalid input"))
    ensures body.WellFormed? && EmailTaken(s, body.value.email) ==>
              r == (s, Failure(400, "User already exists"))
    ensures Status(r.1) == 200 ==>
      var u := User(s.nextUserId, body.value.name, body.value.email, body.value.password,
                    body.value.preferences);
      && r.0 == s.(users := s.users + [u], nextUserId := s.nextUserId + 1)
      && r.1 == UserBody(WithoutPassword(u))
  {
    match body
    case Malformed => (s, Failure(400, "Invalid input"))
    case WellFormed(nu) =>
      if GetUserByEmail(s, nu.email).Some? then (s, Failure(400, "User already exists"))
      else
        var (s', u) := CreateUser(s, nu);
        (s', UserBody(WithoutPassword(u)))
  }

  // ---------------------------------------------------------------- POST /api/auth/login

  lemma FirstWithEmailUnique(users: seq<User>, k: int, k': int, email: string)
    requires FirstWithEmail(users, k, email) && FirstWithEmail(users, k', email)
    ensures k == k'
  {
  }

  /** The account the store answers for `email`, with the password `password`. */
  ghost predicate Authenticates(s: Store, k: int, email: string, password: string) {
    FirstWithEmail(s.users, k, email) && s.users[k].password == password
  }

  function Login(s: Store, body: Input<Credentials>): (r: Reply)
    ensures body.Malformed? ==> r == Failure(400, "Invalid input")
    ensures body.WellFormed? ==>
      (r.UserBody? <==> exists k :: Authenticates(s, k, body.value.email, body.value.password))
    ensures body.WellFormed? && !r.UserBody? ==> r == Failure(401, "Invalid email or password")
    ensures r.UserBody? ==>
      exists k :: Authenticates(s, k, body.value.email, body.value.password)
                  && r.user == WithoutPassword(s.users[k])
  {
    match body
    case Malformed => Failure(400, "Invalid input")
    case WellFormed(c) =>
      var found := GetUserByEmail(s, c.email);
      if found.None? || found.value.password != c.password then
        Failure(401, "Invalid email or password")
      else
        assert exists k :: Authenticates(s, k, c.email, c.password) by {
          var k :| FirstWithEmail(s.users, k, c.email) && s.users[k] == found.value;
          assert Authenticates(s, k, c.email, c.password);
        }
        UserBody(WithoutPassword(found.value))
  }

  // ---------------------------------------------------------------- GET /api/articles

  /** Which articles the listing route shows: a non-empty `search` wins; otherwise a
      category other than empty or "all" filters; otherwise everything is shown. */
  predicate Selected(a: Article, category: Option<string>, search: Option<string>) {
    if search.Some? && search.value != "" then MatchesQuery(a, ToLower(search.value))
    else if category.Some? && category.value != "" && category.value != "all" then
      a.category == category.value
    else true
  }

  function QueryArticles(s: Store, date: string -> int, category: Option<string>,
                         search: Option<string>): (r: Reply)
    ensures r.ArticleList?
    ensures forall a :: a in r.articles <==> a in s.articles && Selected(a, category, search)
    ensures Subseq(r.articles, AllArticles(s, date))
    ensures forall a :: multiset(r.articles)[a] ==
              if Selected(a, category, search) then multiset(s.articles)[a] else 0
  {
    if search.Some? && search.value != "" then
      ArticleList(SearchArticles(s, date, search.value))
    else if category.Some? && category.value != "" && category.value != "all" then
      ArticleList(ArticlesByCategory(s, date, category.value))
    else
      var all := AllArticles(s, date);
      assert Subseq(all, all) by { SubseqRefl(all); }
      ArticleList(all)
  }

  /** A non-empty search ignores the category entirely. */
  lemma SearchOverridesCategory(s: Store, date: string -> int, c1: Option<string>,
                                c2: Option<string>, q: string)
    requires q != ""
    ensures QueryArticles(s, date, c1, Some(q)) == QueryArticles(s, date, c2, Some(q))
  {
  }

  /** The category "all", an empty category and no category all list every article,
      newest first. */
  lemma AllCategoryIsUnfiltered(s: Store, date: string -> int, search: Option<string>)
    requires search.None? || search == Some("")
    ensures QueryArticles(s, date, Some("all"), search) == ArticleList(AllArticles(s, date))
    ensures QueryArticles(s, date, Some(""), search) == ArticleList(AllArticles(s, date))
    ensures QueryArticles(s, date, None, search) == ArticleList(AllArticles(s, date))
  {
  }

  // ---------------------------------------------------------------- GET /api/saved-articles/:userId

  /** `userId` is the result of `parseInt` on the path segment; `None` stands for NaN. */
  function ListSaved(s: Store, userId: Option<int>): (r: Reply)
    ensures userId.None? ==> r == Failure(400, "Invalid user ID")
    ensures userId.Some? ==> r.ArticleList?
    ensures userId.Some? ==> forall a :: a in r.articles ==>
              a in s.articles &&
              exists l :: l in s.links && l.userId == userId.value && l.articleId == a.id
    ensures userId.Some? ==> forall l :: l in s.links && l.userId == userId.value ==>
              (GetArticle(s.articles, l.articleId).Some? ==>
                 GetArticle(s.articles, l.articleId).value in r.articles)
    ensures userId.Some? ==> |r.articles| == |LiveLinks(s.articles, s.links, userId.value)|
    ensures userId.Some? ==> forall i :: 0 <= i < |r.articles| ==>
              GetArticle(s.articles, LiveLinks(s.articles, s.links, userId.value)[i].articleId)
                == Some(r.articles[i])
  {
    match userId
    case None => Failure(400, "Invalid user ID")
    case Some(u) => ArticleList(SavedArticles(s, u))
  }

  // ---------------------------------------------------------------- POST /api/saved-articles

  /** JavaScript truthiness of a numeric body field: absent, null and 0 are falsy. */
  predicate Truthy(x: Option<int>): (r: bool)
    ensures x.None? ==> !r
    ensures x == Some(0) ==> !r
    ensures x.Some? && x.value != 0 ==> r
  {
    x.Some? && x.value != 0
  }

  function Save(s: Store, userId: Option<int>, articleId: Option<int>): (r: (Store, Reply))
    ensures Status(r.1) == 200 || Status(r.1) == 400
    ensures !Truthy(userId) || !Truthy(articleId) ==>
              r == (s, Failure(400, "User ID and Article ID are required"))
    ensures Status(r.1) == 400 <==>
              !Truthy(userId) || !Truthy(articleId) || IsArticleSaved(s, userId.value, articleId.value)
    ensures Status(r.1) == 400 ==> r.0 == s
    ensures Truthy(userId) && Truthy(articleId) && IsArticleSaved(s, userId.value, articleId.value) ==>
              r == (s, Failure(400, "Article already saved"))
    ensures Status(r.1) == 200 ==>
      var l := SavedLink(s.nextSavedId, userId.value, articleId.value);
      && r.0 == s.(links := s.links + [l], nextSavedId := s.nextSavedId + 1)
      && r.1 == LinkBody(l)
  {
    if !Truthy(userId) || !Truthy(articleId) then
      (s, Failure(400, "User ID and Article ID are required"))
    else if IsArticleSaved(s, userId.value, articleId.value) then
      (s, Failure(400, "Article already saved"))
    else
      var (s', l) := SaveArticle(s, userId.value, articleId.value);
      (s', LinkBody(l))
  }

  // ---------------------------------------------------------------- DELETE /api/saved-articles/:userId/:articleId

  function Unsave(s: Store, userId: Option<int>, articleId: Option<int>): (r: (Store, Reply))
    ensures userId.None? || articleId.None? ==>
              r == (s, Failure(400, "Invalid user ID or article ID"))
    ensures userId.Some? && articleId.Some? ==>
              (Status(r.1) == 200 <==> IsArticleSaved(s, userId.value, articleId.value))
    ensures Status(r.1) != 200 ==> r.0 == s
    ensures userId.Some? && articleId.Some? && Status(r.1) != 200 ==>
              r.1 == Failure(404, "Saved article not found")
    ensures Status(r.1) == 200 ==> r.1 == Done("Article unsaved successfully")
    ensures Status(r.1) == 200 ==>
              && |r.0.links| == |s.links| - 1
              && r.0 == UnsaveArticle(s, userId.value, articleId.value).0
  {
    if userId.None? || articleId.None? then
      (s, Failure(400, "Invalid user ID or article ID"))
    else
      var (s', found) := UnsaveArticle(s, userId.value, articleId.value);
      if found then (s', Done("Article unsaved successfully"))
      else (s, Failure(404, "Saved article not found"))
  }

  // ---------------------------------------------------------------- GET /api/saved-articles/:userId/:articleId/check

  function CheckSaved(s: Store, userId: Option<int>, articleId: Option<int>): (r: Reply)
    ensures userId.None? || articleId.None? ==> r == Failure(400, "Invalid user ID or article ID")
    ensures userId.Some? && articleId.Some? ==>
              r.SavedFlag? &&
              (r.isSaved <==> exists i :: 0 <= i < |s.links|
                                 && LinkMatches(s.links[i], userId.value, articleId.value))
  {
    if userId.None? || articleId.None? then Failure(400, "Invalid user ID or article ID")
    else SavedFlag(IsArticleSaved(s, userId.value, articleId.value))
  }

  // ---------------------------------------------------------------- PUT /api/users/:id

  function UpdateProfile(s: Store, id: Option<int>, patch: UserPatch): (r: (Store, Reply))
    ensures id.None? ==> r == (s, Failure(400, "Invalid user ID"))
    ensures id.Some? && GetUser(s, id.value).None? ==> r == (s, Failure(404, "User not found"))
    ensures id.Some? && GetUser(s, id.value).Some? ==>
      exists k :: 0 <= k < |s.users| && s.users[k].id == id.value
        && r.0 == s.(users := s.users[k := Merge(s.users[k], patch)])
        && r.1 == UserBody(WithoutPassword(Merge(s.users[k], patch)))
  {
    match id
    case None => (s, Failure(400, "Invalid user ID"))
    case Some(uid) =>
      var (s', updated) := UpdateUser(s, uid, patch);
      match updated
      case None => (s, Failure(404, "User not found"))
      case Some(u) => (s', UserBody(WithoutPassword(u)))
  }
}
