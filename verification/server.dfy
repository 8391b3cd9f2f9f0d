/** The server as a state machine: one parsed request at a time is dispatched to its
    handler. The API layer, not the store, keeps emails and bookmark pairs unique; this
    module states which requests keep those invariants and which do not. */
module Server {
  import opened Wrappers
  import opened Schema
  import opened Storage
  import opened Routes

  datatype Request =
    | PostRegister(registration: Input<NewUser>)
    | PostLogin(credentials: Input<Credentials>)
    | GetArticles(category: Option<string>, search: Option<string>)
    | GetSaved(userId: Option<int>)
    | PostSave(saveUserId: Option<int>, saveArticleId: Option<int>)
    | DeleteSaved(delUserId: Option<int>, delArticleId: Option<int>)
    | GetCheck(checkUserId: Option<int>, checkArticleId: Option<int>)
    | PutUser(id: Option<int>, patch: UserPatch)

  /** Only the register, save, delete and profile routes may change the store. */
  predicate Writes(req: Request) {
    req.PostRegister? || req.PostSave? || req.DeleteSaved? || req.PutUser?
  }

  function Handle(s: Store, date: string -> int, req: Request): (r: (Store, Reply))
    ensures !Writes(req) ==> r.0 == s
    ensures r.0.articles == s.articles
  {
    match req
    case PostRegister(body) => Register(s, body)
    case PostLogin(body) => (s, Login(s, body))
    case GetArticles(c, q) => (s, QueryArticles(s, date, c, q))
    case GetSaved(u) => (s, ListSaved(s, u))
    case PostSave(u, a) => Save(s, u, a)
    case DeleteSaved(u, a) => Unsave(s, u, a)
    case GetCheck(u, a) => (s, CheckSaved(s, u, a))
    case PutUser(id, p) => UpdateProfile(s, id, p)
  }

  /** The store after a sequence of requests, applied in order. */
  function Run(s: Store, date: string -> int, reqs: seq<Request>): Store
    decreases |reqs|
  {
    if |reqs| == 0 then s else Run(Handle(s, date, reqs[0]).0, date, reqs[1..])
  }

  ghost predicate UniqueEmails(s: Store) {
    forall i, j :: 0 <= i < j < |s.users| ==> s.users[i].email != s.users[j].email
  }

  /** No two bookmarks name the same (account, article) pair. */
  ghost predicate PairsDistinct(links: seq<SavedLink>) {
    forall i, j :: 0 <= i < j < |links| ==>
      !LinkMatches(links[j], links[i].userId, links[i].articleId)
  }

  ghost predicate UniqueLinks(s: Store) {
    PairsDistinct(s.links)
  }

  // ---------------------------------------------------------------- one request

  lemma RegisterKeepsEmailsUnique(s: Store, body: Input<NewUser>)
    requires UniqueEmails(s)
    ensures UniqueEmails(Register(s, body).0)
  {
  }

  lemma SaveKeepsLinksUnique(s: Store, userId: Option<int>, articleId: Option<int>)
    requires UniqueLinks(s)
    ensures UniqueLinks(Save(s, userId, articleId).0)
  {
  }

  lemma UnsaveKeepsLinksUnique(s: Store, userId: Option<int>, articleId: Option<int>)
    requires UniqueLinks(s)
    ensures UniqueLinks(Unsave(s, userId, articleId).0)
  {
    var (s', reply) := Unsave(s, userId, articleId);
    if Status(reply) == 200 {
      var (u, a) := (userId.value, articleId.value);
      var k :| 0 <= k < |s.links| && LinkMatches(s.links[k], u, a)
        && (forall j :: 0 <= j < k ==> !LinkMatches(s.links[j], u, a))
        && s' == s.(links := s.links[..k] + s.links[k + 1..]);
      RemoveKeepsPairsDistinct(s.links, k);
    }
  }

  lemma RemoveKeepsPairsDistinct(links: seq<SavedLink>, k: int)
    requires PairsDistinct(links) && 0 <= k < |links|
    ensures PairsDistinct(links[..k] + links[k + 1..])
  {
    var ys := links[..k] + links[k + 1..];
    forall i, j | 0 <= i < j < |ys| ensures !LinkMatches(ys[j], ys[i].userId, ys[i].articleId) {
      var i' := if i < k then i else i + 1;
      var j' := if j < k then j else j + 1;
      assert ys[i] == links[i'] && ys[j] == links[j'];
    }
  }

  lemma UpdateProfileKeepsValid(s: Store, id: Option<int>, patch: UserPatch)
    requires Valid(s)
    ensures Valid(UpdateProfile(s, id, patch).0)
  {
    if id.Some? {
      UpdateUserPreservesValid(s, id.value, patch);
    }
  }

  lemma HandleKeepsValid(s: Store, date: string -> int, req: Request)
    requires Valid(s)
    ensures Valid(Handle(s, date, req).0)
  {
    match req
    case PostRegister(body) =>
      if body.WellFormed? { CreateUserPreservesValid(s, body.value); }
    case PostSave(u, a) =>
      if Truthy(u) && Truthy(a) { SaveArticlePreservesValid(s, u.value, a.value); }
    case DeleteSaved(u, a) =>
      if u.Some? && a.Some? { UnsaveArticlePreservesValid(s, u.value, a.value); }
    case PutUser(id, p) => UpdateProfileKeepsValid(s, id, p);
    case _ =>
  }

  lemma HandleKeepsLinksUnique(s: Store, date: string -> int, req: Request)
    requires UniqueLinks(s)
    ensures UniqueLinks(Handle(s, date, req).0)
  {
    match req
    case PostSave(u, a) => SaveKeepsLinksUnique(s, u, a);
    case DeleteSaved(u, a) => UnsaveKeepsLinksUnique(s, u, a);
    case PutUser(id, p) =>
    case _ =>
  }

  /** Every request except a profile update keeps emails unique. */
  lemma HandleKeepsEmailsUnique(s: Store, date: string -> int, req: Request)
    requires UniqueEmails(s) && !req.PutUser?
    ensures UniqueEmails(Handle(s, date, req).0)
  {
    match req
    case PostRegister(body) => RegisterKeepsEmailsUnique(s, body);
    case _ =>
  }

  /** The profile route does not check emails: in any store with two accounts, the
      second can take the first one's email, the update succeeds and emails are no longer
      unique. */
  lemma ProfileUpdateCanDuplicateEmail(s: Store, i: int, j: int)
    requires Valid(s) && 0 <= i < |s.users| && 0 <= j < |s.users| && i != j
    ensures var patch := UserPatch(None, Some(s.users[i].email), None, None);
            var (s', reply) := UpdateProfile(s, Some(s.users[j].id), patch);
            Status(reply) == 200 && !UniqueEmails(s')
  {
    var patch := UserPatch(None, Some(s.users[i].email), None, None);
    var id := s.users[j].id;
    GetUserFindsStored(s, j);
    var (s', reply) := UpdateProfile(s, Some(id), patch);
    var k :| 0 <= k < |s.users| && s.users[k].id == id
        && s' == s.(users := s.users[k := Merge(s.users[k], patch)]);
    assert k == j;
    assert s'.users[i].email == s'.users[j].email;
  }

  // ---------------------------------------------------------------- traces

  /** Ids stay fresh and bookmark pairs stay unique along any sequence of requests; emails
      stay unique along any sequence without a profile update. */
  lemma {:induction false} RunKeepsInvariants(s: Store, date: string -> int, reqs: seq<Request>)
    requires Valid(s) && UniqueLinks(s)
    ensures Valid(Run(s, date, reqs)) && UniqueLinks(Run(s, date, reqs))
    ensures UniqueEmails(s) && (forall i :: 0 <= i < |reqs| ==> !reqs[i].PutUser?) ==>
              UniqueEmails(Run(s, date, reqs))
    decreases |reqs|
  {
    if |reqs| > 0 {
      var s1 := Handle(s, date, reqs[0]).0;
      HandleKeepsValid(s, date, reqs[0]);
      HandleKeepsLinksUnique(s, date, reqs[0]);
      if UniqueEmails(s) && !reqs[0].PutUser? {
        HandleKeepsEmailsUnique(s, date, reqs[0]);
      }
      RunKeepsInvariants(s1, date, reqs[1..]);
      if UniqueEmails(s) && (forall i :: 0 <= i < |reqs| ==> !reqs[i].PutUser?) {
        assert forall i :: 0 <= i < |reqs| - 1 ==> reqs[1..][i] == reqs[i + 1];
      }
    }
  }

  /** A freshly constructed store satisfies every invariant, whatever articles it is
      seeded with, so they hold along every trace from it. */
  lemma ConstructKeepsInvariants(drafts: seq<NewArticle>, date: string -> int, reqs: seq<Request>)
    ensures Valid(Run(Construct(drafts), date, reqs)) && UniqueLinks(Run(Construct(drafts), date, reqs))
    ensures (forall i :: 0 <= i < |reqs| ==> !reqs[i].PutUser?) ==>
              UniqueEmails(Run(Construct(drafts), date, reqs))
  {
    RunKeepsInvariants(Construct(drafts), date, reqs);
  }

  // ---------------------------------------------------------------- request pairs

  /** After a successful save the check route reports the pair saved, and saving it again is refused. */
  lemma SaveThenCheck(s: Store, u: int, a: int)
    requires Status(Save(s, Some(u), Some(a)).1) == 200
    ensures var s' := Save(s, Some(u), Some(a)).0;
            && CheckSaved(s', Some(u), Some(a)) == SavedFlag(true)
            && Save(s', Some(u), Some(a)) == (s', Failure(400, "Article already saved"))
  {
    var s' := Save(s, Some(u), Some(a)).0;
    assert LinkMatches(s'.links[|s.links|], u, a);
  }

  /** With unique pairs, a delete that succeeded leaves nothing to delete: a second one is 404. */
  lemma UnsaveTwice(s: Store, u: int, a: int)
    requires UniqueLinks(s)
    requires Status(Unsave(s, Some(u), Some(a)).1) == 200
    ensures var s' := Unsave(s, Some(u), Some(a)).0;
            && CheckSaved(s', Some(u), Some(a)) == SavedFlag(false)
            && Unsave(s', Some(u), Some(a)) == (s', Failure(404, "Saved article not found"))
  {
    var s' := Unsave(s, Some(u), Some(a)).0;
    var k :| 0 <= k < |s.links| && LinkMatches(s.links[k], u, a)
      && (forall j :: 0 <= j < k ==> !LinkMatches(s.links[j], u, a))
      && s' == s.(links := s.links[..k] + s.links[k + 1..]);
    forall i | 0 <= i < |s'.links| ensures !LinkMatches(s'.links[i], u, a) {
      if i < k {
        assert s'.links[i] == s.links[i];
      } else {
        assert s'.links[i] == s.links[i + 1];
      }
    }
  }

  /** The store alone accepts the same pair twice; then one delete does not remove it. */
  lemma DuplicateLinksSurviveOneUnsave()
    ensures var s1 := SaveArticle(Empty(), 1, 1).0;
            var s2 := SaveArticle(s1, 1, 1).0;
            var s3 := Unsave(s2, Some(1), Some(1)).0;
            && !UniqueLinks(s2)
            && CheckSaved(s3, Some(1), Some(1)) == SavedFlag(true)
  {
    var s1 := SaveArticle(Empty(), 1, 1).0;
    var s2 := SaveArticle(s1, 1, 1).0;
    var s3 := Unsave(s2, Some(1), Some(1)).0;
    assert LinkMatches(s2.links[0], 1, 1);
    assert s3.links == [SavedLink(2, 1, 1)];
    assert LinkMatches(s3.links[0], 1, 1);
  }

  /** Logging in with the credentials just registered returns the account register returned,
      when those credentials also pass the login schema (registration does not check the
      email format or a non-empty password; login does). */
  lemma RegisterThenLogin(s: Store, nu: NewUser)
    requires Status(Register(s, WellFormed(nu)).1) == 200
    ensures var (s', reply) := Register(s, WellFormed(nu));
            Login(s', WellFormed(Credentials(nu.email, nu.password))) == reply
  {
    var (s', reply) := Register(s, WellFormed(nu));
    var k := |s.users|;
    assert FirstWithEmail(s'.users, k, nu.email);
    assert Authenticates(s', k, nu.email, nu.password);
    var r := Login(s', WellFormed(Credentials(nu.email, nu.password)));
    var k' :| Authenticates(s', k', nu.email, nu.password) && r.user == WithoutPassword(s'.users[k']);
    FirstWithEmailUnique(s'.users, k, k', nu.email);
  }

  /** With unique emails, login succeeds exactly when some account has both the email and
      the password. */
  lemma LoginUnderUniqueEmails(s: Store, c: Credentials)
    requires UniqueEmails(s)
    ensures Login(s, WellFormed(c)).UserBody? <==>
              exists i :: 0 <= i < |s.users| && s.users[i].email == c.email && s.users[i].password == c.password
  {
    if exists i :: 0 <= i < |s.users| && s.users[i].email == c.email && s.users[i].password == c.password {
      var i :| 0 <= i < |s.users| && s.users[i].email == c.email && s.users[i].password == c.password;
      assert Authenticates(s, i, c.email, c.password);
    }
  }

  /** A successful profile update is what a later lookup of that id returns. */
  lemma UpdateProfileThenGet(s: Store, id: int, patch: UserPatch)
    requires Valid(s)
    requires Status(UpdateProfile(s, Some(id), patch).1) == 200
    ensures var (s', reply) := UpdateProfile(s, Some(id), patch);
            && GetUser(s', id).Some?
            && reply == UserBody(WithoutPassword(GetUser(s', id).value))
  {
    UpdateThenGetUser(s, id, patch);
  }
}
