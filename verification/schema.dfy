/** Record shapes of the three tables, the insert shapes the request bodies parse into,
    and the partial-update merge used by the profile route. */
module Schema {
  import opened Wrappers

  /** An account. `preferences` is `None` when the column holds null. */
  datatype User = User(
    id: int,
    name: string,
    email: string,
    password: string,
    preferences: Option<seq<string>>)

  /** A registration body after schema validation; `preferences` may be left out. */
  datatype NewUser = NewUser(
    name: string,
    email: string,
    password: string,
    preferences: Option<seq<string>>)

  /** The account as the API returns it: every column except the password. */
  datatype PublicUser = PublicUser(
    id: int,
    name: string,
    email: string,
    preferences: Option<seq<string>>)

  /** A partial update of the insert fields: `None` means the field was not sent. */
  datatype UserPatch = UserPatch(
    name: Option<string>,
    email: Option<string>,
    password: Option<string>,
    preferences: Option<Option<seq<string>>>)

  datatype Credentials = Credentials(email: string, password: string)

  datatype Article = Article(
    id: int,
    title: string,
    description: string,
    content: Option<string>,
    category: string,
    source: string,
    author: Option<string>,
    publishedAt: string,
    url: string,
    imageUrl: Option<string>)

  /** An article before an id is assigned; the optional columns may be left out. */
  datatype NewArticle = NewArticle(
    title: string,
    description: string,
    content: Option<string>,
    category: string,
    source: string,
    author: Option<string>,
    publishedAt: string,
    url: string,
    imageUrl: Option<string>)

  /** A bookmark: account `userId` saved article `articleId`. */
  datatype SavedLink = SavedLink(id: int, userId: int, articleId: int)

  /** `const { password, ...rest } = user`: every column but the password. */
  function WithoutPassword(u: User): (r: PublicUser)
    ensures r.id == u.id && r.name == u.name && r.email == u.email
    ensures r.preferences == u.preferences
  {
    PublicUser(u.id, u.name, u.email, u.preferences)
  }

  function Pick<T>(update: Option<T>, current: T): T {
    if update.Some? then update.value else current
  }

  /** `{ ...user, ...updates }` restricted to the insert fields: each field the patch
      carries replaces the stored one, every other field (the id above all) is kept. */
  function Merge(u: User, p: UserPatch): (r: User)
    ensures r.id == u.id
    ensures p.name.None? ==> r.name == u.name
    ensures p.email.None? ==> r.email == u.email
    ensures p.password.None? ==> r.password == u.password
    ensures p.preferences.None? ==> r.preferences == u.preferences
    ensures p.name.Some? ==> r.name == p.name.value
    ensures p.email.Some? ==> r.email == p.email.value
    ensures p.password.Some? ==> r.password == p.password.value
    ensures p.preferences.Some? ==> r.preferences == p.preferences.value
  {
    User(u.id, Pick(p.name, u.name), Pick(p.email, u.email), Pick(p.password, u.password),
         Pick(p.preferences, u.preferences))
  }

  /** Merging is a last-writer-wins override, so applying the same patch twice is applying it once. */
  lemma MergeIdempotent(u: User, p: UserPatch)
    ensures Merge(Merge(u, p), p) == Merge(u, p)
  {
  }

  /** Two patches in a row equal one patch in which the later one's fields win. */
  function Override(p: UserPatch, q: UserPatch): UserPatch {
    UserPatch(
      if q.name.Some? then q.name else p.name,
      if q.email.Some? then q.email else p.email,
      if q.password.Some? then q.password else p.password,
      if q.preferences.Some? then q.preferences else p.preferences)
  }

  lemma MergeCompose(u: User, p: UserPatch, q: UserPatch)
    ensures Merge(Merge(u, p), q) == Merge(u, Override(p, q))
  {
  }

  /** The profile body as the route receives it: nothing stops it from carrying an `id`. */
  datatype ProfileBody = ProfileBody(id: Option<int>, fields: UserPatch)

  /** The merge as the source writes it, spreading the whole body over the stored record,
      so an `id` in the body replaces the record's id. */
  function SpreadMerge(u: User, b: ProfileBody): (r: User)
    ensures b.id.None? ==> r == Merge(u, b.fields)
    ensures b.id.Some? ==> r.id == b.id.value
  {
    var m := Merge(u, b.fields);
    if b.id.Some? then m.(id := b.id.value) else m
  }

  /** A body `{"id": 5}` sent to the route for account 1 yields a record claiming id 5. */
  lemma SpreadMergeRewritesId()
    ensures var u := User(1, "A", "a@x.com", "p", None);
            SpreadMerge(u, ProfileBody(Some(5), UserPatch(None, None, None, None))).id != u.id
  {
  }
}
