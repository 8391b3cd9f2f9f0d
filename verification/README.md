# News-aggregator API: a Dafny model of the in-memory store and its REST handlers

This project models the server core of a small news-aggregator web application.
The application keeps three collections in memory: user accounts, news articles and
bookmarks. A bookmark is a "saved article" link from a user id to an article id. The
HTTP handlers sit on top of that store.

- `MemStorage` (server/storage.ts) becomes the immutable datatype `Storage.Store`.
  Each of its methods becomes a pure function from a store to a result and a new
  store.
- Each route handler (server/routes.ts) becomes a function from a store and an
  already-parsed request to a reply and a new store. The reply carries the HTTP
  status and the message text the handler sends.
- `Server.Handle` dispatches one request. `Server.Run` folds a request sequence over a
  store, so invariants can be stated over whole sessions.

The modules follow the program's structure:

| module | file | models |
|---|---|---|
| `Wrappers` | wrappers.dfy | `Option`, standing for `undefined`/`null`/`NaN` |
| `Seqs` | seqs.dfy | `Array.prototype.find`, `filter` and the descending stable `sort` |
| `Text` | text.dfy | `toLowerCase` (ASCII letters) and `String.prototype.includes` |
| `Schema` | schema.dfy | the row types of shared/schema.ts and the object spread used for profile updates |
| `Storage` | storage.dfy | `MemStorage`: constructor, seed data, every query and mutation |
| `Routes` | routes.dfy | the eight route handlers |
| `Server` | server.dfy | request dispatch, and the invariants the API does and does not keep |

Representation choices:

- Each JavaScript `Map` is an insertion-ordered sequence of records. The map key is
  the record's own `id`, and the invariant `Storage.Valid` pins the id down: ids are
  strictly increasing and below the next-id counter. Under that invariant, "the
  record stored under key k" and "the first record whose id is k" coincide.
  `Storage.GetUserFindsStored` proves this.
- Sorting by publication date uses `new Date(publishedAt).getTime()`. The model takes
  that as a parameter `date: string -> int`. The order is a stable descending
  insertion sort, which is what ECMAScript requires of `Array.prototype.sort`.
- `parseInt` of a path segment is an `Option<int>`, where `None` stands for `NaN`. A
  JSON body id is also an `Option<int>`. Its JavaScript truthiness is
  `Routes.Truthy`: absent, `null` and `0` are falsy.
- Schema validation (zod) is a tag on the input: `Routes.Input` is either `Malformed`
  or `WellFormed(value)`.

Some behaviours of the code are proved as stated facts rather than hidden:

- Unique emails are a property of the API layer, not the store. Registration keeps
  them unique (`Server.RegisterKeepsEmailsUnique`). A profile update can break them
  (`Server.ProfileUpdateCanDuplicateEmail`).
- Bookmarks are never duplicated through the API (`Server.HandleKeepsLinksUnique`).
  The store itself allows duplicates, and one delete then removes only the first
  (`Server.DuplicateLinksSurviveOneUnsave`).

Two details of the code that the model follows:

- When the body leaves them out, a new user's `preferences` and an article's
  `content`, `author` and `imageUrl` are stored as `null`
  (server/storage.ts:131 and 173-175). This holds even though the users table
  declares an empty-array default for `preferences` (shared/schema.ts:10).
- The six seeded `publishedAt` values are relative phrases such as "2 hours ago".
  `new Date` parses each of them to `NaN`, so the comparator returns `NaN`.
  ECMAScript's SortCompare reads a `NaN` result as +0. Every seeded pair therefore
  compares equal, and the stable sort lists the seed in insertion order, ids 1 to 6
  (`Storage.SeededListingOrder`). No route creates articles. Only a mix of dates
  that parse and dates that do not would have an implementation-defined order.

## Model

| member | source | states |
|---|---|---|
| Seqs.SubseqRefl | server/routes.ts:60-61 | helper: every sequence is a subsequence of itself, used for the unfiltered listing |
| Seqs.FirstIndex | server/storage.ts:122-124 | `find` semantics: the result is the first index whose element satisfies the predicate, and it is absent exactly when no element does |
| Seqs.Filter | server/storage.ts:153-156 | `filter` keeps exactly the elements satisfying the predicate, as a subsequence of the input (order kept) |
| Seqs.FilterCount | server/storage.ts:153-156 | `filter` keeps every copy of a selected element and no copy of a rejected one (multiset counts) |
| Seqs.FilterAppend | server/storage.ts:181-183 | filtering distributes over appending one element, which is how a new bookmark reaches a user's list |
| Seqs.SortDesc | server/storage.ts:146-151 | the newest-first sort returns a permutation of its input ordered by descending key |
| Seqs.SortDescOfSorted | server/storage.ts:146-151 | the sort is stable in the sense that an already-descending list comes back unchanged |
| Text.Includes | server/storage.ts:161-165 | `includes` is true exactly when the query occurs as a contiguous substring at some position |
| Text.Lower | server/storage.ts:160-164 | an ASCII capital becomes the letter 32 code points later; every other character is kept; no capital remains |
| Text.ToLower | server/storage.ts:160-164 | `toLowerCase` keeps the length and lower-cases each character in place |
| Text.EmptyIsEverywhere | server/storage.ts:158-166 | the empty string is included in every string |
| Text.ToLowerIdempotent | server/storage.ts:160-164 | lower-casing twice is lower-casing once, so an already lower-case query gives the same search |
| Schema.WithoutPassword | server/routes.ts:20 | the public view keeps the id, name, email and preferences of the account and has no password; the same destructuring is at routes.ts lines 40 and 158 |
| Schema.Merge | server/storage.ts:137-144 | a profile patch keeps the user id, overwrites each field the patch carries with the patch's value, and keeps every field it does not carry |
| Schema.MergeIdempotent | server/storage.ts:141 | applying the same patch twice is applying it once |
| Schema.MergeCompose | server/storage.ts:141 | two successive patches equal one patch in which the later field values override the earlier |
| Schema.SpreadMerge | server/storage.ts:141 | the spread as written: with no `id` in the body it is the field merge; with one, the stored record takes the body's id |
| Schema.SpreadMergeRewritesId | server/routes.ts:151-152 | a request body carrying `id` 5 for user 1 produces a stored record with id 5 |
| Storage.Construct | server/storage.ts:31-41 | a new store has no users or bookmarks, the drafts stored in order with ids 1..n, counters at 1, n+1, 1, and the store invariant holds |
| Storage.CreateArticles | server/storage.ts:113-115 | creating a list of drafts appends them in order with consecutive ids from the article counter and leaves users and bookmarks alone |
| Storage.SeededListingOrder | server/storage.ts:43-116 | when the seeded dates all compare equal (they parse to `NaN`), the listing is the seed in insertion order, ids 1 to 6 |
| Storage.Init | server/storage.ts:31-41 | the constructed store satisfies the invariant, holds six articles and no users or bookmarks, with the next article id 7 |
| Storage.InitSeedsSix | server/storage.ts:43-116 | the seeded store holds six articles with ids 1..6, no users, no bookmarks, next article id 7 |
| Storage.GetUser | server/storage.ts:118-120 | lookup by id returns a stored user with that id, and nothing exactly when no user has it |
| Storage.GetUserFindsStored | server/storage.ts:118-120 | under the store invariant, looking up a stored user's id returns that very user |
| Storage.GetUserByEmail | server/storage.ts:122-124 | returns the first user in insertion order with the email, and nothing exactly when no user has it |
| Storage.CreateUser | server/storage.ts:126-135 | the new user takes the counter's value as id, keeps the submitted fields, is appended last, and the counter advances by one |
| Storage.CreateUserPreservesValid | server/storage.ts:126-135 | account creation keeps ids unique, ascending and below the counter |
| Storage.CreateThenGetUser | server/storage.ts:118-135 | a user just created is found by its new id, and every earlier lookup result is unchanged |
| Storage.UpdateUser | server/storage.ts:137-144 | updating an unknown id changes nothing and reports absence; otherwise exactly that user is replaced in place by the merged record |
| Storage.UpdateUserPreservesValid | server/storage.ts:137-144 | a profile update keeps the store invariant |
| Storage.SpreadUpdateBreaksValid | server/storage.ts:137-144 | with the body spread as written, a body `id` equal to the user counter leaves a stored account whose id no account may yet hold, so the store invariant fails |
| Storage.UpdateThenGetUser | server/storage.ts:118-144 | after an update, looking up the id returns the updated record and all other users are unchanged |
| Storage.CreateArticle | server/storage.ts:168-179 | the new article takes the counter's value as id, is appended last, and the counter advances by one |
| Storage.AllArticles | server/storage.ts:146-151 | the listing is a permutation of the stored articles, newest first by the date key |
| Storage.AllArticlesStable | server/storage.ts:146-151 | when all dates are equal the listing is the insertion order |
| Storage.ArticlesByCategory | server/storage.ts:153-156 | the result holds exactly the stored articles of that category, each as often as stored, in the order of the full listing |
| Storage.SearchArticles | server/storage.ts:158-166 | the result holds exactly the stored articles whose lower-cased title, description or source contains the lower-cased query, each as often as stored, in listing order |
| Storage.SearchEmptyIsAll | server/storage.ts:158-166 | searching for the empty string returns the full listing |
| Storage.SearchIgnoresQueryCase | server/storage.ts:160 | a query and its lower-cased form give the same result |
| Storage.GetArticle | server/storage.ts:187 | lookup by article id returns the first stored article with that id, and nothing exactly when none has it |
| Storage.Resolve | server/storage.ts:185-191 | the lookup loop yields at most one article per bookmark; its membership and order are stated by Storage.ResolveMembers and Storage.ResolveOwn |
| Storage.ResolveMembers | server/storage.ts:185-191 | resolving bookmarks yields at most one article per bookmark; each comes from a bookmark, and every bookmark to a present article contributes it |
| Storage.ResolveAppend | server/storage.ts:185-191 | resolving a list with one more bookmark appends that bookmark's article if it exists |
| Storage.LiveLinks | server/storage.ts:182-191 | a user's bookmarks whose article is still stored, in saving order |
| Storage.ResolveOwn | server/storage.ts:182-191 | resolving a user's bookmarks gives one entry per live bookmark: entry i is the article of the i-th live bookmark |
| Storage.SavedArticles | server/storage.ts:181-194 | a user's saved list has one entry per bookmark of that user whose article is stored, in saving order, each entry that bookmark's article; its members are exactly those articles |
| Storage.SavedArticlesOfNobody | server/storage.ts:181-194 | a user without bookmarks has an empty saved list |
| Storage.SaveArticle | server/storage.ts:196-201 | a bookmark takes the counter's value as id and is appended whatever the store holds; nothing else changes but the counter |
| Storage.SavedArticlesAfterSave | server/storage.ts:181-201 | saving an existing article appends it to that user's saved list |
| Storage.SavedArticlesOfOthersAfterSave | server/storage.ts:181-201 | saving for one user leaves every other user's saved list unchanged |
| Storage.SaveArticlePreservesValid | server/storage.ts:196-201 | saving keeps the store invariant |
| Storage.IsArticleSaved | server/storage.ts:215-218 | true exactly when some bookmark links that user to that article |
| Storage.UnsaveArticle | server/storage.ts:203-213 | reports true exactly when a matching bookmark exists; then removes only the first match; otherwise changes nothing |
| Storage.UnsaveArticlePreservesValid | server/storage.ts:203-213 | removing a bookmark keeps the store invariant |
| Storage.SaveThenUnsave | server/storage.ts:196-213 | saving a new pair and then deleting it restores the store apart from the advanced bookmark counter |
| Routes.Register | server/routes.ts:9-29 | exactly 400 "Invalid input" for a malformed body, exactly 400 "User already exists" when the email is taken, the store unchanged in both; otherwise 200 with exactly one user appended and the reply being that user without password |
| Routes.FirstWithEmailUnique | server/storage.ts:122-124 | the first user with a given email is unique |
| Routes.Login | server/routes.ts:31-48 | 400 for a malformed body; success exactly when the first user with the email has that password, replying with that user without password; otherwise 401 |
| Routes.QueryArticles | server/routes.ts:51-68 | the reply lists exactly the stored articles selected by the search text, else by a category other than "all", else all of them, each as often as stored, in listing order |
| Routes.SearchOverridesCategory | server/routes.ts:56-59 | a non-empty search text makes the category parameter irrelevant |
| Routes.AllCategoryIsUnfiltered | server/routes.ts:58-61 | the category "all" lists the same as no category |
| Routes.ListSaved | server/routes.ts:71-83 | 400 "Invalid user ID" for a non-number; otherwise the list has one entry per bookmark of that user whose article is stored, in saving order, each that bookmark's article |
| Routes.Truthy | server/routes.ts:89 | a body id is falsy exactly when it is absent or 0, as `!userId` reads a number |
| Routes.Save | server/routes.ts:85-104 | exactly 400 "User ID and Article ID are required" when either id is falsy; exactly 400 "Article already saved" when the pair exists; the store unchanged in both; otherwise 200 with one bookmark appended and returned |
| Routes.Unsave | server/routes.ts:106-124 | 400 "Invalid user ID or article ID" for a non-number id; 200 "Article unsaved successfully" exactly when the pair was bookmarked, removing the first such bookmark; otherwise 404 "Saved article not found" with the store unchanged |
| Routes.CheckSaved | server/routes.ts:127-141 | 400 for a non-number id; otherwise reports whether the pair is bookmarked, never changing the store |
| Routes.UpdateProfile | server/routes.ts:144-163 | 400 for a non-number id, 404 for an unknown user (store unchanged), otherwise the user is replaced by the merged record and returned without password |
| Server.Handle | server/routes.ts:9-163 | only register, save, delete and profile requests change the store, and no request changes the articles |
| Server.RegisterKeepsEmailsUnique | server/routes.ts:13-19 | the existing-email check makes registration keep emails unique |
| Server.SaveKeepsLinksUnique | server/routes.ts:93-99 | the already-saved check makes saving keep bookmark pairs unique |
| Server.UnsaveKeepsLinksUnique | server/routes.ts:106-124 | deleting a bookmark keeps bookmark pairs unique |
| Server.RemoveKeepsPairsDistinct | server/storage.ts:203-213 | removing one bookmark from a duplicate-free list leaves it duplicate-free |
| Server.UpdateProfileKeepsValid | server/routes.ts:144-163 | the profile route, with the corrected merge, keeps the store invariant |
| Server.HandleKeepsValid | server/routes.ts:9-163 | every request keeps the store invariant, with the profile route using the corrected merge |
| Server.HandleKeepsLinksUnique | server/routes.ts:85-124 | every request keeps bookmark pairs unique |
| Server.HandleKeepsEmailsUnique | server/routes.ts:9-141 | every request other than a profile update keeps emails unique |
| Server.ProfileUpdateCanDuplicateEmail | server/routes.ts:144-163 | for any two distinct users, changing the second's email to the first's succeeds with 200 and leaves two accounts with one email |
| Server.RunKeepsInvariants | server/routes.ts:9-163 | with the corrected profile merge, any request sequence keeps the store invariant and unique bookmarks, and keeps unique emails when it has no profile update |
| Server.ConstructKeepsInvariants | server/storage.ts:31-41 | from a freshly constructed store, every session keeps the invariants above, with the corrected profile merge |
| Server.SaveThenCheck | server/routes.ts:85-141 | after a successful save the check route reports saved and a second save is refused with 400 |
| Server.UnsaveTwice | server/routes.ts:106-141 | with unique bookmarks, after a successful delete the pair is no longer saved and a second delete gives 404 |
| Server.DuplicateLinksSurviveOneUnsave | server/storage.ts:196-213 | a store holding the same pair twice still reports it saved after one delete |
| Server.RegisterThenLogin | server/routes.ts:9-48 | when the registered credentials also pass the login schema, logging in with them returns the same reply as the registration |
| Server.LoginUnderUniqueEmails | server/routes.ts:35-41 | under unique emails, login succeeds exactly when some account has that email and password |
| Server.UpdateProfileThenGet | server/routes.ts:144-163 | after a successful profile update, looking up the id gives the record the reply showed, less the password |

## Left out

- The 500 "Internal server error" branches are not modelled. No operation of the model can throw, so these branches are unreachable in it.
- The zod error list sent with "Invalid input" is left out. Email-format and `min(1)` validation are reduced to the `Malformed`/`WellFormed` tag.
- `parseInt` string parsing is left out. Leading digits, signs and whitespace are reduced to an `Option<int>` argument.
- Non-numeric JSON values in the save body are left out. Strings, booleans and fractions are not modelled, because their truthiness and `===` behaviour would need a JSON value type.
- Storage.AllArticles: `new Date(...)` parsing is not modelled. The date key is an abstract `string -> int`. A store mixing dates that parse with dates that do not makes the comparator inconsistent, and JavaScript leaves that order implementation-defined. The all-`NaN` case of the seed is covered by Storage.SeededListingOrder.
- Server.HandleKeepsValid: proved for the profile route with the corrected merge `Schema.Merge`. With the body spread as written, the invariant fails (Storage.SpreadUpdateBreaksValid).
- Server.UpdateProfileKeepsValid: proved for the corrected merge only, for the same reason.
- Server.RunKeepsInvariants: proved for the corrected merge only, for the same reason.
- Server.ConstructKeepsInvariants: proved for the corrected merge only, for the same reason.
- Text.ToLower: only ASCII letters are lower-cased. Unicode case mapping is not modelled.
- Storage.Init: states its contents only through Storage.Construct and Storage.InitSeedsSix (ids, counts, counters). The six literal seed records are in the definition but are not restated in a contract.
- Interleaving of the `async` handlers is not modelled. Each request runs atomically, as it does in Node's single thread, because no handler awaits anything but the store.
- The `null` versus `undefined` preferences for a new user are modelled as `None`.
- Routes.UpdateProfile: the model takes a typed patch of the four user fields, plus the `id` key covered under Findings. The source spreads the whole JSON body into the stored object. Extra keys (`{"role": "admin"}`) are stored and come back in this reply and in every later login reply. Values of any JSON type are stored as sent (`{"name": null}`, `{"email": 5}`). The typed `UserPatch` cannot carry either.
- Password hashing and sessions are not modelled, because the source has neither.
- Repeated query parameters are not modelled, because `GetArticles` takes at most one string per parameter. Express parses `?search=a&search=b` into an array, `toLowerCase` then throws and the route answers 500; `?category=a&category=b` matches no article and answers `[]`.
- Express wiring, CORS, the serverless copy of the API and the browser client are not part of this model.
- The `storage` singleton export is not modelled. The store is passed explicitly.
- `insertArticleSchema` and `insertSavedArticleSchema` are left out, because no route parses with them.

## Findings

| source | as written | input that shows it | evidently intended | confidence | as-written member | corrected member |
|---|---|---|---|---|---|---|
| server/storage.ts:141 | `updateUser` spreads the unfiltered request body from server/routes.ts:151-152 over the record, so a body `id` replaces the user's id while the map key stays the old one (Schema.SpreadMergeRewritesId); a body id at the counter breaks the store invariant (Storage.SpreadUpdateBreaksValid) | PUT /api/users/1 with body {"id": 5} on a store holding user 1 | only name, email, password and preferences change; the stored record keeps id 1 | high on the code reading; not executed | Schema.SpreadMerge | Schema.Merge |
