# Campus board: posts, accounts and the screens' collection logic, in Dafny

This project models the logic of a small browser-only campus classifieds board. Users post
things for sale, free items, paid tasks ("bounties") and activities. Other users browse,
filter, comment and change a post's status.

Everything the board keeps lives in two stores:

- the post collection, which every screen reads and replaces wholesale;
- the account registry with the current session.

The model covers:

- **Account registry and session** (`Store.AuthStore`). A class with `users: seq<User>` and
  `user: Option<User>`. `Register`, `Login` and `Logout` change these fields. The invariant
  `Valid()` says that no two accounts share a username up to lower-casing.
- **Post collection** (`Store.PostStore`). A class whose `posts` field the screen handlers
  replace.
- **Detail screen** (`BountyDetail`): adding a comment, changing the status, soft-deleting, and
  the "post not found" guard.
- **New-post form** (`NewBounty`): validation, the next id (`max(ids) + 1`), comma-list parsing,
  building the post and appending it.
- **Edit form** (`EditBounty`): the not-found and author guards, the same validation, and the
  merge that replaces the post by id.
- **Feed** (`BountyFeed`): the channel, status, price, tag and search filters.
- **My Bounties** (`MyBounties`): a loop that groups the live bounties by status.
- **Map** (`MapView`): the posts with coordinates, the search over them, the map centre and the
  empty-result flag.
- **First prototype** (`AppPrototype`): a type filter and a search over a fixed list of posts.

Shared pieces:

- `Text` models `toLowerCase` (ASCII letters), `trim` (ECMAScript whitespace), `includes`,
  `split`/`join`, and the "split on commas, trim, drop empty entries" idiom.
- `Seqs` models `map`, `filter` and `some`, and `find` through the index of the first match;
  it also defines the subsequence relation.
- `PostList` models the two idioms the screens share: finding a post by id, and replacing by id.

Representation choices:

- Ids, clock readings and random values are parameters: `now`, `id` and `createdAt`.
- A JavaScript number is `Num = Int(n) | NaN`.
- A number input is `NumField = Blank | Entered(Num)`. `Blank` is the text `''`. `Entered`
  holds what `Number(...)` made of any other text.
- `lat` and `lng` are `Option<real>`. `Some` means that `Number(...)` of the field is finite.
- Post types and statuses are plain strings, as in the source. `changeStatus` accepts any
  string, and the status grouping makes a group for any status it meets (see `MyBounties.GroupByStatus`
  under "Left out" for statuses that name members every plain object inherits).

The model follows the code on these points:

- `changeStatus` is unconditional and records no claimant.
- Comments carry only an id and a text, with no author.
- `register` does not check e-mail uniqueness.
- `login` matches by username only, not by e-mail. It gives one error for an unknown user and
  for a wrong password.
- Posts are soft-deleted: a flag is set and the status becomes `closed`.
- Edit permission compares the user's `id` with the post's `authorId`, not e-mails. Posts made
  by the new-post form have no `authorId`, so nobody can edit them (`EditBounty.CreatedPostsAreNotEditable`).
- The feed's search covers title, description and location, not tags. The map does not skip
  deleted posts (`MapView.DeletedPostsStayPinned`).

## Model

| member | source | states |
|---|---|---|
| `Store.IsUsernameTaken` | src/store.jsx:210-214 | true exactly when some account's lower-cased name equals the typed name trimmed and lower-cased |
| `Store.FindUser` | src/store.jsx:194-198 | `None` exactly when no account has that name (ignoring case) together with exactly that password; otherwise the first account that does |
| `Store.RegisterKeepsUnique` | src/store.jsx:166-185 | appending a new account whose name passed the check keeps all names distinct up to lower-casing |
| `Store.NewUser` | src/store.jsx:175-182 | the stored name and e-mail carry no surrounding whitespace, the name is empty exactly when the input is blank, and the password is kept as typed |
| `Store.LoginAfterRegister` | src/store.jsx:164-205 | after a successful registration, logging in with the same name and password finds exactly the new account |
| `Store.LoginFindsTheNamedAccount` | src/store.jsx:193-205 | with unique names, a successful login returns the one account of that name |
| `Store.AuthStore.constructor` | src/store.jsx:119-140 | no accounts and no session (the `[]` and `null` fallbacks), and the invariant holds |
| `Store.AuthStore.Register` | src/store.jsx:164-191 | fails with `UsernameExists` exactly when the name is taken, and then changes nothing; otherwise appends the account with trimmed name and e-mail at the end, logs it in, returns it, and keeps names unique |
| `Store.AuthStore.Login` | src/store.jsx:193-206 | fails with `InvalidCredentials` exactly when no account matches, leaving the session alone; otherwise sets the session to the first matching account and returns it; accounts never change |
| `Store.AuthStore.Logout` | src/store.jsx:208 | the session is cleared |
| `Store.PostStore.SetPosts` | src/store.jsx:84-103 | the collection becomes exactly the given sequence |
| `Store.PostStore.constructor` | src/store.jsx:84-92 | the store starts from the given collection (the saved posts or the mock fallback) |
| `PostList.FindPost` | src/screens/BountyDetail.jsx:15 | `None` exactly when no post has the id; otherwise the first post with that id |
| `PostList.IsShown` | src/screens/BountyDetail.jsx:20 | the detail screen shows a post when the lookup finds one that is not deleted; its meaning after each handler is stated by `BountyDetail.SoftDeleteHides` and `BountyDetail.UpdatesKeepPostShown` |
| `PostList.ReplaceById` | src/screens/BountyDetail.jsx:52-54 | same length and order; each post with the id goes through the update, every other post is unchanged |
| `PostList.FindAfterReplace` | src/screens/EditBounty.jsx:104 | an id-keeping replacement changes no id, and the lookup then finds the updated version of the same post |
| `BountyDetail.AddComment` | src/screens/BountyDetail.jsx:34-49 | a missing or deleted post gives `NotFound` and a blank text gives `Ignored`, both with no change; otherwise the post gets a comment with the trimmed text, replaced by id |
| `BountyDetail.ChangeStatus` | src/screens/BountyDetail.jsx:51-56 | not found: no change; otherwise the status is set to the requested one, whatever it was |
| `BountyDetail.SoftDelete` | src/screens/BountyDetail.jsx:58-64 | not found: no change; otherwise the post is marked deleted and closed, in place |
| `BountyDetail.AddCommentAppends` | src/screens/BountyDetail.jsx:36-46 | the comment is added at the end of the target post's comments, earlier comments and other fields are kept, other posts are untouched |
| `BountyDetail.ChangeStatusSets` | src/screens/BountyDetail.jsx:51-56 | the target's status becomes the new one and nothing else changes; other posts are untouched |
| `BountyDetail.SoftDeleteIdempotent` | src/screens/BountyDetail.jsx:58-62 | soft-deleting twice gives the same collection as once |
| `BountyDetail.SoftDeleteHides` | src/screens/BountyDetail.jsx:20-32 | after a soft delete the screen for that id is in the not-found branch |
| `BountyDetail.UpdatesKeepPostShown` | src/screens/BountyDetail.jsx:36-56 | after a comment or a status change the post is still shown |
| `BountyFeed.WantedTags` | src/screens/BountyFeed.jsx:44-47 | every wanted tag is non-empty and lower-case |
| `BountyFeed.WantedTagsAreEntries` | src/screens/BountyFeed.jsx:44-47 | the wanted tags are exactly the comma-separated entries of the filter text, trimmed, empty ones dropped, in order, lower-cased |
| `BountyFeed.FeedMembership` | src/screens/BountyFeed.jsx:49-88 | a post is in the feed exactly when it is in the store, not deleted, and passes channel, status, price, tags and search |
| `BountyFeed.FilteredPosts` | src/screens/BountyFeed.jsx:43-89 | no longer than the store; every post in it is in the store, live and passes every filter (the converse is `BountyFeed.FeedMembership`) |
| `BountyFeed.MatchesChannel` | src/screens/BountyFeed.jsx:52-59 | `bounty` and `activity` admit their own type, `resale` admits `sale` and `free`, any other channel admits all; used through `BountyFeed.FeedMembership` |
| `BountyFeed.MatchesStatus` | src/screens/BountyFeed.jsx:61 | `all` admits every status, any other value only that status; used through `BountyFeed.FeedMembership` |
| `BountyFeed.MatchesPrice` | src/screens/BountyFeed.jsx:63-65 | blank bounds admit all, a missing price counts as 0, a NaN bound admits nothing; stated by `BountyFeed.PriceBoundsMeaning` and `BountyFeed.ResaleWithinBounds` |
| `BountyFeed.MatchesTags` | src/screens/BountyFeed.jsx:67-71 | every wanted tag is among the post's lower-cased tags; stated by `BountyFeed.TagsConjunctive` and `BountyFeed.MoreTagsNarrow` |
| `BountyFeed.MatchesSearch` | src/screens/BountyFeed.jsx:73-78 | the lower-cased query occurs in the lower-cased title, description or location; stated by `BountyFeed.SearchIgnoresCase` |
| `BountyFeed.FeedIsSubsequence` | src/screens/BountyFeed.jsx:49-51 | the feed is an order-preserving subsequence of the posts |
| `BountyFeed.FeedIdempotent` | src/screens/BountyFeed.jsx:49-88 | filtering the feed again with the same filters returns it unchanged |
| `BountyFeed.InitialShowsAllLive` | src/screens/BountyFeed.jsx:12-17 | with the initial filter state the feed is every post not deleted |
| `BountyFeed.WantedTagsConcat` | src/screens/BountyFeed.jsx:44-47 | the wanted tags of `a,b` are those of `a` followed by those of `b` |
| `BountyFeed.MoreTagsNarrow` | src/screens/BountyFeed.jsx:67-71 | adding tags after a comma keeps a subsequence of the previous feed |
| `BountyFeed.TagsConjunctive` | src/screens/BountyFeed.jsx:67-71 | a post passes `a,b` exactly when it passes `a` and passes `b` |
| `BountyFeed.SearchIgnoresCase` | src/screens/BountyFeed.jsx:73-78 | a query and its lower-cased form select the same posts |
| `BountyFeed.PriceBoundsMeaning` | src/screens/BountyFeed.jsx:63-65 | a missing price is treated as 0; two blank bounds admit all; integer bounds are inclusive; a NaN `min` or `max` bound admits nothing |
| `BountyFeed.ResaleWithinBounds` | src/screens/BountyFeed.jsx:52-65 | pre-owned tab with bounds 20..30 lists a sale post at 25 and drops a bounty at 30 |
| `NewBounty.ValidateMeaning` | src/screens/NewBounty.jsx:24-35 | the form is refused exactly for a blank title or description, or a bounty whose filled-in price is NaN or negative; other types skip the price check |
| `NewBounty.Validate` | src/screens/NewBounty.jsx:24-35 | the title and description check comes before the reward check; its meaning is `NewBounty.ValidateMeaning` |
| `NewBounty.FieldPrice` | src/screens/NewBounty.jsx:51 | the price is undefined exactly when the input is empty |
| `NewBounty.MaxId` | src/screens/NewBounty.jsx:37 | the largest id: at least every id, and equal to one of them |
| `NewBounty.NextId` | src/screens/NewBounty.jsx:37 | 1 for no posts, otherwise one more than the largest id, so greater than every id |
| `NewBounty.NewPost` | src/screens/NewBounty.jsx:47-58 | a fresh id above all others, status `open`, no comments, trimmed title, description and location, parsed tags and images with no empty or untrimmed entries, price undefined exactly for an empty input, no author |
| `NewBounty.Submit` | src/screens/NewBounty.jsx:20-60 | fails exactly when validation fails; otherwise the old posts unchanged followed by exactly one new post |
| `NewBounty.AppendFreshId` | src/screens/NewBounty.jsx:37-60 | appending a post with a larger id keeps ids distinct, and lookup by that id finds it |
| `NewBounty.SubmitKeepsIdsDistinct` | src/screens/NewBounty.jsx:37-61 | creation keeps ids distinct, and the route to the new id shows the new post |
| `NewBounty.HandleSubmit` | src/screens/NewBounty.jsx:20-62 | on a validation error the collection is unchanged; otherwise the new post is appended and its id returned |
| `EditBounty.PrefillPrice` | src/screens/EditBounty.jsx:28 | re-reading the pre-filled price input gives back the post's price |
| `EditBounty.Edited` | src/screens/EditBounty.jsx:92-102 | keeps id, status, comments, author, deleted flag and coordinates; overwrites title, type, price, description, tags, location, images and `updatedAt` from the form |
| `EditBounty.SubmitEdit` | src/screens/EditBounty.jsx:36-105 | not found exactly for a missing or deleted post, then not author exactly when nobody is logged in or the user's id is not the author, then the form checks; on success same length and order, posts with the id replaced by the merged post, others unchanged |
| `EditBounty.EditThenFind` | src/screens/EditBounty.jsx:104-106 | after an edit the post's screen shows the merged post, still live |
| `EditBounty.UnchangedEditKeepsPost` | src/screens/EditBounty.jsx:24-102 | saving the pre-filled form unchanged only stamps `updatedAt` |
| `EditBounty.PrefillForm` | src/screens/EditBounty.jsx:24-34 | the price field reads back as the post's price and the type is never empty; the whole form saved unchanged is `EditBounty.UnchangedEditKeepsPost` |
| `EditBounty.CanEdit` | src/screens/EditBounty.jsx:50 | someone is logged in and their id is the post's author; refusals are stated by `EditBounty.SubmitEdit` and `EditBounty.CreatedPostsAreNotEditable` |
| `EditBounty.CreatedPostsAreNotEditable` | src/screens/EditBounty.jsx:50 | a post made by the new-post form is refused with `NotAuthor`, whoever is logged in |
| `EditBounty.HandleSubmit` | src/screens/EditBounty.jsx:66-107 | any refusal leaves the collection unchanged; success stores the edited collection and returns the post's id |
| `MyBounties.StartGrouping` | src/screens/MyBounties.jsx:14-19 | the four empty standard groups are the grouping of nothing |
| `MyBounties.PushKeepsGrouping` | src/screens/MyBounties.jsx:22-25 | one loop turn (create the group if missing, push) keeps "each key maps to the seen posts of that status, in order" |
| `MyBounties.GroupEach` | src/screens/MyBounties.jsx:20-25 | after the loop, the keys are the four standard statuses plus every status seen, each mapped to the visited posts of that status, in order |
| `MyBounties.GroupByStatus` | src/screens/MyBounties.jsx:13-27 | `grouped` is the grouping of the live bounties: standard keys always present, each group the live bounties of that status in store order |
| `MyBounties.GroupingPartition` | src/screens/MyBounties.jsx:21-25 | a post is in group `k` exactly when it is a live bounty with status `k`, and every live bounty's status is a key |
| `MyBounties.BucketInStoreOrder` | src/screens/MyBounties.jsx:22-25 | each group is a subsequence of the posts |
| `MyBounties.GroupSizesSum` | src/screens/MyBounties.jsx:20-25 | over distinct keys covering every live bounty's status, the group sizes add up to the number of live bounties |
| `MyBounties.GroupingSizesSum` | src/screens/MyBounties.jsx:13-27 | over the keys of the loop's result, each listed once, the group sizes add up to the number of live bounties |
| `MyBounties.HasAnyPostsMeaning` | src/screens/MyBounties.jsx:29-31 | true exactly when some live bounty has one of the four standard statuses |
| `MyBounties.HasAnyPosts` | src/screens/MyBounties.jsx:31 | some standard status has a non-empty group; its meaning is `MyBounties.HasAnyPostsMeaning` |
| `MapView.PinnedMembership` | src/screens/MapView.jsx:37-46 | a post is pinned exactly when it is in the store with both coordinates; pins keep store order |
| `MapView.PostsWithCoords` | src/screens/MapView.jsx:37-46 | no longer than the store; every pin is a stored post with both coordinates (the converse is `MapView.PinnedMembership`) |
| `MapView.NoPostsPinned` | src/screens/MapView.jsx:65 | the map has no pin; stated by `MapView.NoPostsPinnedMeaning` and `MapView.NothingPinnedNothingFound` |
| `MapView.NoPostsPinnedMeaning` | src/screens/MapView.jsx:37-46 | there is no pin exactly when no stored post has both coordinates |
| `MapView.Visible` | src/screens/MapView.jsx:49-57 | no longer than the store; every visible pin is a stored post with both coordinates (which ones is `MapView.VisibleMembership`) |
| `MapView.VisibleOfBlankQuery` | src/screens/MapView.jsx:49-57 | a blank query shows every pin; the visible posts are always a subsequence of the pins |
| `MapView.VisibleMembership` | src/screens/MapView.jsx:52-56 | for a non-blank query, a pin is visible exactly when its lower-cased location or title contains the trimmed, lower-cased query |
| `MapView.Center` | src/screens/MapView.jsx:59-63 | the default centre when nothing is visible, otherwise the first visible post's coordinates |
| `MapView.NoSearchResultsMeaning` | src/screens/MapView.jsx:66 | the flag holds exactly when the query is not blank and no pin's location or title contains it |
| `MapView.NoSearchResults` | src/screens/MapView.jsx:66 | the query is not blank and nothing is visible; its meaning is `MapView.NoSearchResultsMeaning` |
| `MapView.NothingPinnedNothingFound` | src/screens/MapView.jsx:59-66 | with no pins, a non-blank query raises the flag and the centre is the default |
| `MapView.DeletedPostsStayPinned` | src/screens/MapView.jsx:37-46 | a soft-deleted post with coordinates is still pinned |
| `AppPrototype.AppMembership` | src/App.tsx:61-67 | a post is listed exactly when it passes the type filter and the search; the list keeps order |
| `AppPrototype.AppFilteredPosts` | src/App.tsx:61-67 | no longer than the mock list; every listed post is in it and passes the type filter and the search |
| `AppPrototype.MatchesFilter` | src/App.tsx:62 | `all` admits every type, any other value only that type; used through `AppPrototype.AppMembership` |
| `AppPrototype.MatchesSearch` | src/App.tsx:63-65 | an empty query admits all; otherwise the lower-cased query occurs in the lower-cased title or description, never the location; stated by `AppPrototype.AppIgnoresLocation` |
| `AppPrototype.MockPosts` | src/App.tsx:15-55 | four listings with ids 1 to 4 in order, none deleted, the last two and only those bounties |
| `AppPrototype.AppShowsAllInitially` | src/App.tsx:58-67 | `'all'` with an empty query lists every post |
| `AppPrototype.AppIgnoresLocation` | src/App.tsx:63-65 | the search does not look at the location |
| `AppPrototype.MockBounties` | src/App.tsx:15-67 | the Bounties filter on the mock posts lists posts 3 and 4, in that order |
| `Seqs.Filter` | src/screens/BountyFeed.jsx:49-51 | `filter` keeps only passing elements of the input, and every passing element |
| `Seqs.FilterIsSubsequence` | src/screens/BountyFeed.jsx:49-51 | `filter` keeps input order |
| `Seqs.FilterMonotone` | src/screens/BountyFeed.jsx:51-88 | a weaker test keeps a supersequence of what a stronger test keeps |
| `Seqs.AnyOf` | src/store.jsx:166-168 | `some` is true exactly when some element passes |
| `Seqs.FirstIndex` | src/store.jsx:194-198 | the index form of `find`: the first passing index, or none when nothing passes |
| `Text.ToLowerAt` | src/screens/BountyFeed.jsx:46 | lower-casing works character by character |
| `Text.TrimEmptyIff` | src/screens/NewBounty.jsx:24 | `trim` gives `''` exactly for all-whitespace text |
| `Text.TrimUnique` | src/screens/NewBounty.jsx:49 | trimmed text surrounded by whitespace trims back to itself |
| `Text.JoinSplit` | src/screens/NewBounty.jsx:38-39 | `join` undoes `split` |
| `Text.SplitJoin` | src/screens/EditBounty.jsx:83-84 | `split` undoes `join` for pieces without the separator |
| `Text.ParseList` | src/screens/NewBounty.jsx:38-45 | the entries are non-empty, trimmed and free of commas |
| `Text.ParseListConcat` | src/screens/NewBounty.jsx:38-41 | a comma between two texts separates their entries |
| `Text.ParseListJoin` | src/screens/EditBounty.jsx:31-32 | parsing a list joined by `", "` gives the list back |

## Left out

- Rendering, routing, react-bootstrap and Tailwind markup, the navigation components, and the
  login and register screens. These are presentation.
- React hooks and context plumbing. The state they hold is class fields here.
- Loading from and saving to `localStorage`, the `JSON.parse` fallbacks and `console.warn`.
  These are I/O. The constructors start from the fallback or from a given collection.
- `Date.now()`, `Math.random()` and `new Date().toISOString()`. They are parameters.
- Floating-point numbers. `Number(...)` coercion is an input, so the model does not decide
  which texts parse to which numbers. Prices are integers or NaN. Coordinates are reals that
  are present only when finite. `MapView.PostsWithCoords` keeps the post's own coordinates
  where the source writes back the converted numbers.
- `String(p.id) === String(id)`. It is modelled as integer equality of ids, which is the same
  test for integer ids.
- The Leaflet map, the marker icons and the `openMaps` URL with `window.open`. These are
  foreign calls.
- The badge colour tables (`getBadgeColor`, `getStatusColor`, `StatusBadge`, `TypeBadge`).
  They are lookups with no behaviour to prove.
- `navigate(...)` after a handler. The handlers return the id the screen navigates to instead.
  The comment box being cleared after `addComment` is UI state and is not modelled.
- `MyBounties.GroupByStatus`: a status that names a member every plain object inherits
  (`toString`, `constructor`, `__proto__`, `valueOf`, `hasOwnProperty` and the like) is found
  by `result[p.status]` on the prototype. The source then creates no group, and `push` throws a
  `TypeError` that breaks the screen. The model gives such a status its own group like any other
  string. The program itself only ever writes the four standard statuses.
- `Text.ToLower` lower-cases only ASCII letters. `toLowerCase` also maps non-ASCII letters.
- Claimant recording, watchlists, comment editing, e-mail uniqueness, owner checks by e-mail,
  hard delete and distance or relevance sorting appear in no modelled source file.
