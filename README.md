# Makestagram likes and image cache, in Dafny

This project models the per-post state of the Makestagram photo feed, an iOS
app built on the Parse backend.

- **Likes.** A post's `likes` is either unset or an ordered list of users.
  `fetchLikes` loads it once. `doesUserLikePost` answers from it.
  `toggleLikePost` changes it optimistically, then sends a like or unlike
  request.
- **Image.** A post's image is filled from a process-wide cache keyed by the
  image file's name. A download starts only on a miss.
- **Backend rows.** The backend is an in-memory list of Like and Follow rows.
  The helper adds rows, queries them and deletes them.
- **Timeline query.** It returns the current user's posts and the posts of
  the users they follow, newest first. A range sets its skip and limit.
- **Cell display.** The timeline cell derives its label text, button state
  and icon visibility from the likes. Its `post` setter frees the old post's
  image when no observer is left on it.

Modules, one per source file plus two for values:

- `Wrappers` (`wrappers.dfy`): the `Option` type used for Swift optionals.
- `ParseObjects` (`parse_objects.dfy`): users, stored rows, post rows. Also
  the app's `==` on `PFObject`, which compares object ids only; two objects
  that were never saved compare equal.
  - A stored pointer to a user keeps its target's id after that user's
    account is deleted. It is then `Dangling`: queries still match it by id,
    and `includeKey` resolves it to nil.
- `Posts` (`post.dfy`): the `Post` class and the `ImageCache` class.
  - Each asynchronous call is two methods: one sends the request, and a
    `Complete…` method runs its callback. Callback order is therefore explicit.
  - A ghost log records the requests a post sends. Ghost counters track
    callbacks still to come.
  - The static `imageCache` is an `ImageCache` object passed to the methods
    that use it.
- `ParseHelper` (`parse_helper.dfy`):
  - The `Backend` class holds the Like and Follow rows and their ids.
  - Queries are data: the `Query` datatype.
  - The timeline query and its skip/limit page, and the user listing.
  - The link between the optimistic toggle and the store: if the local likes
    equal what a query on the store would load, then after a toggle and its
    request have both taken effect, they still do.
- `TimelineCell` (`post_table_view_cell.dfy`): `stringFromUserlist`, the
  `likeBond` derivation as a function returning a record, and the cell class
  with its `post` setter and like button.

The model follows what the code does, not the stronger design it could have:

- Two `fetchLikes` calls before the first completes send two queries.
- A completing likes query overwrites `likes`, even after a toggle.
- A failed request is not rolled back.
- Two image downloads of one file may both run.
- A tap while `likes` is unset sends a like request but leaves `likes` unset.
  Two such taps save two Like rows (`TapsBeforeLoadLikeTwice`).

## Model

| member | source | states |
|---|---|---|
| `ParseObjects.SameUserIsEquivalence` | Makestagram/Helpers/ParseHelper.swift:204-207 | PFObject `==` compares only object ids. It is reflexive, symmetric and transitive, and other fields (the username) do not matter. |
| `Posts.Contains` | Makestagram/Models/Post.swift:159-160 | `contains(likes, user)` is true iff some entry of the list has the user's object id. |
| `Posts.RemoveUser` | Makestagram/Models/Post.swift:174 | The filter `$0 != user` drops every entry with the user's object id, keeps every other entry, and never grows the list. |
| `Posts.RemoveUserAppend` | Makestagram/Models/Post.swift:174 | The filter distributes over concatenation, so the remaining users keep their relative order. |
| `Posts.RemoveAbsentUser` | Makestagram/Models/Post.swift:174 | Filtering out a user who is not in the list returns the list unchanged. |
| `Posts.Likers` | Makestagram/Models/Post.swift:139-149 | The `fetchLikes` projection returns a user iff some result row's `fromUser` resolves to that user. Rows whose `fromUser` no longer resolves (the user was deleted) contribute nothing, and the output is never longer than the results. |
| `Posts.LikersAppend` | Makestagram/Models/Post.swift:139-149 | The projection keeps row order: projecting two stretches of rows gives the concatenation of their projections. |
| `Posts.LikersOfResolvedRows` | Makestagram/Models/Post.swift:145-149 | When every row resolves, the projection has one user per row, and the i-th user is the i-th row's `fromUser`. |
| `Posts.ToggledLikes` | Makestagram/Models/Post.swift:167-183 | Toggling keeps `likes` unset iff it was unset. On a set list, it flips whether the user is in it and leaves everyone else's membership as it was. |
| `Posts.ToggleTwiceRestores` | Makestagram/Models/Post.swift:177-181 | On a set list without the user, the first toggle appends the user at the end and the second gives back the original list. |
| `Posts.UnlikeKeepsOrder` | Makestagram/Models/Post.swift:168-175 | Unliking removes the user and leaves the users before and after them in their original order. |
| `Posts.ImageCache.constructor` | Makestagram/Models/Post.swift:64 | The cache starts empty. |
| `Posts.ImageCache.Put` | Makestagram/Models/Post.swift:110 | After the subscript write, a read of the same file name returns the written image, and a read of any other name returns what it returned before. |
| `Posts.Post.constructor` | Makestagram/Models/Post.swift:40-43 | A new post has no image, unset likes, no observers and has sent no requests. |
| `Posts.Post.DoesUserLikePost` | Makestagram/Models/Post.swift:158-165 | The answer is false for every user while `likes` is unset. Otherwise it is true iff some entry has the user's object id. |
| `Posts.Post.ToggleLikePost` | Makestagram/Models/Post.swift:167-183 | The new `likes` is the toggled list. Exactly one request is appended to the log: an unlike if the user liked the post before the call, a like otherwise. No other field changes. |
| `Posts.Post.FetchLikes` | Makestagram/Models/Post.swift:128-134 | Nothing is sent when `likes` is set. Otherwise exactly one query is sent, and one more callback is pending. `likes` is not touched. |
| `Posts.Post.CompleteFetchLikes` | Makestagram/Models/Post.swift:134-155 | The callback sets `likes` to unset when the results are nil. Otherwise it sets `likes` to the users of the rows that still resolve, in row order, whatever `likes` held before. |
| `Posts.Post.DownloadImage` | Makestagram/Models/Post.swift:96-102 | `image` always takes the cached value first, which is nil on a miss. A hit sends nothing. A miss sends exactly one download request for the file name. |
| `Posts.Post.CompleteDownloadImage` | Makestagram/Models/Post.swift:102-112 | With data, `image` and the cache entry under the file name get the same value, and other entries are kept. Without data, neither changes. |
| `Posts.ToggleTwice` | Makestagram/Models/Post.swift:167-183 | Two taps by a user who does not like a loaded post restore `likes`. The log gains a like and then an unlike, in that order. |
| `Posts.DownloadAfterFill` | Makestagram/Models/Post.swift:96-113 | After a download delivers data, the next `downloadImage` hits the cache, shows that data and sends no request. |
| `ParseHelper.Find` | Makestagram/Helpers/ParseHelper.swift:131-139 | A query returns exactly the stored rows it matches, never more rows than are stored. |
| `ParseHelper.Reject` | Makestagram/Helpers/ParseHelper.swift:111-128 | The rows a query does not match are exactly the stored rows it leaves out. |
| `ParseHelper.FindAppend` | Makestagram/Helpers/ParseHelper.swift:131-139 | A query over two stretches of the store returns the matches of the first, then those of the second. |
| `ParseHelper.Without` | Makestagram/Helpers/ParseHelper.swift:124-126 | Deleting objects by id keeps exactly the rows whose id is not deleted. |
| `ParseHelper.WithoutTwice` | Makestagram/Helpers/ParseHelper.swift:124-126 | Deleting one batch of ids and then another equals deleting their union, which is what one-by-one deletion relies on. |
| `ParseHelper.WithoutKeepsDistinct` | Makestagram/Helpers/ParseHelper.swift:124-126 | Deleting rows keeps the remaining object ids unique. |
| `ParseHelper.DeleteFoundLeavesRest` | Makestagram/Helpers/ParseHelper.swift:111-128 | With unique ids, deleting every row a query found leaves exactly the rows it does not match. |
| `ParseHelper.Backend.constructor` | Makestagram/Helpers/ParseHelper.swift:12 | The store starts empty and well formed. |
| `ParseHelper.Backend.Save` | Makestagram/Helpers/ParseHelper.swift:108 | Saving adds the row at the end under a fresh id, changes no other row, and keeps ids unique. |
| `ParseHelper.Backend.LikePost` | Makestagram/Helpers/ParseHelper.swift:100-109 | `likePost` adds exactly one Like row, from the user to the post, and changes nothing else. |
| `ParseHelper.Backend.AddFollowRelationshipFromUser` | Makestagram/Helpers/ParseHelper.swift:149-154 | The call adds exactly one Follow row, from `user` to `toUser`, and changes nothing else. |
| `ParseHelper.Backend.DeleteObject` | Makestagram/Helpers/ParseHelper.swift:125 | Deleting one object removes the rows with its id and keeps the store well formed. |
| `ParseHelper.Backend.DeleteEach` | Makestagram/Helpers/ParseHelper.swift:119-128 | The callback deletes each returned row in turn. Nil results delete nothing. The store ends as the old store without the returned ids. |
| `ParseHelper.Backend.UnlikePost` | Makestagram/Helpers/ParseHelper.swift:111-129 | `unlikePost` deletes every Like row whose stored `fromUser` is the user and whose `toPost` is the post, and no other row. |
| `ParseHelper.Backend.RemoveFollowRelationshipFromUser` | Makestagram/Helpers/ParseHelper.swift:156-173 | The call deletes every Follow row whose stored pointers go from `user` to `toUser`, and no other row. This includes rows whose `toUser` account has since been deleted. |
| `ParseHelper.LikesForPost` | Makestagram/Helpers/ParseHelper.swift:131-140 | `likesForPost` returns exactly the Like rows whose `toPost` is the post. |
| `ParseHelper.IsFollowedOrSelf` | Makestagram/Helpers/ParseHelper.swift:38-53 | The computed test of the or-query agrees with the visibility rule. The post's author pointer is the current user, or the post stores the same author id as the `toUser` of some Follow row from the current user. Stored pointers are compared, so this holds even if the author was deleted. |
| `ParseHelper.VisiblePosts` | Makestagram/Helpers/ParseHelper.swift:38-56 | A post is returned iff it is stored and visible to the current user. |
| `ParseHelper.DeletedFollowedUserStillMatches` | Makestagram/Helpers/ParseHelper.swift:38-53 | A followed user whose account was deleted still matches by stored pointer. Their post stays on the timeline, and removing the follow relationship to them deletes the Follow row. |
| `ParseHelper.InsertByCreatedDesc` | Makestagram/Helpers/ParseHelper.swift:59 | Inserting into a list sorted newest first keeps it sorted and adds exactly that post. |
| `ParseHelper.SortByCreatedDesc` | Makestagram/Helpers/ParseHelper.swift:59 | `orderByDescending(createdAt)` gives a list sorted newest first that is a permutation of its input. |
| `ParseHelper.Timeline` | Makestagram/Helpers/ParseHelper.swift:36-59 | The timeline is sorted newest first and holds exactly the visible posts, each as often as it is stored. |
| `ParseHelper.Page` | Makestagram/Helpers/ParseHelper.swift:60-63 | Skip and limit give at most `limit` results. The i-th result is the `(skip + i)`-th element, and the page is cut short only where the list ends. |
| `ParseHelper.TimelineRequest` | Makestagram/Helpers/ParseHelper.swift:36-66 | With `skip = startIndex` and `limit = endIndex - startIndex`, the result is the stretch `[startIndex, endIndex)` of the timeline, cut short at its end, and it is sorted newest first. |
| `ParseHelper.AdjacentPages` | Makestagram/Helpers/ParseHelper.swift:61-63 | The pages of two adjacent ranges, concatenated, equal the page of their union. |
| `ParseHelper.OtherUsers` | Makestagram/Helpers/ParseHelper.swift:181 | `notEqualTo` on the username keeps exactly the users without that username, including users with none. |
| `ParseHelper.AllUsers` | Makestagram/Helpers/ParseHelper.swift:178-185 | `allUsers` returns at most 20 users, all stored, none with the current user's username. When fewer than 20 come back, every such user came back. |
| `ParseHelper.LikeReconciles` | Makestagram/Helpers/ParseHelper.swift:100-109 | After a like row is saved, a likes query yields the previous likers with the user appended. |
| `ParseHelper.UnlikeReconciles` | Makestagram/Helpers/ParseHelper.swift:111-140 | After `unlikePost` lands, a likes query yields the previous likers with every entry for that user removed. |
| `ParseHelper.ToggleReconciles` | Makestagram/Models/Post.swift:167-183 | If the local likes equal what the store would load, the toggled list equals what the store loads once the request has landed. This holds for both the like and the unlike branch. |
| `ParseHelper.TapsBeforeLoadLikeTwice` | Makestagram/Models/Post.swift:177-181 | A tap while likes are unset leaves them unset. Two such taps save two like rows, and a later fetch lists the user twice. |
| `TimelineCell.Usernames` | Makestagram/Views/Timeline/PostTableViewCell.swift:64 | The map returns one username per user, in list order. |
| `TimelineCell.JoinAppend` | Makestagram/Views/Timeline/PostTableViewCell.swift:65 | Joining one more name appends ", " and that name. |
| `TimelineCell.JoinLength` | Makestagram/Views/Timeline/PostTableViewCell.swift:65 | The joined text is the total length of the names plus two characters per gap between names. |
| `TimelineCell.StringFromUserlist` | Makestagram/Views/Timeline/PostTableViewCell.swift:63-68 | An empty list gives "". A single user gives just that username. |
| `TimelineCell.StringFromUserlistAppend` | Makestagram/Views/Timeline/PostTableViewCell.swift:63-68 | One more liker adds ", " and that liker's username at the end, so the names appear in list order. |
| `TimelineCell.EmptyTextIffNoLikers` | Makestagram/Views/Timeline/PostTableViewCell.swift:63-68 | When usernames are non-empty, the text is empty iff the list is empty. |
| `TimelineCell.LikeBond` | Makestagram/Views/Timeline/PostTableViewCell.swift:75-88 | Unset likes give label "", button not selected and icon hidden. Set likes give the joined names as the label, select the button iff the current user is in the list, and hide the icon iff the list is empty. |
| `TimelineCell.ButtonShowsDoesUserLike` | Makestagram/Views/Timeline/PostTableViewCell.swift:79 | The button is selected iff `doesUserLikePost` answers true for the current user. |
| `TimelineCell.LabelEmptyIffIconHidden` | Makestagram/Views/Timeline/PostTableViewCell.swift:77-87 | When usernames are non-empty, the label is empty iff the icon is hidden. |
| `TimelineCell.PostTableViewCell.constructor` | Makestagram/Views/Timeline/PostTableViewCell.swift:72-73 | A new cell shows no post. |
| `TimelineCell.PostTableViewCell.SetPost` | Makestagram/Views/Timeline/PostTableViewCell.swift:29-51 | If the new post differs from the old one (by id, or because one of them is nil), the cell's bonds leave the old post. The old image is cleared iff no bond is left on it. An equal post gets no cleanup. The new post gains the cell's bonds. Neither post changes otherwise: no request is sent, and `likes`, the image file and the pending callbacks are kept. |
| `TimelineCell.PostTableViewCell.LikeButtonTapped` | Makestagram/Views/Timeline/PostTableViewCell.swift:21-23 | The tap toggles the current user's like on the shown post, exactly as `toggleLikePost` does: the toggled `likes` and one like or unlike request. The post's id, image, image file, observers and pending callbacks are unchanged. With no post it does nothing. |

## Left out

- The pagination engine (`TimelineComponent` with `loadInitialIfRequired` and `targetWillDisplayEntry`) lives in the ConvenienceKit library, which is not part of this model. So do the controller's page-size constants and its result cast (Makestagram/ViewControllers/TimelineViewController.swift).
- The unranged overload `timelineRequestforCurrentUser(completionBlock:)` (Makestagram/Helpers/ParseHelper.swift:69-96) is the same query without skip and limit. `ParseHelper.Timeline` is what it matches, before Parse's default cap on results (next line).
- `ParseHelper.Find`: returns every matching row. Parse returns at most 100 rows by default from a query without `limit`, and the model does not apply that cap. This affects `likesForPost`, `unlikePost` and `removeFollowRelationshipFromUser` (Makestagram/Helpers/ParseHelper.swift:113-119, 133-139, 157-161) and the unranged timeline. With more than 100 matches, the source loads or deletes only the first 100.
- `ParseHelper.AllUsers`: requires the current user to have a username, because `PFUser.currentUser()!.username!` (Makestagram/Helpers/ParseHelper.swift:181) crashes otherwise. The signed-in user is a parameter.
- `uploadPost`: JPEG encoding, background tasks and file upload are I/O.
- `searchUsers`: the backend does the regular-expression match.
- `getFollowingUsersForUser`: a plain query outside the likes and follow mutations.
- The app delegate, the section header view and the logout alert are UI glue.
- The error handler (`ErrorHandling.defaultErrorHandler`) only reports errors, so callbacks take their results and not their error. An error with no data is a `None` result.
- Image decoding is left out: an `Image` is an opaque payload, and the force-unwrapped `UIImage(data:)` is taken to succeed.
- The `NSCacheSwift` eviction policy is library behaviour. The cache is a plain map that only grows.
- Transport, threading and timing are left out. Requests are a ghost log of a post; what each does to the store is a `Backend` method. A reply can arrive at any point between the two halves of a split call.
- Parse gives no order for unordered queries. The model returns rows in store order.
- `allUsers` also returns the `PFQuery` it started, for cancellation. The model returns only the users.
- `TimelineCell.PostTableViewCell.SetPost`: `unbindAll` is modelled as removing the cell from the old post's observers only. A bond left behind on an earlier post that compared equal is not tracked.
- `TimelineCell.LikeBond`, `TimelineCell.StringFromUserlist`: both require every username to be present, because `user.username!` crashes otherwise.
- `Posts.Post.DownloadImage`, `Posts.Post.CompleteDownloadImage`: both require the post to have an image file, because `imageFile!` crashes otherwise.
