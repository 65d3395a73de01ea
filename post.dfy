/**
 * A feed post on the client: its lazily fetched list of likers, updated
 * optimistically when the current user taps like, and its image, filled from a
 * cache shared by all posts that is keyed by the image file's name.
 *
 * Every asynchronous call is split in two: the method that issues the request
 * and a `Complete…` method that runs its callback, so callback order is
 * explicit. Requests sent to the backend are recorded in a ghost log.
 */
module Posts {

  import opened Wrappers
  import opened ParseObjects

  /** A decoded image, treated as an opaque payload. */
  datatype Image = Image(data: seq<bv8>)

  /** What the post asks of the backend. */
  datatype Request =
    | LikeRequest(user: User)       // ParseHelper.likePost
    | UnlikeRequest(user: User)     // ParseHelper.unlikePost
    | LikesQuery                    // ParseHelper.likesForPost
    | ImageDataRequest(name: string) // PFFile.getDataInBackgroundWithBlock

  /** Swift's `contains(list, user)`, which compares with PFObject `==`. */
  function Contains(list: seq<User>, user: User): (found: bool)
    ensures found <==> exists w :: w in list && SameUser(w, user)
  {
    if list == [] then false
    else
      assert forall w :: w in list <==> w == list[0] || w in list[1..];
      SameUser(list[0], user) || Contains(list[1..], user)
  }

  /** `list.filter { $0 != user }`: drops every entry equal to `user` by object id. */
  function RemoveUser(list: seq<User>, user: User): (rest: seq<User>)
    ensures |rest| <= |list|
    ensures forall v :: v in rest <==> v in list && !SameUser(v, user)
  {
    if list == [] then []
    else if SameUser(list[0], user) then RemoveUser(list[1..], user)
    else [list[0]] + RemoveUser(list[1..], user)
  }

  /** Removing a user keeps the relative order of everybody else. */
  lemma {:induction false} RemoveUserAppend(a: seq<User>, b: seq<User>, user: User)
    ensures RemoveUser(a + b, user) == RemoveUser(a, user) + RemoveUser(b, user)
  {
    if a != [] {
      assert (a + b)[0] == a[0];
      assert (a + b)[1..] == a[1..] + b;
      RemoveUserAppend(a[1..], b, user);
      if SameUser(a[0], user) {
        assert RemoveUser(a + b, user) == RemoveUser(a[1..] + b, user);
      } else {
        assert RemoveUser(a + b, user) == [a[0]] + RemoveUser(a[1..] + b, user);
        assert RemoveUser(a, user) == [a[0]] + RemoveUser(a[1..], user);
      }
    } else {
      assert a + b == b;
    }
  }

  /** Removing a user who is not in the list changes nothing. */
  lemma {:induction false} RemoveAbsentUser(list: seq<User>, user: User)
    requires !Contains(list, user)
    ensures RemoveUser(list, user) == list
  {
    if list != [] {
      assert list[0] in list;
      assert forall w :: w in list[1..] ==> w in list;
      RemoveAbsentUser(list[1..], user);
    }
  }

  /**
   * The projection in `fetchLikes`: drop the Like rows whose `fromUser` no
   * longer resolves and keep the user of each of the others, in row order.
   */
  function Likers(results: seq<Record>): (users: seq<User>)
    ensures |users| <= |results|
    ensures forall u :: u in users <==> exists r :: r in results && r.fromUser == Live(u)
  {
    if results == [] then []
    else
      assert forall r :: r in results <==> r == results[0] || r in results[1..];
      Resolved(results[0]) + Likers(results[1..])
  }

  /** The user a row points to, if that user still exists. */
  function Resolved(row: Record): (users: seq<User>)
    ensures |users| <= 1
    ensures forall u :: u in users <==> row.fromUser == Live(u)
  {
    match row.fromUser
    case Dangling(_) => []
    case Live(u) => [u]
  }

  /** The projection keeps row order: it distributes over concatenation. */
  lemma {:induction false} LikersAppend(a: seq<Record>, b: seq<Record>)
    ensures Likers(a + b) == Likers(a) + Likers(b)
  {
    if a != [] {
      assert (a + b)[1..] == a[1..] + b;
      assert (a + b)[0] == a[0];
      LikersAppend(a[1..], b);
      assert Likers(a + b) == Resolved(a[0]) + (Likers(a[1..]) + Likers(b));
    } else {
      assert a + b == b;
    }
  }

  /** When every row resolves, the likers are exactly the rows' users, one per row. */
  lemma {:induction false} LikersOfResolvedRows(results: seq<Record>)
    requires forall i :: 0 <= i < |results| ==> results[i].fromUser.Live?
    ensures |Likers(results)| == |results|
    ensures forall i :: 0 <= i < |results| ==> Likers(results)[i] == results[i].fromUser.user
  {
    if results != [] {
      LikersOfResolvedRows(results[1..]);
      assert Resolved(results[0]) == [results[0].fromUser.user];
    }
  }

  /**
   * The local effect of `toggleLikePost(user)` on `likes`: a liker is removed
   * (with every other entry equal to it), anybody else is appended at the end,
   * and an unset list stays unset because the optional-chained append does
   * nothing.
   */
  function ToggledLikes(likes: Option<seq<User>>, user: User): (toggled: Option<seq<User>>)
    ensures toggled.Some? <==> likes.Some?
    ensures likes.Some? ==> (Contains(toggled.value, user) <==> !Contains(likes.value, user))
    ensures likes.Some? ==> forall v :: !SameUser(v, user) ==> (Contains(toggled.value, v) <==> Contains(likes.value, v))
  {
    match likes
    case None => None
    case Some(list) =>
      if Contains(list, user) then Some(RemoveUser(list, user))
      else
        assert forall w :: w in list + [user] <==> w in list || w == user;
        assert user in list + [user] && SameUser(user, user);
        Some(list + [user])
  }

  /** A user who does not like the post and toggles twice gets back the original list. */
  lemma ToggleTwiceRestores(list: seq<User>, user: User)
    requires !Contains(list, user)
    ensures ToggledLikes(Some(list), user) == Some(list + [user])
    ensures ToggledLikes(ToggledLikes(Some(list), user), user) == Some(list)
  {
    var liked := list + [user];
    assert user in liked && SameUser(user, user);
    assert Contains(liked, user);
    assert ToggledLikes(Some(liked), user) == Some(RemoveUser(liked, user));
    RemoveUserAppend(list, [user], user);
    RemoveAbsentUser(list, user);
    assert [user][1..] == [];
    assert RemoveUser([user], user) == [];
    assert list + [] == list;
    assert RemoveUser(liked, user) == list;
  }

  /** Unliking removes the user and keeps everybody else in their original order. */
  lemma UnlikeKeepsOrder(before: seq<User>, after: seq<User>, user: User)
    requires !Contains(before, user) && !Contains(after, user)
    ensures ToggledLikes(Some(before + [user] + after), user) == Some(before + after)
  {
    var liked := before + [user] + after;
    assert user in liked && SameUser(user, user);
    assert Contains(liked, user);
    assert ToggledLikes(Some(liked), user) == Some(RemoveUser(liked, user));
    RemoveUserAppend(before + [user], after, user);
    RemoveUserAppend(before, [user], user);
    RemoveAbsentUser(before, user);
    RemoveAbsentUser(after, user);
    assert [user][1..] == [];
    assert RemoveUser([user], user) == [];
    assert before + [] == before;
    assert RemoveUser(liked, user) == before + after;
  }

  /**
   * The process-wide image cache (`Post.imageCache`, a static in the app),
   * keyed by image file name. It has no eviction.
   */
  class ImageCache {
    var entries: map<string, Image>

    constructor ()
      ensures entries == map[]
    {
      entries := map[];
    }

    /** The subscript read: the cached image, or nil on a miss. */
    function Get(name: string): Option<Image>
      reads this
    {
      if name in entries then Some(entries[name]) else None
    }

    /**
     * The subscript write: a read of the same name then returns the image,
     * and a read of any other name returns what it returned before.
     */
    method Put(name: string, image: Image)
      modifies this
      ensures entries == old(entries)[name := image]
      ensures Get(name) == Some(image)
      ensures forall n :: n != name ==> Get(n) == old(Get(n))
    {
      entries := entries[name := image];
    }
  }

  class Post {
    var objectId: Option<ObjectId>
    /** The name of the post's image file; nil when the post has no file. */
    var imageFile: Option<string>
    var image: Option<Image>
    /** Nil until fetched; otherwise the users who like the post, in order. */
    var likes: Option<seq<User>>
    /** The bonds (observers) currently bound to `image` and to `likes`. */
    var imageBonds: set<object>
    var likesBonds: set<object>
    /** The requests this post has sent to the backend, oldest first. */
    ghost var requests: seq<Request>
    /** Queries and downloads issued whose callbacks have not run yet. */
    ghost var pendingLikesQueries: nat
    ghost var pendingImageFetches: nat

    constructor (objectId: Option<ObjectId>, imageFile: Option<string>)
      ensures this.objectId == objectId && this.imageFile == imageFile
      ensures image == None && likes == None
      ensures imageBonds == {} && likesBonds == {}
      ensures requests == [] && pendingLikesQueries == 0 && pendingImageFetches == 0
    {
      this.objectId := objectId;
      this.imageFile := imageFile;
      image := None;
      likes := None;
      imageBonds := {};
      likesBonds := {};
      requests := [];
      pendingLikesQueries := 0;
      pendingImageFetches := 0;
    }

    /** `doesUserLikePost`: false while the likes are unknown. */
    function DoesUserLikePost(user: User): (liked: bool)
      reads this
      ensures likes.None? ==> !liked
      ensures liked <==> likes.Some? && exists i :: 0 <= i < |likes.value| && SameUser(likes.value[i], user)
    {
      match likes
      case Some(list) => Contains(list, user)
      case None => false
    }

    /**
     * `toggleLikePost`: changes the local list first, then sends exactly one
     * unlike request (if the user liked the post) or like request (otherwise).
     */
    method ToggleLikePost(user: User)
      modifies this
      ensures likes == ToggledLikes(old(likes), user)
      ensures requests == old(requests) + [if old(DoesUserLikePost(user)) then UnlikeRequest(user) else LikeRequest(user)]
      ensures objectId == old(objectId) && imageFile == old(imageFile) && image == old(image)
      ensures imageBonds == old(imageBonds) && likesBonds == old(likesBonds)
      ensures pendingLikesQueries == old(pendingLikesQueries) && pendingImageFetches == old(pendingImageFetches)
    {
      if DoesUserLikePost(user) {
        likes := Some(RemoveUser(likes.value, user));
        requests := requests + [UnlikeRequest(user)];
      } else {
        if likes.Some? {
          likes := Some(likes.value + [user]);
        }
        requests := requests + [LikeRequest(user)];
      }
    }

    /**
     * `fetchLikes`: nothing when the likes are already set; otherwise one
     * query. There is no guard against a query already in flight.
     */
    method FetchLikes()
      modifies this
      ensures likes == old(likes)
      ensures old(likes).Some? ==> requests == old(requests) && pendingLikesQueries == old(pendingLikesQueries)
      ensures old(likes).None? ==> requests == old(requests) + [LikesQuery] && pendingLikesQueries == old(pendingLikesQueries) + 1
      ensures objectId == old(objectId) && imageFile == old(imageFile) && image == old(image)
      ensures imageBonds == old(imageBonds) && likesBonds == old(likesBonds)
      ensures pendingImageFetches == old(pendingImageFetches)
    {
      if likes.Some? {
        return;
      }
      requests := requests + [LikesQuery];
      pendingLikesQueries := pendingLikesQueries + 1;
    }

    /**
     * The callback of the likes query: overwrites `likes` with the users of the
     * rows that still resolve, or with nil when the query returned nil, whatever
     * `likes` holds by then.
     */
    method CompleteFetchLikes(results: Option<seq<Record>>)
      requires pendingLikesQueries > 0
      modifies this
      ensures likes == (match results case None => None case Some(rows) => Some(Likers(rows)))
      ensures pendingLikesQueries == old(pendingLikesQueries) - 1
      ensures requests == old(requests) && pendingImageFetches == old(pendingImageFetches)
      ensures objectId == old(objectId) && imageFile == old(imageFile) && image == old(image)
      ensures imageBonds == old(imageBonds) && likesBonds == old(likesBonds)
    {
      pendingLikesQueries := pendingLikesQueries - 1;
      match results {
        case None =>
          likes := None;
        case Some(rows) =>
          likes := Some(Likers(rows));
      }
    }

    /**
     * `downloadImage`: `image` always takes the cached value first (nil on a
     * miss); only a miss starts a download. The file is force-unwrapped.
     */
    method DownloadImage(cache: ImageCache)
      requires imageFile.Some?
      modifies this
      ensures imageFile == old(imageFile)
      ensures image == cache.Get(imageFile.value)
      ensures image.Some? ==> requests == old(requests) && pendingImageFetches == old(pendingImageFetches)
      ensures image.None? ==> requests == old(requests) + [ImageDataRequest(imageFile.value)]
                              && pendingImageFetches == old(pendingImageFetches) + 1
      ensures objectId == old(objectId) && likes == old(likes)
      ensures imageBonds == old(imageBonds) && likesBonds == old(likesBonds)
      ensures pendingLikesQueries == old(pendingLikesQueries)
    {
      image := cache.Get(imageFile.value);
      if image == None {
        requests := requests + [ImageDataRequest(imageFile.value)];
        pendingImageFetches := pendingImageFetches + 1;
      }
    }

    /**
     * The callback of the download: with data, the image and the cache entry
     * under the file name receive the same value; without data (an error)
     * nothing changes.
     */
    method CompleteDownloadImage(cache: ImageCache, data: Option<Image>)
      requires imageFile.Some?
      requires pendingImageFetches > 0
      modifies this, cache
      ensures imageFile == old(imageFile)
      ensures pendingImageFetches == old(pendingImageFetches) - 1
      ensures data.Some? ==> image == data && cache.entries == old(cache.entries)[imageFile.value := data.value]
      ensures data.None? ==> image == old(image) && cache.entries == old(cache.entries)
      ensures data.Some? ==> cache.Get(imageFile.value) == image
      ensures objectId == old(objectId) && likes == old(likes)
      ensures imageBonds == old(imageBonds) && likesBonds == old(likesBonds)
      ensures requests == old(requests) && pendingLikesQueries == old(pendingLikesQueries)
    {
      pendingImageFetches := pendingImageFetches - 1;
      if data.Some? {
        image := data;
        cache.Put(imageFile.value, data.value);
      }
    }
  }

  /**
   * Two taps by a user who does not like the post, with the likes loaded:
   * the list comes back unchanged and the backend sees a like, then an unlike.
   */
  method ToggleTwice(post: Post, user: User)
    requires post.likes.Some? && !post.DoesUserLikePost(user)
    modifies post
    ensures post.likes == old(post.likes)
    ensures post.requests == old(post.requests) + [LikeRequest(user), UnlikeRequest(user)]
  {
    ToggleTwiceRestores(post.likes.value, user);
    post.ToggleLikePost(user);
    assert post.DoesUserLikePost(user);
    post.ToggleLikePost(user);
  }

  /**
   * Once a download has delivered data, the next `downloadImage` of the same
   * post hits the cache: it shows that data and sends no request.
   */
  method DownloadAfterFill(post: Post, cache: ImageCache, data: Image)
    requires post.imageFile.Some? && post.pendingImageFetches > 0
    modifies post, cache
    ensures post.image == Some(data)
    ensures post.requests == old(post.requests)
    ensures post.pendingImageFetches == old(post.pendingImageFetches) - 1
  {
    post.CompleteDownloadImage(cache, Some(data));
    post.DownloadImage(cache);
  }
}
