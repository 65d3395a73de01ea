/**
 * The timeline cell: the text and flags it derives from a post's likes, its
 * like button, and the clean-up it does when it is given another post.
 */
module TimelineCell {

  import opened Wrappers
  import opened ParseObjects
  import opened Posts

  /** Every user has a username; `user.username!` would crash otherwise. */
  predicate HasUsernames(users: seq<User>)
  {
    forall i :: 0 <= i < |users| ==> users[i].username.Some?
  }

  /** `userList.map { user in user.username! }`. */
  function Usernames(users: seq<User>): (names: seq<string>)
    requires HasUsernames(users)
    ensures |names| == |users|
    ensures forall i :: 0 <= i < |users| ==> names[i] == users[i].username.value
  {
    if users == [] then [] else [users[0].username.value] + Usernames(users[1..])
  }

  const Separator: string := ", "

  /** `", ".join(names)`: the separator goes between consecutive names only. */
  function Join(names: seq<string>): (joined: string)
  {
    if names == [] then ""
    else if |names| == 1 then names[0]
    else names[0] + Separator + Join(names[1..])
  }

  /** Joining one more name appends the separator and that name. */
  lemma {:induction false} JoinAppend(names: seq<string>, last: string)
    requires names != []
    ensures Join(names + [last]) == Join(names) + Separator + last
  {
    if |names| == 1 {
      assert (names + [last])[1..] == [last];
    } else {
      assert (names + [last])[1..] == names[1..] + [last];
      JoinAppend(names[1..], last);
    }
  }

  /** The joined text is as long as the names plus one separator between each pair. */
  lemma {:induction false} JoinLength(names: seq<string>)
    requires names != []
    ensures |Join(names)| == TotalLength(names) + |Separator| * (|names| - 1)
  {
    if |names| > 1 {
      JoinLength(names[1..]);
    }
  }

  function TotalLength(names: seq<string>): nat
  {
    if names == [] then 0 else |names[0]| + TotalLength(names[1..])
  }

  /** `stringFromUserlist`: the usernames, in list order, separated by ", ". */
  function StringFromUserlist(users: seq<User>): (text: string)
    requires HasUsernames(users)
    ensures users == [] ==> text == ""
    ensures |users| == 1 ==> text == users[0].username.value
  {
    Join(Usernames(users))
  }

  /** One more liker adds ", " and that liker's name at the end of the text. */
  lemma StringFromUserlistAppend(users: seq<User>, user: User)
    requires HasUsernames(users) && users != [] && user.username.Some?
    ensures HasUsernames(users + [user])
    ensures StringFromUserlist(users + [user]) == StringFromUserlist(users) + Separator + user.username.value
  {
    assert Usernames(users + [user]) == Usernames(users) + [user.username.value];
    JoinAppend(Usernames(users), user.username.value);
  }

  /** With non-empty usernames, the text is empty exactly when nobody likes the post. */
  lemma EmptyTextIffNoLikers(users: seq<User>)
    requires HasUsernames(users)
    requires forall i :: 0 <= i < |users| ==> users[i].username.value != ""
    ensures StringFromUserlist(users) == "" <==> users == []
  {
    if users != [] {
      var names := Usernames(users);
      JoinLength(names);
      assert TotalLength(names) >= |names[0]| > 0;
    }
  }

  /** What the cell shows for a post's likes. */
  datatype LikeDisplay = LikeDisplay(labelText: string, buttonSelected: bool, iconHidden: bool)

  /**
   * The `likeBond` closure: with no list, an empty label, an unselected button
   * and a hidden icon; with a list, its names, a button selected when the
   * current user is in it, and an icon hidden when it is empty.
   */
  function LikeBond(likes: Option<seq<User>>, currentUser: User): (shown: LikeDisplay)
    requires likes.Some? ==> HasUsernames(likes.value)
    ensures likes.None? ==> shown == LikeDisplay("", false, true)
    ensures likes.Some? ==> shown.labelText == StringFromUserlist(likes.value)
    ensures shown.buttonSelected <==> likes.Some? && exists w :: w in likes.value && SameUser(w, currentUser)
    ensures shown.iconHidden <==> likes.None? || likes.value == []
  {
    match likes
    case None => LikeDisplay("", false, true)
    case Some(list) => LikeDisplay(StringFromUserlist(list), Contains(list, currentUser), |list| == 0)
  }

  /** The button shows exactly what `doesUserLikePost` answers. */
  lemma ButtonShowsDoesUserLike(post: Post, currentUser: User)
    requires post.likes.Some? ==> HasUsernames(post.likes.value)
    ensures LikeBond(post.likes, currentUser).buttonSelected == post.DoesUserLikePost(currentUser)
  {
    if post.likes.Some? {
      var list := post.likes.value;
      if post.DoesUserLikePost(currentUser) {
        var i :| 0 <= i < |list| && SameUser(list[i], currentUser);
        assert list[i] in list;
      }
    }
  }

  /** With non-empty usernames, the label is empty exactly when the icon is hidden. */
  lemma LabelEmptyIffIconHidden(likes: Option<seq<User>>, currentUser: User)
    requires likes.Some? ==> HasUsernames(likes.value)
    requires likes.Some? ==> forall i :: 0 <= i < |likes.value| ==> likes.value[i].username.value != ""
    ensures LikeBond(likes, currentUser).labelText == "" <==> LikeBond(likes, currentUser).iconHidden
  {
    if likes.Some? {
      EmptyTextIffNoLikers(likes.value);
    }
  }

  /** Swift's `==` on `Post?`: nil equals only nil, two posts compare by object id. */
  predicate SamePost(a: Post?, b: Post?)
    reads a, b
  {
    if a == null || b == null then a == b else SameObject(a.objectId, b.objectId)
  }

  class PostTableViewCell {
    var post: Post?

    constructor ()
      ensures post == null
    {
      post := null;
    }

    /**
     * Assigning `post`, with its `didSet` observer: when the old post differs
     * from the new one, the cell's two bonds leave the old post, and the old
     * image is dropped if no bond is left on it; then the cell binds to the
     * new post.
     */
    method SetPost(newPost: Post?)
      modifies this, post, newPost
      ensures post == newPost
      ensures old(post) != null && !old(SamePost(post, newPost)) ==>
        && old(post).imageBonds == old(post.imageBonds) - {this}
        && old(post).likesBonds == old(post.likesBonds) - {this}
        && old(post).image == (if old(post.imageBonds) - {this} == {} then None else old(post.image))
      ensures old(post) != null && old(SamePost(post, newPost)) && old(post) != newPost ==>
        && old(post).imageBonds == old(post.imageBonds)
        && old(post).likesBonds == old(post.likesBonds)
        && old(post).image == old(post.image)
      ensures old(post) != null ==>
        && old(post).likes == old(post.likes) && old(post).objectId == old(post.objectId)
        && old(post).imageFile == old(post.imageFile) && old(post).requests == old(post.requests)
        && old(post).pendingLikesQueries == old(post.pendingLikesQueries)
        && old(post).pendingImageFetches == old(post.pendingImageFetches)
      ensures newPost != null ==>
        && newPost.imageBonds == old(newPost.imageBonds) + {this}
        && newPost.likesBonds == old(newPost.likesBonds) + {this}
        && newPost.image == old(newPost.image)
        && newPost.likes == old(newPost.likes)
        && newPost.objectId == old(newPost.objectId)
        && newPost.imageFile == old(newPost.imageFile) && newPost.requests == old(newPost.requests)
        && newPost.pendingLikesQueries == old(newPost.pendingLikesQueries)
        && newPost.pendingImageFetches == old(newPost.pendingImageFetches)
    {
      var oldValue := post;
      post := newPost;
      if oldValue != null && !SamePost(oldValue, newPost) {
        // likeBond.unbindAll() and postImageView.designatedBond.unbindAll()
        oldValue.likesBonds := oldValue.likesBonds - {this};
        oldValue.imageBonds := oldValue.imageBonds - {this};
        if oldValue.imageBonds == {} {
          oldValue.image := None;
        }
      }
      if newPost != null {
        newPost.imageBonds := newPost.imageBonds + {this};
        newPost.likesBonds := newPost.likesBonds + {this};
      }
    }

    /** `likeButtonTapped`: toggles the current user's like on the post, if there is one. */
    method LikeButtonTapped(currentUser: User)
      modifies post
      ensures post == old(post)
      ensures post != null ==>
        && post.likes == ToggledLikes(old(post.likes), currentUser)
        && post.requests == old(post.requests) +
             [if old(post.DoesUserLikePost(currentUser)) then UnlikeRequest(currentUser) else LikeRequest(currentUser)]
        && post.image == old(post.image)
        && post.imageBonds == old(post.imageBonds) && post.likesBonds == old(post.likesBonds)
        && post.objectId == old(post.objectId) && post.imageFile == old(post.imageFile)
        && post.pendingLikesQueries == old(post.pendingLikesQueries)
        && post.pendingImageFetches == old(post.pendingImageFetches)
    {
      if post != null {
        post.ToggleLikePost(currentUser);
      }
    }
  }
}
