/**
 * The backend as the app's helper sees it: an in-memory list of Like and
 * Follow rows that the helper's requests add to and delete from, the queries
 * it builds (as data), the timeline query with its skip/limit page, and the
 * user listing. It ends with the link between a post's optimistic like toggle
 * and what a later likes query on the changed store returns.
 */
module ParseHelper {

  import opened Wrappers
  import opened ParseObjects
  import opened Posts

  /** `query.limit = 20` in `allUsers`. */
  const UserQueryLimit: nat := 20

  /** The Like and Follow queries the helper builds, one constructor per query. */
  datatype Query =
    | LikesByUserOnPost(user: User, post: Option<ObjectId>)  // unlikePost
    | LikesOnPost(post: Option<ObjectId>)                    // likesForPost
    | FollowsFromTo(user: User, toUser: User)                // removeFollowRelationshipFromUser
    | FollowsFrom(user: User)                                // the timeline's following query

  /**
   * `whereKey(key, equalTo: user)` on a pointer column: the stored pointer has
   * the user's id, whether or not its target still exists.
   */
  predicate PointsTo(pointer: Pointer, user: User)
  {
    SameObject(Target(pointer), user.objectId)
  }

  /** The conditions each query puts on a row, including the class it runs on. */
  predicate Matches(q: Query, r: Record)
  {
    match q
    case LikesByUserOnPost(user, post) => r.Like? && PointsTo(r.fromUser, user) && SameObject(r.toPost, post)
    case LikesOnPost(post) => r.Like? && SameObject(r.toPost, post)
    case FollowsFromTo(user, toUser) => r.Follow? && PointsTo(r.fromUser, user) && PointsTo(r.toUser, toUser)
    case FollowsFrom(user) => r.Follow? && PointsTo(r.fromUser, user)
  }

  /** `findObjects`: the rows the query matches, in store order. */
  function Find(records: seq<Record>, q: Query): (found: seq<Record>)
    ensures |found| <= |records|
    ensures forall r :: r in found <==> r in records && Matches(q, r)
  {
    if records == [] then []
    else
      assert forall r :: r in records <==> r == records[0] || r in records[1..];
      (if Matches(q, records[0]) then [records[0]] else []) + Find(records[1..], q)
  }

  /** The rows the query does not match, in store order. */
  function Reject(records: seq<Record>, q: Query): (kept: seq<Record>)
    ensures |kept| <= |records|
    ensures forall r :: r in kept <==> r in records && !Matches(q, r)
  {
    if records == [] then []
    else
      assert forall r :: r in records <==> r == records[0] || r in records[1..];
      (if Matches(q, records[0]) then [] else [records[0]]) + Reject(records[1..], q)
  }

  /** A query over two stretches of the store finds the rows of each, in order. */
  lemma {:induction false} FindAppend(a: seq<Record>, b: seq<Record>, q: Query)
    ensures Find(a + b, q) == Find(a, q) + Find(b, q)
  {
    if a == [] {
      assert a + b == b;
    } else {
      assert (a + b)[0] == a[0];
      assert (a + b)[1..] == a[1..] + b;
      FindAppend(a[1..], b, q);
    }
  }

  /** The object ids of some rows. */
  function IdsOf(rows: seq<Record>): set<nat>
  {
    set r | r in rows :: r.id
  }

  /** The store after every object whose id is in `ids` has been deleted. */
  function Without(records: seq<Record>, ids: set<nat>): (kept: seq<Record>)
    ensures |kept| <= |records|
    ensures forall r :: r in kept <==> r in records && r.id !in ids
  {
    if records == [] then []
    else
      assert forall r :: r in records <==> r == records[0] || r in records[1..];
      (if records[0].id in ids then [] else [records[0]]) + Without(records[1..], ids)
  }

  /** Object ids are unique in the store. */
  ghost predicate DistinctIds(records: seq<Record>)
  {
    forall i, j :: 0 <= i < j < |records| ==> records[i].id != records[j].id
  }

  lemma DistinctTail(records: seq<Record>)
    requires DistinctIds(records) && records != []
    ensures DistinctIds(records[1..])
    ensures forall r :: r in records[1..] ==> r.id != records[0].id
  {
    forall r | r in records[1..] ensures r.id != records[0].id {
      var k :| 0 <= k < |records[1..]| && records[1..][k] == r;
      assert records[k + 1] == r;
    }
  }

  lemma DistinctCons(x: Record, rest: seq<Record>)
    requires DistinctIds(rest)
    requires forall r :: r in rest ==> r.id != x.id
    ensures DistinctIds([x] + rest)
  {
    forall i, j | 0 <= i < j < |[x] + rest| ensures ([x] + rest)[i].id != ([x] + rest)[j].id {
      assert ([x] + rest)[j] == rest[j - 1];
      if i > 0 {
        assert ([x] + rest)[i] == rest[i - 1];
      } else {
        assert rest[j - 1] in rest;
      }
    }
  }

  /** Deleting objects keeps the ids that remain unique. */
  lemma {:induction false} WithoutKeepsDistinct(records: seq<Record>, ids: set<nat>)
    requires DistinctIds(records)
    ensures DistinctIds(Without(records, ids))
  {
    if records != [] {
      DistinctTail(records);
      WithoutKeepsDistinct(records[1..], ids);
      if records[0].id !in ids {
        DistinctCons(records[0], Without(records[1..], ids));
      }
    }
  }

  /** Deleting two batches one after the other deletes their union. */
  lemma {:induction false} WithoutTwice(records: seq<Record>, first: set<nat>, second: set<nat>)
    ensures Without(Without(records, first), second) == Without(records, first + second)
  {
    if records != [] {
      var x, rest := records[0], records[1..];
      WithoutTwice(rest, first, second);
      var once := Without(records, first);
      if x.id in first {
        assert once == Without(rest, first);
        assert Without(records, first + second) == Without(rest, first + second);
      } else {
        assert once == [x] + Without(rest, first);
        assert once[0] == x && once[1..] == Without(rest, first);
        if x.id in second {
          assert Without(once, second) == Without(once[1..], second);
          assert Without(records, first + second) == Without(rest, first + second);
        } else {
          assert Without(once, second) == [x] + Without(once[1..], second);
          assert Without(records, first + second) == [x] + Without(rest, first + second);
        }
      }
    }
  }

  /** Only the ids that occur in the store matter to a deletion. */
  lemma {:induction false} WithoutSameOn(records: seq<Record>, a: set<nat>, b: set<nat>)
    requires forall r :: r in records ==> (r.id in a <==> r.id in b)
    ensures Without(records, a) == Without(records, b)
  {
    if records != [] {
      assert records[0] in records;
      assert forall r :: r in records[1..] ==> r in records;
      WithoutSameOn(records[1..], a, b);
    }
  }

  /**
   * Deleting every row a query found leaves exactly the rows it does not
   * match, because ids are unique: no other row shares an id with a deleted one.
   */
  lemma {:induction false} DeleteFoundLeavesRest(records: seq<Record>, q: Query)
    requires DistinctIds(records)
    ensures Without(records, IdsOf(Find(records, q))) == Reject(records, q)
  {
    if records != [] {
      var x, rest := records[0], records[1..];
      DistinctTail(records);
      DeleteFoundLeavesRest(rest, q);
      var found := Find(records, q);
      assert x in records;
      if Matches(q, x) {
        assert found == [x] + Find(rest, q);
        assert x in found;
        assert IdsOf(found) == {x.id} + IdsOf(Find(rest, q));
        WithoutSameOn(rest, IdsOf(found), IdsOf(Find(rest, q)));
      } else {
        assert found == Find(rest, q);
        assert x.id !in IdsOf(found);
      }
    }
  }

  /** Deleting no ids leaves the store as it is. */
  lemma WithoutNothing(records: seq<Record>)
    ensures Without(records, {}) == records
  {
  }

  /**
   * The Like and Follow rows of the backend. `nextId` stands for the backend
   * assigning a fresh object id to every saved row.
   */
  class Backend {
    var records: seq<Record>
    var nextId: nat

    ghost predicate Valid()
      reads this
    {
      DistinctIds(records) && forall r :: r in records ==> r.id < nextId
    }

    constructor ()
      ensures Valid() && records == []
    {
      records := [];
      nextId := 0;
    }

    /** Saving a new row: it gets a fresh id and goes at the end. */
    method Save(row: Record) returns (saved: Record)
      requires Valid()
      modifies this
      ensures Valid()
      ensures saved == row.(id := old(nextId))
      ensures records == old(records) + [saved]
    {
      saved := row.(id := nextId);
      forall r | r in records ensures r.id != saved.id { }
      DistinctAppend(records, saved);
      records := records + [saved];
      nextId := nextId + 1;
    }

    /** `likePost`: adds one Like row from `user` to `post` and changes nothing else. */
    method LikePost(user: User, post: Option<ObjectId>)
      requires Valid()
      modifies this
      ensures Valid()
      ensures records == old(records) + [Like(old(nextId), Live(user), post)]
    {
      var _ := Save(Like(0, Live(user), post));
    }

    /** `addFollowRelationshipFromUser`: adds one Follow row and changes nothing else. */
    method AddFollowRelationshipFromUser(user: User, toUser: User)
      requires Valid()
      modifies this
      ensures Valid()
      ensures records == old(records) + [Follow(old(nextId), Live(user), Live(toUser))]
    {
      var _ := Save(Follow(0, Live(user), Live(toUser)));
    }

    /** `deleteInBackground` on one object. */
    method DeleteObject(id: nat)
      requires Valid()
      modifies this
      ensures Valid() && nextId == old(nextId)
      ensures records == Without(old(records), {id})
    {
      WithoutKeepsDistinct(records, {id});
      records := Without(records, {id});
    }

    /**
     * The callback shared by `unlikePost` and `removeFollowRelationshipFromUser`:
     * deletes each returned row, one at a time; nil results delete nothing.
     */
    method DeleteEach(results: Option<seq<Record>>)
      requires Valid()
      modifies this
      ensures Valid() && nextId == old(nextId)
      ensures results.None? ==> records == old(records)
      ensures results.Some? ==> records == Without(old(records), IdsOf(results.value))
    {
      if results.Some? {
        var rows := results.value;
        WithoutNothing(records);
        ghost var deleted: set<nat> := {};
        var i := 0;
        while i < |rows|
          invariant 0 <= i <= |rows|
          invariant Valid() && nextId == old(nextId)
          invariant deleted == IdsOf(rows[..i])
          invariant records == Without(old(records), deleted)
        {
          IdsOfPrefix(rows, i);
          WithoutTwice(old(records), deleted, {rows[i].id});
          DeleteObject(rows[i].id);
          deleted := deleted + {rows[i].id};
          i := i + 1;
        }
        assert rows[..|rows|] == rows;
      }
    }

    /** `unlikePost`: deletes every Like row from `user` to `post`, and no other row. */
    method UnlikePost(user: User, post: Option<ObjectId>)
      requires Valid()
      modifies this
      ensures Valid()
      ensures records == Reject(old(records), LikesByUserOnPost(user, post))
    {
      var results := Find(records, LikesByUserOnPost(user, post));
      DeleteFoundLeavesRest(records, LikesByUserOnPost(user, post));
      DeleteEach(Some(results));
    }

    /** `removeFollowRelationshipFromUser`: deletes every Follow row from `user` to `toUser`. */
    method RemoveFollowRelationshipFromUser(user: User, toUser: User)
      requires Valid()
      modifies this
      ensures Valid()
      ensures records == Reject(old(records), FollowsFromTo(user, toUser))
    {
      var results := Find(records, FollowsFromTo(user, toUser));
      DeleteFoundLeavesRest(records, FollowsFromTo(user, toUser));
      DeleteEach(Some(results));
    }
  }

  lemma IdsOfPrefix(rows: seq<Record>, i: nat)
    requires i < |rows|
    ensures IdsOf(rows[..i + 1]) == IdsOf(rows[..i]) + {rows[i].id}
  {
    assert rows[..i + 1] == rows[..i] + [rows[i]];
  }

  lemma DistinctAppend(records: seq<Record>, row: Record)
    requires DistinctIds(records)
    requires forall r :: r in records ==> r.id != row.id
    ensures DistinctIds(records + [row])
  {
    forall i, j | 0 <= i < j < |records + [row]| ensures (records + [row])[i].id != (records + [row])[j].id {
      assert (records + [row])[i] == records[i];
      if j == |records| {
        assert records[i] in records;
      } else {
        assert (records + [row])[j] == records[j];
      }
    }
  }

  /** `likesForPost`: exactly the Like rows that point to `post`, in store order. */
  function LikesForPost(records: seq<Record>, post: Option<ObjectId>): (likes: seq<Record>)
    ensures forall r :: r in likes <==> r in records && r.Like? && r.toPost == post
  {
    Find(records, LikesOnPost(post))
  }

  // ---------------------------------------------------------------------
  // The timeline query

  /**
   * A post is on `me`'s timeline when its author pointer is `me`, or when it
   * stores the same id as the `toUser` of a Follow row whose `fromUser` is
   * `me` (`matchesKey:inQuery:` compares stored pointers, so an author whose
   * account was deleted still matches).
   */
  ghost predicate IsVisible(p: PostRow, records: seq<Record>, me: User)
  {
    PointsTo(p.user, me) ||
    exists r :: r in records && Matches(FollowsFrom(me), r) && SameObject(Target(r.toUser), Target(p.user))
  }

  /** `matchesKey: toUser`: some Follow row among `follows` stores `target` as its `toUser`. */
  function FollowsTarget(follows: seq<Record>, target: Option<ObjectId>): (found: bool)
    ensures found <==> exists r :: r in follows && r.Follow? && SameObject(Target(r.toUser), target)
  {
    if follows == [] then false
    else
      assert forall r :: r in follows <==> r == follows[0] || r in follows[1..];
      (follows[0].Follow? && SameObject(Target(follows[0].toUser), target)) || FollowsTarget(follows[1..], target)
  }

  /** The or-query over posts, before ordering. */
  function VisiblePosts(posts: seq<PostRow>, records: seq<Record>, me: User): (visible: seq<PostRow>)
    ensures forall p :: p in visible <==> p in posts && IsVisible(p, records, me)
  {
    if posts == [] then []
    else
      assert forall p :: p in posts <==> p == posts[0] || p in posts[1..];
      (if IsFollowedOrSelf(posts[0], records, me) then [posts[0]] else []) + VisiblePosts(posts[1..], records, me)
  }

  /**
   * Stored pointers outlive their targets: a post by a followed user whose
   * account was deleted stays on the timeline, and removing the follow
   * relationship to that user still deletes the Follow row.
   */
  lemma DeletedFollowedUserStillMatches(me: User, gone: ObjectId, post: Option<ObjectId>, createdAt: int)
    ensures var follow := Follow(0, Live(me), Dangling(gone));
            var row := PostRow(post, Dangling(gone), createdAt);
            VisiblePosts([row], [follow], me) == [row]
            && Reject([follow], FollowsFromTo(me, User(Some(gone), None))) == []
  {
    var follow := Follow(0, Live(me), Dangling(gone));
    var row := PostRow(post, Dangling(gone), createdAt);
    assert follow in [follow] && Matches(FollowsFrom(me), follow);
    assert IsVisible(row, [follow], me);
    assert [row][1..] == [];
    assert [follow][1..] == [];
  }

  /** The executable test behind IsVisible. */
  function IsFollowedOrSelf(p: PostRow, records: seq<Record>, me: User): (visible: bool)
    ensures visible <==> IsVisible(p, records, me)
  {
    PointsTo(p.user, me) || FollowsTarget(Find(records, FollowsFrom(me)), Target(p.user))
  }

  ghost predicate SortedByCreatedDesc(s: seq<PostRow>)
  {
    forall i, j :: 0 <= i < j < |s| ==> s[i].createdAt >= s[j].createdAt
  }

  /** A post no older than everything after it can go in front of a sorted list. */
  lemma SortedCons(p: PostRow, s: seq<PostRow>)
    requires SortedByCreatedDesc(s)
    requires forall x :: x in s ==> x.createdAt <= p.createdAt
    ensures SortedByCreatedDesc([p] + s)
  {
    forall i, j | 0 <= i < j < |[p] + s| ensures ([p] + s)[i].createdAt >= ([p] + s)[j].createdAt {
      assert ([p] + s)[j] == s[j - 1];
      if i > 0 {
        assert ([p] + s)[i] == s[i - 1];
      } else {
        assert s[j - 1] in s;
      }
    }
  }

  /** In a list sorted newest first, the head is the newest. */
  lemma SortedHead(s: seq<PostRow>)
    requires SortedByCreatedDesc(s) && s != []
    ensures SortedByCreatedDesc(s[1..])
    ensures forall x :: x in s ==> x.createdAt <= s[0].createdAt
  {
    forall x | x in s ensures x.createdAt <= s[0].createdAt {
      var k :| 0 <= k < |s| && s[k] == x;
    }
  }

  /** Inserts a post before the first one that is not newer. */
  function InsertByCreatedDesc(p: PostRow, s: seq<PostRow>): (r: seq<PostRow>)
    requires SortedByCreatedDesc(s)
    ensures SortedByCreatedDesc(r)
    ensures multiset(r) == multiset(s) + multiset{p}
    ensures forall x :: x in r ==> x == p || x in s
  {
    if s == [] || s[0].createdAt <= p.createdAt then
      SortedPrepend(s, p);
      [p] + s
    else
      SortedHead(s);
      var rest := InsertByCreatedDesc(p, s[1..]);
      assert forall x :: x in s[1..] ==> x in s;
      SortedCons(s[0], rest);
      assert s == [s[0]] + s[1..];
      [s[0]] + rest
  }

  /** A post at least as new as a sorted list's head can go in front of it. */
  lemma SortedPrepend(s: seq<PostRow>, p: PostRow)
    requires SortedByCreatedDesc(s)
    requires s == [] || s[0].createdAt <= p.createdAt
    ensures SortedByCreatedDesc([p] + s)
  {
    if s != [] {
      SortedHead(s);
    }
    SortedCons(p, s);
  }

  /** `orderByDescending(createdAt)`: newest first. */
  function SortByCreatedDesc(s: seq<PostRow>): (r: seq<PostRow>)
    ensures SortedByCreatedDesc(r)
    ensures multiset(r) == multiset(s)
  {
    if s == [] then []
    else
      assert s == [s[0]] + s[1..];
      InsertByCreatedDesc(s[0], SortByCreatedDesc(s[1..]))
  }

  /**
   * The whole timeline of `me`: exactly the visible posts, each as often as it
   * is stored, newest first.
   */
  function Timeline(posts: seq<PostRow>, records: seq<Record>, me: User): (timeline: seq<PostRow>)
    ensures SortedByCreatedDesc(timeline)
    ensures multiset(timeline) == multiset(VisiblePosts(posts, records, me))
    ensures forall p :: p in timeline <==> p in posts && IsVisible(p, records, me)
  {
    var visible := VisiblePosts(posts, records, me);
    var sorted := SortByCreatedDesc(visible);
    assert forall p :: p in sorted <==> p in multiset(visible);
    sorted
  }

  function Min(a: int, b: int): int
  {
    if a <= b then a else b
  }

  /** Swift's `Range<Int>`: `startIndex..<endIndex`. */
  datatype Range = Range(startIndex: int, endIndex: int)

  /** A query with `skip` and `limit`: at most `limit` results, starting after the first `skip`. */
  function Page<T>(s: seq<T>, skip: nat, limit: nat): (page: seq<T>)
    ensures |page| == if skip >= |s| then 0 else Min(limit, |s| - skip)
    ensures forall i :: 0 <= i < |page| ==> page[i] == s[skip + i]
  {
    if skip >= |s| then [] else s[skip..skip + Min(limit, |s| - skip)]
  }

  /**
   * `timelineRequestforCurrentUser(range:)`: `skip = range.startIndex` and
   * `limit = range.endIndex - range.startIndex`, so the result is the stretch
   * `[startIndex, endIndex)` of the timeline, cut short where the timeline ends.
   */
  function TimelineRequest(posts: seq<PostRow>, records: seq<Record>, me: User, range: Range): (page: seq<PostRow>)
    requires 0 <= range.startIndex <= range.endIndex
    ensures |page| <= range.endIndex - range.startIndex
    ensures |page| == Min(range.endIndex, |Timeline(posts, records, me)|) - range.startIndex
                      || (range.startIndex >= |Timeline(posts, records, me)| && page == [])
    ensures forall i :: 0 <= i < |page| ==> page[i] == Timeline(posts, records, me)[range.startIndex + i]
    ensures SortedByCreatedDesc(page)
  {
    var page := Page(Timeline(posts, records, me), range.startIndex, range.endIndex - range.startIndex);
    assert forall i, j :: 0 <= i < j < |page| ==> page[i].createdAt >= page[j].createdAt by {
      forall i, j | 0 <= i < j < |page| ensures page[i].createdAt >= page[j].createdAt {
        assert page[i] == Timeline(posts, records, me)[range.startIndex + i];
        assert page[j] == Timeline(posts, records, me)[range.startIndex + j];
      }
    }
    page
  }

  /** Two adjacent ranges load, together, exactly what their union loads. */
  lemma AdjacentPages<T>(s: seq<T>, a: nat, b: nat, c: nat)
    requires a <= b <= c
    ensures Page(s, a, b - a) + Page(s, b, c - b) == Page(s, a, c - a)
  {
    var left, right, whole := Page(s, a, b - a), Page(s, b, c - b), Page(s, a, c - a);
    assert |left + right| == |whole|;
    forall i | 0 <= i < |whole| ensures (left + right)[i] == whole[i] {
      if i < |left| {
        assert (left + right)[i] == left[i];
      } else {
        assert (left + right)[i] == right[i - |left|];
      }
    }
  }

  // ---------------------------------------------------------------------
  // Users

  /** `whereKey(username, notEqualTo: name)`; a user with no username is kept. */
  function OtherUsers(users: seq<User>, name: string): (others: seq<User>)
    ensures |others| <= |users|
    ensures forall u :: u in others <==> u in users && u.username != Some(name)
  {
    if users == [] then []
    else
      assert forall u :: u in users <==> u == users[0] || u in users[1..];
      (if users[0].username != Some(name) then [users[0]] else []) + OtherUsers(users[1..], name)
  }

  /**
   * `allUsers`: at most 20 users, none with the current user's username; when
   * fewer than 20 come back, every other user came back.
   */
  function AllUsers(users: seq<User>, currentUser: User): (found: seq<User>)
    requires currentUser.username.Some?
    ensures |found| <= UserQueryLimit
    ensures forall u :: u in found ==> u in users && u.username != currentUser.username
    ensures |found| < UserQueryLimit ==> forall u :: u in users && u.username != currentUser.username ==> u in found
  {
    var others := OtherUsers(users, currentUser.username.value);
    var found := others[..Min(UserQueryLimit, |others|)];
    assert forall u :: u in found ==> u in others;
    assert |found| < UserQueryLimit ==> found == others;
    found
  }

  // ---------------------------------------------------------------------
  // Optimistic toggle against the store

  /** What a likes query on `post` hands to `fetchLikes`'s projection. */
  function StoredLikers(records: seq<Record>, post: Option<ObjectId>): seq<User>
  {
    Likers(LikesForPost(records, post))
  }

  /** After a like is saved, a fresh fetch returns the old likers with the user appended. */
  lemma LikeReconciles(records: seq<Record>, id: nat, user: User, post: Option<ObjectId>)
    ensures StoredLikers(records + [Like(id, Live(user), post)], post) == StoredLikers(records, post) + [user]
  {
    var row := Like(id, Live(user), post);
    FindAppend(records, [row], LikesOnPost(post));
    assert [row][1..] == [];
    assert Find([row], LikesOnPost(post)) == [row];
    LikersAppend(Find(records, LikesOnPost(post)), [row]);
    assert Likers([row]) == [user] by {
      assert Resolved(row) == [user];
    }
  }

  /** After an unlike lands, a fresh fetch returns the old likers without that user. */
  lemma {:induction false} UnlikeReconciles(records: seq<Record>, user: User, post: Option<ObjectId>)
    ensures StoredLikers(Reject(records, LikesByUserOnPost(user, post)), post)
         == RemoveUser(StoredLikers(records, post), user)
  {
    var q, onPost := LikesByUserOnPost(user, post), LikesOnPost(post);
    if records == [] {
      assert Reject(records, q) == [];
    } else {
      var x, rest := records[0], records[1..];
      UnlikeReconciles(rest, user, post);
      var head := Likers(Find([x], onPost));
      assert [x][1..] == [] && [x] + rest == records;
      FindAppend([x], rest, onPost);
      LikersAppend(Find([x], onPost), Find(rest, onPost));
      assert StoredLikers(records, post) == head + StoredLikers(rest, post);
      RemoveUserAppend(head, StoredLikers(rest, post), user);
      if Matches(q, x) {
        assert Reject(records, q) == Reject(rest, q);
        assert Find([x], onPost) == [x];
        if x.fromUser.Live? {
          assert head == [x.fromUser.user];
          assert RemoveUser(head, user) == [];
        } else {
          assert head == [];
        }
      } else {
        assert Reject(records, q) == [x] + Reject(rest, q);
        FindAppend([x], Reject(rest, q), onPost);
        LikersAppend(Find([x], onPost), Find(Reject(rest, q), onPost));
        assert ([x] + Reject(rest, q))[1..] == Reject(rest, q);
        if Matches(onPost, x) && x.fromUser.Live? {
          assert Find([x], onPost) == [x];
          assert Resolved(x) == [x.fromUser.user];
          assert !SameUser(x.fromUser.user, user);
          assert RemoveUser(head, user) == head;
        } else {
          assert head == [] by {
            if Matches(onPost, x) {
              assert Find([x], onPost) == [x];
            } else {
              assert Find([x], onPost) == [];
            }
          }
        }
      }
    }
  }

  /**
   * The optimistic toggle agrees with the store: if the local likes match the
   * store, then after `toggleLikePost` and the request it sends have both taken
   * effect, the local likes are exactly what a fresh `fetchLikes` would load.
   */
  lemma ToggleReconciles(records: seq<Record>, id: nat, user: User, post: Option<ObjectId>)
    ensures Contains(StoredLikers(records, post), user) ==>
      ToggledLikes(Some(StoredLikers(records, post)), user)
        == Some(StoredLikers(Reject(records, LikesByUserOnPost(user, post)), post))
    ensures !Contains(StoredLikers(records, post), user) ==>
      ToggledLikes(Some(StoredLikers(records, post)), user)
        == Some(StoredLikers(records + [Like(id, Live(user), post)], post))
  {
    UnlikeReconciles(records, user, post);
    LikeReconciles(records, id, user, post);
  }

  /**
   * Two taps before the likes have loaded each send a like request (the local
   * list stays unset, so the second tap still sees "not liked"); once both land,
   * a fetch lists the user twice.
   */
  lemma TapsBeforeLoadLikeTwice(records: seq<Record>, first: nat, second: nat, user: User, post: Option<ObjectId>)
    ensures ToggledLikes(None, user) == None
    ensures StoredLikers(records + [Like(first, Live(user), post)] + [Like(second, Live(user), post)], post)
         == StoredLikers(records, post) + [user, user]
  {
    LikeReconciles(records, first, user, post);
    LikeReconciles(records + [Like(first, Live(user), post)], second, user, post);
  }
}
