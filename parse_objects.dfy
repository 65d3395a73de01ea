/**
 * The Parse objects the app reads and writes, as plain values: users, rows of the
 * Like and Follow classes, rows of the Post class, and the app's own `==` on
 * PFObject, which compares object ids only.
 */
module ParseObjects {

  import opened Wrappers

  /** The id the backend assigns to an object when it is first saved. */
  type ObjectId = string

  /**
   * A PFUser. `objectId` is nil until the user is saved; the SDK types the
   * username as optional.
   */
  datatype User = User(objectId: Option<ObjectId>, username: Option<string>)

  /**
   * A stored pointer to a user. A pointer keeps its target's id after that
   * user's account is deleted; `includeKey` then resolves it to nil, which is
   * `Dangling`.
   */
  datatype Pointer = Live(user: User) | Dangling(target: ObjectId)

  /** The id a pointer stores, which is what a query on the pointer column compares. */
  function Target(pointer: Pointer): Option<ObjectId>
  {
    match pointer
    case Live(u) => u.objectId
    case Dangling(t) => Some(t)
  }

  /** A stored row of the Like or the Follow class. */
  datatype Record =
    | Like(id: nat, fromUser: Pointer, toPost: Option<ObjectId>)
    | Follow(id: nat, fromUser: Pointer, toUser: Pointer)

  /** A stored row of the Post class: its id, its author pointer and its creation time. */
  datatype PostRow = PostRow(objectId: Option<ObjectId>, user: Pointer, createdAt: int)

  /**
   * `==` on PFObject: two objects are equal when their object ids are equal.
   * The ids are optional, so two objects that were never saved are equal too.
   */
  predicate SameObject(a: Option<ObjectId>, b: Option<ObjectId>)
  {
    a == b
  }

  /** `==` on PFUser, inherited from PFObject. */
  predicate SameUser(u: User, v: User)
  {
    SameObject(u.objectId, v.objectId)
  }

  /** The app's `==` is an equivalence relation that ignores every field but the id. */
  lemma SameUserIsEquivalence(u: User, v: User, w: User)
    ensures SameUser(u, u)
    ensures SameUser(u, v) <==> SameUser(v, u)
    ensures SameUser(u, v) && SameUser(v, w) ==> SameUser(u, w)
    ensures u.objectId == v.objectId ==> SameUser(u, v)
  {
  }
}
