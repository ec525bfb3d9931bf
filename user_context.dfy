/**
 * The current-user slot of `src/context/UserContext.tsx`: the signed-in user, mirrored in the
 * `"user"` local-storage key by every change the provider makes.
 */
module UserSlot {
  import opened Wrappers

  datatype User = User(
    id: int,
    username: string,
    imageUrl: string,
    latitude: real,
    longitude: real,
    createdAt: string,
    lastActive: string,
    visible: bool)

  /** `Partial<User>`: a present field overrides the user's. */
  datatype UserPatch = UserPatch(
    id: Option<int>,
    username: Option<string>,
    imageUrl: Option<string>,
    latitude: Option<real>,
    longitude: Option<real>,
    createdAt: Option<string>,
    lastActive: Option<string>,
    visible: Option<bool>)

  const SignInRoute := "/sign-in"

  /** `{ ...prevUser, ...userData }`: every field the patch supplies replaces the user's, and
      every field it leaves out is kept. */
  function MergeUser(u: User, p: UserPatch): (r: User)
    ensures if p.id.Some? then r.id == p.id.value else r.id == u.id
    ensures if p.username.Some? then r.username == p.username.value else r.username == u.username
    ensures if p.imageUrl.Some? then r.imageUrl == p.imageUrl.value else r.imageUrl == u.imageUrl
    ensures if p.latitude.Some? then r.latitude == p.latitude.value else r.latitude == u.latitude
    ensures if p.longitude.Some? then r.longitude == p.longitude.value else r.longitude == u.longitude
    ensures if p.createdAt.Some? then r.createdAt == p.createdAt.value else r.createdAt == u.createdAt
    ensures if p.lastActive.Some? then r.lastActive == p.lastActive.value else r.lastActive == u.lastActive
    ensures if p.visible.Some? then r.visible == p.visible.value else r.visible == u.visible
  {
    User(
      Override(u.id, p.id), Override(u.username, p.username), Override(u.imageUrl, p.imageUrl),
      Override(u.latitude, p.latitude), Override(u.longitude, p.longitude), Override(u.createdAt, p.createdAt),
      Override(u.lastActive, p.lastActive), Override(u.visible, p.visible))
  }

  /** `{ ...prevUser, visible: !prevUser.visible }`. */
  function ToggledVisibility(u: User): (r: User)
    ensures r.visible == !u.visible && r.(visible := u.visible) == u
  {
    u.(visible := !u.visible)
  }

  /** Toggling twice restores the user, and a toggle is the update that supplies only the
      flipped flag. */
  lemma ToggleInvolution(u: User)
    ensures ToggledVisibility(ToggledVisibility(u)) == u
    ensures ToggledVisibility(u) == MergeUser(u, UserPatch(None, None, None, None, None, None, None, Some(!u.visible)))
  {
  }

  const NoUserChange := UserPatch(None, None, None, None, None, None, None, None)

  /** `{ ...p, ...q }`: the later patch wins field by field. */
  function ComposeUserPatches(p: UserPatch, q: UserPatch): UserPatch
  {
    UserPatch(
      if q.id.Some? then q.id else p.id,
      if q.username.Some? then q.username else p.username,
      if q.imageUrl.Some? then q.imageUrl else p.imageUrl,
      if q.latitude.Some? then q.latitude else p.latitude,
      if q.longitude.Some? then q.longitude else p.longitude,
      if q.createdAt.Some? then q.createdAt else p.createdAt,
      if q.lastActive.Some? then q.lastActive else p.lastActive,
      if q.visible.Some? then q.visible else p.visible)
  }

  /** An empty patch changes nothing, two updates in a row are one update with the composed
      patch, and repeating an update is harmless. */
  lemma MergeUserComposes(u: User, p: UserPatch, q: UserPatch)
    ensures MergeUser(u, NoUserChange) == u
    ensures MergeUser(MergeUser(u, p), q) == MergeUser(u, ComposeUserPatches(p, q))
    ensures MergeUser(MergeUser(u, p), p) == MergeUser(u, p)
  {
  }

  /** A patch that supplies every field replaces the user entirely. */
  lemma MergeFullPatch(u: User, v: User)
    ensures MergeUser(u, UserPatch(Some(v.id), Some(v.username), Some(v.imageUrl), Some(v.latitude),
                                   Some(v.longitude), Some(v.createdAt), Some(v.lastActive), Some(v.visible))) == v
  {
  }

  class UserContext {
    var user: Option<User>
    /** The `"user"` key of local storage. */
    var stored: Option<User>

    /** Whenever there is a user, storage holds that user. */
    ghost predicate Valid()
      reads this
    {
      user.Some? ==> stored == user
    }

    /** The provider starts with no user, whatever storage holds. */
    constructor (stored: Option<User>)
      ensures Valid() && user == None && this.stored == stored
    {
      user := None;
      this.stored := stored;
    }

    /** The mount effect: a stored user becomes the state, otherwise go to the sign-in page. */
    method LoadOnMount() returns (redirect: Option<string>)
      requires Valid()
      modifies this`user
      ensures Valid()
      ensures stored.Some? ==> user == stored && redirect == None
      ensures stored.None? ==> user == old(user) && redirect == Some(SignInRoute)
    {
      if stored.Some? {
        user := stored;
        redirect := None;
      } else {
        redirect := Some(SignInRoute);
      }
    }

    /** `setUser`: a user is stored, no user removes the key. */
    method SetUser(u: Option<User>)
      modifies this
      ensures Valid()
      ensures user == u && stored == u
    {
      user := u;
      stored := u;
    }

    /** `updateUser`: without a user nothing happens; otherwise the merged user is the state
        and is stored. */
    method UpdateUser(p: UserPatch)
      requires Valid()
      modifies this
      ensures Valid()
      ensures old(user).None? ==> user == None && stored == old(stored)
      ensures old(user).Some? ==> user == Some(MergeUser(old(user).value, p)) && stored == user
    {
      if user.Some? {
        var updated := MergeUser(user.value, p);
        stored := Some(updated);
        user := Some(updated);
      }
    }

    /** `toggleVisibility`: only `visible` flips, and the result is stored. */
    method ToggleVisibility()
      requires Valid()
      modifies this
      ensures Valid()
      ensures old(user).None? ==> user == None && stored == old(stored)
      ensures old(user).Some? ==> user == Some(ToggledVisibility(old(user).value)) && stored == user
    {
      if user.Some? {
        var updated := ToggledVisibility(user.value);
        stored := Some(updated);
        user := Some(updated);
      }
    }

    /** `removeUser` is `setUser(null)`. */
    method RemoveUser()
      modifies this
      ensures Valid()
      ensures user == None && stored == None
    {
      SetUser(None);
    }

    /** `isLoggedIn: !!user`. */
    function IsLoggedIn(): (r: bool)
      reads this
      ensures r <==> user.Some?
    {
      user.Some?
    }
  }
}
