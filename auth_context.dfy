/** The client's session: the signed-in user, whether the app treats the visitor as
    authenticated, whether the stored session is still being restored, and the two
    browser-storage entries that keep the session across reloads. JSON encoding and
    decoding of the user are parameters. */
module AuthContext {
  import opened JsValues
  import opened Server

  /** The browser's local storage: a missing key reads as null. */
  type Storage = map<string, string>

  const UserKey: string := "user"
  const UsernameKey: string := "username"

  /** `localStorage.getItem(key)` is truthy: present and not empty. */
  predicate Stored(storage: Storage, key: string)
  {
    key in storage && storage[key] != ""
  }

  /** The two session entries written at sign-in. */
  function SignedIn(storage: Storage, u: PublicUser, stringify: PublicUser -> string): (s: Storage)
    ensures s.Keys == storage.Keys + {UserKey, UsernameKey}
    ensures s[UserKey] == stringify(u) && s[UsernameKey] == u.username
  {
    storage[UserKey := stringify(u)][UsernameKey := u.username]
  }

  /** Both session entries removed, everything else kept. */
  function SignedOut(storage: Storage): (s: Storage)
    ensures UserKey !in s && UsernameKey !in s
    ensures forall k :: k in storage && k != UserKey && k != UsernameKey ==> k in s && s[k] == storage[k]
    ensures forall k :: k in s ==> k in storage
  {
    storage - {UserKey, UsernameKey}
  }

  /** The session as the app sees it. */
  datatype SessionState = SessionState(user: Option<PublicUser>, isAuthenticated: bool, storage: Storage)

  /** What `JSON.parse` makes of the stored user entry: a syntax error, a JSON value that is
      not a user object (`null`, a number, a string), or a user. */
  datatype Decoded = Malformed | OtherValue | UserObject(u: PublicUser)

  /** The user the session holds for a decoded entry: a value that is not a user object has
      no fields to read, like a missing user. */
  function UserOf(d: Decoded): Option<PublicUser>
  {
    if d.UserObject? then Some(d.u) else None
  }

  /** The mount check from a fresh session: when both entries are there, the session is
      authenticated with whatever the user entry decodes to; when it does not decode, both
      entries are forgotten. */
  function Restored(storage: Storage, parse: string -> Decoded): (st: SessionState)
    ensures st.user.Some? ==> st.isAuthenticated
    ensures st.isAuthenticated <==>
              (Stored(storage, UserKey) && Stored(storage, UsernameKey) && !parse(storage[UserKey]).Malformed?)
    ensures st.isAuthenticated ==> st.user == UserOf(parse(storage[UserKey])) && st.storage == storage
    ensures !st.isAuthenticated ==> st.user.None?
    ensures !st.isAuthenticated && Stored(storage, UserKey) && Stored(storage, UsernameKey) ==>
              st.storage == SignedOut(storage)
    ensures !(Stored(storage, UserKey) && Stored(storage, UsernameKey)) ==> st.storage == storage
  {
    if Stored(storage, UserKey) && Stored(storage, UsernameKey) then
      match parse(storage[UserKey])
      case Malformed => SessionState(None, false, SignedOut(storage))
      case OtherValue => SessionState(None, true, storage)
      case UserObject(u) => SessionState(Some(u), true, storage)
    else SessionState(None, false, storage)
  }

  /** `useAuth()`: the context, or the error thrown outside the provider. */
  function UseAuth<C>(context: Option<C>): (r: Result<C, string>)
    ensures r.Ok? <==> context.Some?
    ensures r.Ok? ==> r.value == context.value
  {
    if context.Some? then Ok(context.value) else Err("useAuth must be used within AuthProvider")
  }

  class AuthSession {
    var user: Option<PublicUser>
    var isAuthenticated: bool
    var loading: bool
    var storage: Storage

    /** A user only in an authenticated session, which has both entries stored. */
    ghost predicate Valid()
      reads this
    {
      (user.Some? ==> isAuthenticated)
      && (isAuthenticated ==> UserKey in storage && UsernameKey in storage)
    }

    /** The provider's initial state, over whatever the browser has stored. */
    constructor(stored: Storage)
      ensures Valid()
      ensures user.None? && !isAuthenticated && loading && storage == stored
    {
      user := None;
      isAuthenticated := false;
      loading := true;
      storage := stored;
    }

    /** The mount effect; afterwards `loading` is false on every path. */
    method Mount(parse: string -> Decoded)
      requires user.None? && !isAuthenticated
      modifies this
      ensures Valid()
      ensures SessionState(user, isAuthenticated, storage) == Restored(old(storage), parse)
      ensures !loading
    {
      if Stored(storage, UserKey) && Stored(storage, UsernameKey) {
        var parsed := parse(storage[UserKey]);
        if parsed.Malformed? {
          storage := storage - {UserKey};
          storage := storage - {UsernameKey};
          assert storage == SignedOut(old(storage));
        } else {
          user := UserOf(parsed);
          isAuthenticated := true;
        }
      }
      loading := false;
    }

    /** `login(userData)` */
    method Login(u: PublicUser, stringify: PublicUser -> string)
      modifies this
      ensures Valid()
      ensures user == Some(u) && isAuthenticated
      ensures storage == SignedIn(old(storage), u, stringify)
      ensures loading == old(loading)
    {
      user := Some(u);
      isAuthenticated := true;
      storage := storage[UserKey := stringify(u)];
      storage := storage[UsernameKey := u.username];
    }

    /** `logout()` */
    method Logout()
      modifies this
      ensures Valid()
      ensures user.None? && !isAuthenticated
      ensures storage == SignedOut(old(storage))
      ensures loading == old(loading)
    {
      user := None;
      isAuthenticated := false;
      storage := storage - {UserKey};
      storage := storage - {UsernameKey};
      assert storage == SignedOut(old(storage));
    }
  }

  // ---------------------------------------------------------------------------
  // Reloads

  /** A reload after signing in restores the same user, provided the JSON encoding reads
      back and the username is not empty. */
  lemma ReloadAfterLogin(storage: Storage, u: PublicUser, stringify: PublicUser -> string,
                         parse: string -> Decoded)
    requires parse(stringify(u)) == UserObject(u) && stringify(u) != "" && u.username != ""
    ensures Restored(SignedIn(storage, u, stringify), parse)
            == SessionState(Some(u), true, SignedIn(storage, u, stringify))
  {
  }

  /** A reload after signing out starts unauthenticated, with storage as logout left it. */
  lemma ReloadAfterLogout(storage: Storage, parse: string -> Decoded)
    ensures Restored(SignedOut(storage), parse) == SessionState(None, false, SignedOut(storage))
  {
  }

  /** A user with an empty username is not restored: the username entry is falsy. */
  lemma EmptyUsernameNotRestored(storage: Storage, u: PublicUser, stringify: PublicUser -> string,
                                 parse: string -> Decoded)
    requires u.username == ""
    ensures !Restored(SignedIn(storage, u, stringify), parse).isAuthenticated
  {
  }

  /** A user entry that is valid JSON but no user object, such as "null", still signs the
      visitor in, with no user, and keeps both entries. */
  lemma NonUserEntryAuthenticates(storage: Storage, parse: string -> Decoded)
    requires Stored(storage, UserKey) && Stored(storage, UsernameKey)
    requires parse(storage[UserKey]) == OtherValue
    ensures Restored(storage, parse) == SessionState(None, true, storage)
  {
  }
}
