/**
 * The AuthProvider of src/context/AuthContext.jsx: the logged-in user shared by
 * every page, and the `currentUserEmail` entry of the browser's localStorage
 * that lets a reload log the same user back in. User lookups go to the API
 * handlers of the Server module.
 */
module AuthContext {
  import opened Js
  import opened Entities
  import opened Server

  const InvalidCredentials := "Invalid email or password"

  /** What `login` resolves to: `{ success: true }` or `{ success: false, error }`. */
  datatype LoginResult = Succeeded | Failed(error: string)

  /** `user.password === password`: a user without a password matches no text. */
  predicate PasswordMatches(user: UserRecord, password: string) {
    "password" in user && user["password"] == password
  }

  /**
   * The user a login with `email` and `password` lets in: the first user with that
   * email, provided its stored password equals `password`. Only that first user
   * is compared, exactly as `findUserByEmail` returns only it.
   */
  function Authenticate(users: seq<UserRecord>, email: string, password: string): (user: Option<UserRecord>)
    ensures user.Some? ==> user.value in users && HasEmail(user.value, email) && PasswordMatches(user.value, password)
    ensures user.Some? ==> FindUserIndex(users, email).Some? && user.value == users[FindUserIndex(users, email).value]
    ensures user.None? <==>
      (forall j | 0 <= j < |users| :: !HasEmail(users[j], email))
      || !PasswordMatches(users[FindUserIndex(users, email).value], password)
  {
    var found := FindUser(users, email);
    if found.Some? && PasswordMatches(found.value, password) then found else None
  }

  class AuthProvider {
    /** The `currentUser` state: None for `null`. */
    var currentUser: Option<UserRecord>
    /** The `loading` state: true until the remembered user has been looked up. */
    var loading: bool
    /** localStorage's `currentUserEmail`: None while the key is absent. */
    var rememberedEmail: Option<string>

    /** The provider as first rendered: nobody logged in, still loading. */
    constructor(remembered: Option<string>)
      ensures currentUser.None? && loading && rememberedEmail == remembered
    {
      currentUser := None;
      loading := true;
      rememberedEmail := remembered;
    }

    /** `isAuthenticated: !!currentUser`. */
    predicate IsAuthenticated()
      reads this
    {
      currentUser.Some?
    }

    /**
     * The mount effect `loadUser`: a non-empty remembered email is looked up and,
     * when found, becomes the current user; loading ends either way.
     */
    method LoadUser(store: DataStore)
      modifies this, store
      ensures !loading && rememberedEmail == old(rememberedEmail)
      ensures store.Current() == old(store.Current())
      ensures match old(rememberedEmail)
        case Some(e) =>
          var found := FindUser(old(store.Current()).users, e);
          currentUser == if e != "" && found.Some? then found else old(currentUser)
        case None => currentUser == old(currentUser)
    {
      if rememberedEmail.Some? && rememberedEmail.value != "" {
        var user := store.GetUser(rememberedEmail.value);
        if user.Some? {
          currentUser := user;
        }
      }
      loading := false;
    }

    /**
     * `login(email, password)`: succeeds exactly when a user with that email exists
     * and its stored password equals `password`. Success logs that user in and
     * remembers the email; every failure gives the same message and changes nothing.
     */
    method Login(store: DataStore, email: string, password: string) returns (result: LoginResult)
      modifies this, store
      ensures store.Current() == old(store.Current())
      ensures result.Succeeded? <==> Authenticate(old(store.Current()).users, email, password).Some?
      ensures result.Succeeded? ==>
        currentUser == Authenticate(old(store.Current()).users, email, password) && rememberedEmail == Some(email) && IsAuthenticated()
      ensures result.Failed? ==>
        result.error == InvalidCredentials && unchanged(this)
      ensures loading == old(loading)
    {
      var user := store.GetUser(email);
      if user.Some? && PasswordMatches(user.value, password) {
        currentUser := user;
        rememberedEmail := Some(email);
        return Succeeded;
      }
      return Failed(InvalidCredentials);
    }

    /** `logout`: nobody is logged in and the remembered email is removed. */
    method Logout()
      modifies this
      ensures currentUser.None? && rememberedEmail.None? && !IsAuthenticated()
      ensures loading == old(loading)
    {
      currentUser := None;
      rememberedEmail := None;
    }

    /**
     * `updateCurrentUser(updatedData)`: `{ ...prev, ...updatedData }`; spreading a
     * `null` user contributes no fields.
     */
    method UpdateCurrentUser(updatedData: Record)
      modifies this
      ensures currentUser == Some(old(currentUser).GetOr(map[]) + updatedData)
      ensures currentUser.value.Keys == old(currentUser).GetOr(map[]).Keys + updatedData.Keys
      ensures forall key | key in updatedData :: currentUser.value[key] == updatedData[key]
      ensures old(currentUser).Some? ==>
        forall key | key in old(currentUser).value && key !in updatedData ::
          currentUser.value[key] == old(currentUser).value[key]
      ensures loading == old(loading) && rememberedEmail == old(rememberedEmail)
    {
      currentUser := Some(currentUser.GetOr(map[]) + updatedData);
    }

    /**
     * `refreshCurrentUser`: looks the current user's email up again and takes the
     * stored record when one is found; with nobody logged in it does nothing.
     * A user without an email is looked up under the text "undefined".
     */
    method RefreshCurrentUser(store: DataStore)
      modifies this, store
      ensures old(currentUser).None? ==> currentUser.None? && unchanged(store)
      ensures store.Current() == old(store.Current())
      ensures old(currentUser).Some? ==>
        var found := FindUser(old(store.Current()).users, AsText(old(currentUser).value, "email"));
        currentUser == if found.Some? then found else old(currentUser)
      ensures loading == old(loading) && rememberedEmail == old(rememberedEmail)
    {
      if currentUser.Some? {
        var updatedUser := store.GetUser(AsText(currentUser.value, "email"));
        if updatedUser.Some? {
          currentUser := updatedUser;
        }
      }
    }
  }
}
