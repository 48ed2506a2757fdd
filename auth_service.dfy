/**
 * Mock authentication: a credential match against a fixed user list, a drivers-only role
 * check, and a session (token and user) kept in the device's key-value storage.
 */
module Auth {
  import opened Wrappers
  import opened DeliveryTypes

  /** Storage keys of the session. */
  const TokenKey := "@farmaprisa_auth_token"
  const UserKey := "@farmaprisa_user"

  const InvalidCredentialsMessage := "Credenciales inválidas"
  const DriversOnlyMessage := "Solo los conductores pueden acceder a esta aplicación"

  /** A mock user record: a `User` plus its password. */
  datatype MockUser = MockUser(id: string, email: string, password: string, name: string, role: Role, phone: Option<string>)

  /** The development users: one driver and one administrator. */
  const MockUsers: seq<MockUser> := [
    MockUser("1", "driver@farmaprisa.com", "driver123", "Juan Pérez", Driver, Some("+1 809-555-0101")),
    MockUser("2", "admin@farmaprisa.com", "admin123", "María García", Admin, Some("+1 809-555-0102"))
  ]

  datatype Credentials = Credentials(email: string, password: string)

  datatype LoginResponse = LoginResponse(token: string, user: User)

  /** A stored value: a plain string, or a user record as its JSON text. */
  datatype Stored = Text(text: string) | UserJson(user: User)

  type Storage = map<string, Stored>

  /** Email and password both exactly equal (no trimming, case-sensitive). */
  predicate Matches(u: MockUser, credentials: Credentials)
  {
    u.email == credentials.email && u.password == credentials.password
  }

  /** `find`: the position of the first user matching the credentials, if any. */
  function FirstMatch(users: seq<MockUser>, credentials: Credentials): (k: Option<nat>)
    ensures k.None? <==> forall i :: 0 <= i < |users| ==> !Matches(users[i], credentials)
    ensures k.Some? ==> k.value < |users| && Matches(users[k.value], credentials)
    ensures k.Some? ==> forall i :: 0 <= i < k.value ==> !Matches(users[i], credentials)
  {
    if users == [] then None
    else if Matches(users[0], credentials) then Some(0)
    else match FirstMatch(users[1..], credentials)
      case None => None
      case Some(k) => Some(k + 1)
  }

  /** The record with its password field removed. */
  function WithoutPassword(u: MockUser): User
  {
    User(u.id, u.email, u.name, u.role, u.phone)
  }

  /**
   * The checks of `login` in their order: credentials first, then the role. On success, the
   * matched record without its password.
   */
  function Authenticate(users: seq<MockUser>, credentials: Credentials): (r: Result<User>)
    ensures r == Failure(InvalidCredentialsMessage) <==> forall i :: 0 <= i < |users| ==> !Matches(users[i], credentials)
    ensures r.Success? <==>
              exists i :: 0 <= i < |users| && Matches(users[i], credentials)
                && (forall j :: 0 <= j < i ==> !Matches(users[j], credentials))
                && users[i].role == Driver
    ensures r.Success? ==>
              exists i :: 0 <= i < |users| && r.value == WithoutPassword(users[i])
                && Matches(users[i], credentials) && users[i].role == Driver
                && (forall j :: 0 <= j < i ==> !Matches(users[j], credentials))
    ensures r.Failure? ==> r.message in {InvalidCredentialsMessage, DriversOnlyMessage}
  {
    match FirstMatch(users, credentials)
    case None => Failure(InvalidCredentialsMessage)
    case Some(k) =>
      if users[k].role != Driver then Failure(DriversOnlyMessage)
      else Success(WithoutPassword(users[k]))
  }

  /** The driver logs in with their own credentials. */
  lemma DriverCanLogIn()
    ensures Authenticate(MockUsers, Credentials("driver@farmaprisa.com", "driver123"))
      == Success(User("1", "driver@farmaprisa.com", "Juan Pérez", Driver, Some("+1 809-555-0101")))
  {
    assert Matches(MockUsers[0], Credentials("driver@farmaprisa.com", "driver123"));
  }

  /** The administrator's correct credentials are refused by the role check. */
  lemma AdminIsRefused()
    ensures Authenticate(MockUsers, Credentials("admin@farmaprisa.com", "admin123")) == Failure(DriversOnlyMessage)
  {
    var c := Credentials("admin@farmaprisa.com", "admin123");
    assert !Matches(MockUsers[0], c);
    assert Matches(MockUsers[1], c);
    assert FirstMatch(MockUsers, c) == Some(1);
  }

  /** A wrong password is reported as bad credentials even for a non-driver: credentials are checked first. */
  lemma WrongPasswordBeforeRole(password: string)
    requires password != "admin123"
    ensures Authenticate(MockUsers, Credentials("admin@farmaprisa.com", password)) == Failure(InvalidCredentialsMessage)
  {
    var c := Credentials("admin@farmaprisa.com", password);
    assert !Matches(MockUsers[0], c);
    assert !Matches(MockUsers[1], c);
  }

  /** The token issued to a user at a given time (`Date.now()` rendered as text). */
  function MockToken(userId: string, now: string): (token: string)
    ensures token != ""
  {
    "mock_token_" + userId + "_" + now
  }

  /** The storage after a successful login: token and user written, every other key kept. */
  function StoreSession(s: Storage, token: string, user: User): (r: Storage)
    ensures r.Keys == s.Keys + {TokenKey, UserKey}
    ensures r[TokenKey] == Text(token) && r[UserKey] == UserJson(user)
    ensures forall key :: key in s && key != TokenKey && key != UserKey ==> r[key] == s[key]
  {
    s[TokenKey := Text(token)][UserKey := UserJson(user)]
  }

  /** The storage after logout: both session keys removed, every other key kept. */
  function ClearSession(s: Storage): (r: Storage)
    ensures r.Keys == s.Keys - {TokenKey, UserKey}
    ensures forall key :: key in r ==> r[key] == s[key]
  {
    s - {TokenKey, UserKey}
  }

  /** `!!getItem(TOKEN_KEY)`: a token is stored and is not the empty string. */
  predicate HasToken(s: Storage)
  {
    TokenKey in s && s[TokenKey] != Text("")
  }

  /** `getUser`: the stored user, if the user entry holds one. */
  function StoredUser(s: Storage): (u: Option<User>)
    ensures u.Some? ==> UserKey in s && s[UserKey] == UserJson(u.value)
    ensures UserKey in s && s[UserKey].UserJson? ==> u == Some(s[UserKey].user)
  {
    if UserKey in s && s[UserKey].UserJson? then Some(s[UserKey].user) else None
  }

  /** `user?.role === requiredRole`: a stored user exists and its role's name is the one required. */
  predicate HasRole(s: Storage, requiredRole: string)
  {
    StoredUser(s).Some? && RoleName(StoredUser(s).value.role) == requiredRole
  }

  /** Asking for the role a given role is stored as validates exactly users of that role. */
  lemma HasRoleIffStoredRole(s: Storage, role: Role)
    ensures HasRole(s, RoleName(role)) <==> StoredUser(s).Some? && StoredUser(s).value.role == role
  {
    if StoredUser(s).Some? {
      RoleNameInjective(StoredUser(s).value.role, role);
    }
  }

  /** After a login the session is authenticated and holds exactly the logged-in user's role. */
  lemma SessionAfterLogin(s: Storage, token: string, user: User, requiredRole: string)
    requires token != ""
    ensures HasToken(StoreSession(s, token, user))
    ensures StoredUser(StoreSession(s, token, user)) == Some(user)
    ensures HasRole(StoreSession(s, token, user), requiredRole) <==> RoleName(user.role) == requiredRole
  {
    assert TokenKey != UserKey;
  }

  /** After a logout there is no session: not authenticated, and no role validates. */
  lemma NoSessionAfterLogout(s: Storage, requiredRole: string)
    ensures !HasToken(ClearSession(s))
    ensures !HasRole(ClearSession(s), requiredRole)
  {
  }

  /** What `login` returns: the first failing check's message, or the token and the user. */
  function LoginOutcome(credentials: Credentials, now: string): Result<LoginResponse>
  {
    match Authenticate(MockUsers, credentials)
    case Failure(message) => Failure(message)
    case Success(user) => Success(LoginResponse(MockToken(user.id, now), user))
  }

  /** The storage `login` leaves behind: unchanged after a failed check, the new session otherwise. */
  function StorageAfterLogin(s: Storage, credentials: Credentials, now: string): Storage
  {
    match Authenticate(MockUsers, credentials)
    case Failure(_) => s
    case Success(user) => StoreSession(s, MockToken(user.id, now), user)
  }

  /**
   * A failed login writes nothing; a successful one leaves an authenticated session holding the
   * returned token and user, and the user is a driver.
   */
  lemma LoginStoresOnlyOnSuccess(s: Storage, credentials: Credentials, now: string)
    ensures LoginOutcome(credentials, now).Failure? ==> StorageAfterLogin(s, credentials, now) == s
    ensures LoginOutcome(credentials, now).Success? ==>
              var response := LoginOutcome(credentials, now).value;
              var after := StorageAfterLogin(s, credentials, now);
              && response.user.role == Driver
              && HasToken(after)
              && after[TokenKey] == Text(response.token)
              && StoredUser(after) == Some(response.user)
              && HasRole(after, "driver")
  {
    if LoginOutcome(credentials, now).Success? {
      var response := LoginOutcome(credentials, now).value;
      SessionAfterLogin(s, response.token, response.user, "driver");
    }
  }

  /** The authentication service over the device's key-value storage. */
  class AuthService {
    var storage: Storage

    constructor (initial: Storage)
      ensures storage == initial
    {
      storage := initial;
    }

    /**
     * `login`: reject bad credentials, then non-drivers, writing nothing; otherwise store the
     * token and the password-free user and return both. `now` stands for `Date.now()`.
     */
    method Login(credentials: Credentials, now: string) returns (result: Result<LoginResponse>)
      modifies this
      ensures result == LoginOutcome(credentials, now)
      ensures storage == StorageAfterLogin(old(storage), credentials, now)
    {
      var checked := Authenticate(MockUsers, credentials);
      if checked.Failure? {
        result := Failure(checked.message);
        return;
      }
      var user := checked.value;
      var token := MockToken(user.id, now);
      storage := StoreSession(storage, token, user);
      result := Success(LoginResponse(token, user));
    }

    /** `logout`: remove both session keys. */
    method Logout()
      modifies this
      ensures storage == ClearSession(old(storage))
    {
      storage := ClearSession(storage);
    }

    /** `isAuthenticated`: a non-empty token is stored. */
    method IsAuthenticated() returns (authenticated: bool)
      ensures authenticated <==> TokenKey in storage && storage[TokenKey] != Text("")
    {
      authenticated := HasToken(storage);
    }

    /** `validateRole`: a user is stored and has the required role. */
    method ValidateRole(requiredRole: string) returns (valid: bool)
      ensures valid <==> UserKey in storage && storage[UserKey].UserJson?
                         && RoleName(storage[UserKey].user.role) == requiredRole
    {
      valid := HasRole(storage, requiredRole);
    }
  }
}
