/** The credential store: a username -> password-hash map, with login checking and
    registration. The digest is a parameter `hash`; nothing is assumed of it, not
    even that different passwords hash differently. */
module Credentials {

  type Users = map<string, string>

  const UsernameTaken := "Username already exists"
  const Registered := "Registration successful"

  /** A login succeeds when the user is known and the stored hash is the password's hash. */
  function VerifyLogin(users: Users, hash: string -> string, username: string, password: string): (ok: bool)
    ensures ok ==> username in users
    ensures username in users ==> (ok <==> users[username] == hash(password))
  {
    if username in users then users[username] == hash(password) else false
  }

  /** The outcome of a registration: success flag, message, and the store afterwards. */
  datatype Registration = Registration(ok: bool, message: string, users: Users)

  /** Registers a new user; an existing username is refused and the store left as is.
      The e-mail address is accepted but not stored. */
  function Register(users: Users, hash: string -> string, username: string, password: string, email: string): (r: Registration)
    ensures r.ok <==> username !in users
    ensures r.ok ==> r.message == Registered && r.users.Keys == users.Keys + {username} && r.users[username] == hash(password)
    ensures !r.ok ==> r.message == UsernameTaken && r.users == users
    ensures forall u | u in users :: u in r.users && r.users[u] == users[u]
  {
    if username in users then Registration(false, UsernameTaken, users)
    else Registration(true, Registered, users[username := hash(password)])
  }

  /** Right after a successful registration the new user can log in with that password. */
  lemma RegisterThenLogin(users: Users, hash: string -> string, username: string, password: string, email: string)
    requires username !in users
    ensures Register(users, hash, username, password, email).ok
    ensures VerifyLogin(Register(users, hash, username, password, email).users, hash, username, password)
  {
  }

  /** Registration never changes whether anybody else can log in. */
  lemma RegisterPreservesOtherLogins(users: Users, hash: string -> string, username: string, password: string, email: string, u: string, p: string)
    requires u != username
    ensures VerifyLogin(Register(users, hash, username, password, email).users, hash, u, p) == VerifyLogin(users, hash, u, p)
  {
  }

  /** The e-mail address has no effect on the store or the outcome. */
  lemma RegisterIgnoresEmail(users: Users, hash: string -> string, username: string, password: string, e1: string, e2: string)
    ensures Register(users, hash, username, password, e1) == Register(users, hash, username, password, e2)
  {
  }

  /** Login checks only the digest: any password with the same hash is accepted. */
  lemma LoginDependsOnHashOnly(users: Users, hash: string -> string, username: string, p: string, q: string)
    requires hash(p) == hash(q)
    ensures VerifyLogin(users, hash, username, p) == VerifyLogin(users, hash, username, q)
  {
  }

  /** What the login form shows. */
  datatype LoginResult = MissingField | Invalid | LoggedIn(username: string)

  /** The login form: both fields must be filled in, then the credentials are checked;
      a success records the username for the session. */
  function LoginForm(users: Users, hash: string -> string, username: string, password: string): (r: LoginResult)
    ensures r.MissingField? <==> |username| == 0 || |password| == 0
    ensures r.LoggedIn? <==> |username| > 0 && |password| > 0 && username in users && users[username] == hash(password)
    ensures r.LoggedIn? ==> r.username == username
  {
    if |username| == 0 || |password| == 0 then MissingField
    else if VerifyLogin(users, hash, username, password) then LoggedIn(username)
    else Invalid
  }

  /** What the sign-up form shows. */
  datatype SignUpResult = NoAction | Mismatch | TooShort | Outcome(registration: Registration)

  const MinPasswordLength := 6

  /** The sign-up form: all four fields must be filled in, the two passwords must agree
      and be at least six characters long; only then is the user registered. */
  function SignUp(users: Users, hash: string -> string, username: string, email: string, password: string, confirm: string): (r: SignUpResult)
    ensures r.Outcome? <==> |username| > 0 && |email| > 0 && |confirm| > 0 && password == confirm && |password| >= MinPasswordLength
    ensures r.Outcome? ==> r.registration == Register(users, hash, username, password, email)
    ensures r.Outcome? && r.registration.ok ==> VerifyLogin(r.registration.users, hash, username, password)
    ensures r.Mismatch? <==> |username| > 0 && |email| > 0 && |password| > 0 && |confirm| > 0 && password != confirm
    ensures r.TooShort? <==>
      |username| > 0 && |email| > 0 && |password| > 0 && |confirm| > 0 && password == confirm && |password| < MinPasswordLength
    ensures r.NoAction? <==> |username| == 0 || |email| == 0 || |password| == 0 || |confirm| == 0
  {
    if |username| == 0 || |email| == 0 || |password| == 0 || |confirm| == 0 then NoAction
    else if password != confirm then Mismatch
    else if |password| < MinPasswordLength then TooShort
    else Outcome(Register(users, hash, username, password, email))
  }
}
