/**
 * The user registry: registration refuses taken usernames, login matches a
 * stored username and password and writes them into the session, logout
 * clears it. Passwords are stored and compared as given.
 */
module Login {
  import opened Wrappers
  import opened Tables
  import opened Web

  datatype User = User(username: string, passwordHash: string, role: string)
  datatype LoginForm = LoginForm(username: string, password: string)
  datatype RegisterForm = RegisterForm(username: string, password: string, role: string)

  const AdminDashboard := Redirect("Home", "AdminDashboard")
  const CustomerDashboard := Redirect("Home", "CustomerDashboard")

  predicate Matches(u: User, form: LoginForm) {
    u.username == form.username && u.passwordHash == form.password
  }

  /** No two users share a username. */
  predicate UniqueUsernames(users: seq<User>) {
    forall i, j :: 0 <= i < |users| && 0 <= j < |users| && users[i].username == users[j].username ==> i == j
  }

  /** Index (POST): log in as the first user with that username and password. */
  function SignIn(users: seq<User>, session: Session, form: LoginForm, valid: bool): (r: Step<Session>)
    ensures !valid ==> r == Step(Page, session)
    ensures valid ==> (r.response.Redirect? <==> exists i :: 0 <= i < |users| && Matches(users[i], form))
    ensures valid && (forall i :: 0 <= i < |users| ==> !Matches(users[i], form)) ==>
      r == Step(FormError("Invalid username or password"), session)
    ensures r.response.Redirect? ==>
      && valid
      && r.state.username == Some(form.username)
      && r.state.role.Some?
      && (exists i :: 0 <= i < |users| && users[i] == User(form.username, form.password, r.state.role.value))
      && (r.response == AdminDashboard <==> r.state.role == Some("Admin"))
      && (r.response != AdminDashboard ==> r.response == CustomerDashboard)
    ensures !r.response.Redirect? ==> r.state == session
  {
    if !valid then Step(Page, session)
    else
      match FirstOrDefault(users, (u: User) => Matches(u, form))
      case None => Step(FormError("Invalid username or password"), session)
      case Some(user) =>
        var signedIn := Session(Some(user.username), Some(user.role));
        Step(if user.role == "Admin" then AdminDashboard else CustomerDashboard, signedIn)
  }

  /** Register (POST): a new user, unless the username is taken. */
  function Register(users: seq<User>, form: RegisterForm, valid: bool): (r: Step<seq<User>>)
    ensures !valid ==> r == Step(Page, users)
    ensures valid && (exists i :: 0 <= i < |users| && users[i].username == form.username) ==>
      r == Step(FormError("Username already exists"), users)
    ensures r.response != LoginPage ==> r.state == users
    ensures r.response == LoginPage <==> valid && forall i :: 0 <= i < |users| ==> users[i].username != form.username
    ensures r.response == LoginPage ==>
      multiset(r.state) == multiset(users) + multiset{User(form.username, form.password, form.role)}
  {
    if !valid then Step(Page, users)
    else if exists i :: 0 <= i < |users| && users[i].username == form.username then
      Step(FormError("Username already exists"), users)
    else Step(LoginPage, users + [User(form.username, form.password, form.role)])
  }

  /** Logout: the whole session is cleared. */
  function Logout(session: Session): (r: Step<Session>)
    ensures r.state.username.None? && r.state.role.None?
    ensures !SignedIn(r.state) && !IsAdmin(r.state)
    ensures r.response == LoginPage
  {
    Step(LoginPage, Anonymous)
  }

  /** Registration keeps usernames unique. */
  lemma RegisterKeepsUnique(users: seq<User>, form: RegisterForm, valid: bool)
    requires UniqueUsernames(users)
    ensures UniqueUsernames(Register(users, form, valid).state)
  {
  }

  /** A user who has just registered can log in with the same credentials and gets the registered role. */
  lemma RegisterThenSignIn(users: seq<User>, form: RegisterForm, session: Session)
    requires Register(users, form, true).response == LoginPage
    ensures var r := SignIn(Register(users, form, true).state, session, LoginForm(form.username, form.password), true);
      r.state == Session(Some(form.username), Some(form.role))
  {
    var us := Register(users, form, true).state;
    var creds := LoginForm(form.username, form.password);
    assert us == users + [User(form.username, form.password, form.role)];
    assert Matches(us[|users|], creds);
    assert forall i :: 0 <= i < |users| ==> us[i] == users[i] && !Matches(us[i], creds);
  }
}
