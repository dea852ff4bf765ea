/**
 * The part of the signed session cookie the handlers use: who is logged in
 * and the chosen colour theme, and how login, logout and the theme switch
 * change them.
 */
module Sessions {
  import opened Wrappers
  import opened Schema

  /** `session["user"]` and `session["theme"]`; None is a key the session does not hold. */
  datatype Session = Session(user: Option<string>, theme: Option<string>)

  const Light := "light"
  const Dark := "dark"

  /** `require_login()`: the session names a user. */
  predicate LoggedIn(s: Session) {
    s.user.Some?
  }

  /** `session.get("theme", "light")`. */
  function ThemeOf(s: Session): string {
    s.theme.GetOr(Light)
  }

  /**
   * Whether `users` (username to stored password hash) accepts the
   * credentials; `verify(hash, password)` stands for werkzeug's
   * `check_password_hash`.
   */
  predicate Accepted(users: map<string, string>, verify: (string, string) -> bool, name: string, password: string) {
    name in users && verify(users[name], password)
  }

  /** The session after a login attempt, and whether the handler accepted it. */
  datatype LoginResult = LoginResult(session: Session, ok: bool)

  /**
   * `login` on a POST: the stripped username and the password as sent are
   * checked; on success the user is recorded and the theme is kept, or set to
   * "light" when the session has none; on failure the session is unchanged.
   */
  function Login(s: Session, users: map<string, string>, verify: (string, string) -> bool,
                 username: Option<string>, password: Option<string>): (r: LoginResult)
    ensures r.ok <==> Accepted(users, verify, StrippedField(username), Field(password, ""))
    ensures r.ok ==> r.session.user == Some(StrippedField(username)) && r.session.theme == Some(ThemeOf(s))
    ensures !r.ok ==> r.session == s
  {
    var name := StrippedField(username);
    if name in users && verify(users[name], Field(password, "")) then
      LoginResult(Session(Some(name), Some(if s.theme.Some? then s.theme.value else Light)), true)
    else
      LoginResult(s, false)
  }

  /** `logout`: `session.clear()`. */
  function Logout(s: Session): (r: Session)
    ensures !LoggedIn(r) && r.theme.None?
  {
    Session(None, None)
  }

  /**
   * `theme_toggle`: a logged-in session switches from "light" to "dark" and
   * from anything else to "light"; a session without a user is redirected and
   * left as it was.
   */
  function ThemeToggle(s: Session): (r: Session)
    ensures !LoggedIn(s) ==> r == s
    ensures LoggedIn(s) ==> r.user == s.user && r.theme.Some?
    ensures LoggedIn(s) ==> (ThemeOf(r) == Dark <==> ThemeOf(s) == Light)
    ensures LoggedIn(s) ==> ThemeOf(r) == Light || ThemeOf(r) == Dark
  {
    if !LoggedIn(s) then s
    else s.(theme := Some(if ThemeOf(s) == Light then Dark else Light))
  }

  /** A login keeps the theme the visitor already had. */
  lemma LoginKeepsTheme(s: Session, users: map<string, string>, verify: (string, string) -> bool,
                        username: Option<string>, password: Option<string>)
    ensures ThemeOf(Login(s, users, verify, username, password).session) == ThemeOf(s)
  {
  }

  /** After a logout the theme switch does nothing, and a new login starts with the light theme. */
  lemma LogoutForgetsTheme(s: Session, users: map<string, string>, verify: (string, string) -> bool,
                           username: Option<string>, password: Option<string>)
    ensures ThemeToggle(Logout(s)) == Logout(s)
    ensures ThemeOf(Login(Logout(s), users, verify, username, password).session) == Light
  {
  }

  /** Switching twice restores a stored "light" or "dark" theme and the whole session. */
  lemma ThemeToggleTwice(s: Session)
    requires LoggedIn(s) && s.theme.Some? && (s.theme.value == Light || s.theme.value == Dark)
    ensures ThemeToggle(ThemeToggle(s)) == s
  {
  }
}
