/** Sessions and roles. The admin allow-list comes from the `ADMIN_EMAILS`
    environment variable (passed in here as a value), and a new user's role is
    decided once, in the hook that runs before the user row is created. */
module Auth {
  import opened Common

  const ADMIN := "ADMIN"
  const USER := "USER"

  datatype SessionUser = SessionUser(id: string, email: string, name: string, role: string)

  /** A session as the session provider returns it; `token` and `expiresAt`
      stand for the fields that only the provider reads. */
  datatype Session = Session(user: SessionUser, token: string, expiresAt: int)

  /** `checkAdmin()` / `requireAdmin()`: a session exists and its role is
      literally `'ADMIN'`. */
  predicate IsAdmin(session: Option<Session>) {
    session.Some? && session.value.user.role == ADMIN
  }

  /** `(process.env.ADMIN_EMAILS || '').split(',').filter(Boolean)`: the
      comma-separated entries, empty ones dropped, none of them trimmed. */
  function AllowList(env: Option<string>): (r: seq<string>)
    ensures forall i :: 0 <= i < |r| ==> r[i] != "" && ',' !in r[i]
    ensures forall e :: e in r <==> e != "" && e in Split(Or(env, ""), ',')
  {
    var pieces := Split(Or(env, ""), ',');
    var r := NonEmpty(pieces);
    assert forall i :: 0 <= i < |r| ==> r[i] in pieces;
    r
  }

  /** An unset or empty variable gives an empty allow-list. */
  lemma AllowListUnset(env: Option<string>)
    requires !Truthy(env)
    ensures AllowList(env) == []
  {
    assert Split("", ',') == [""];
  }

  /** An email is allowed exactly when it is, character for character, one
      of the non-empty comma-separated entries: `"a@x.io, b@y.io"` admits
      `" b@y.io"` and not `"b@y.io"`. */
  lemma AllowListEntries(a: string, b: string)
    requires a != "" && ',' !in a && ',' !in b
    ensures AllowList(Some(a + "," + b)) == NonEmpty([a, b])
    ensures a in AllowList(Some(a + "," + b))
  {
    assert Join([a, b], ',') == a + "," + b;
    SplitJoin([a, b], ',');
  }

  /** The user data handed to the creation hook. */
  datatype NewUser = NewUser(
    email: string,
    name: string,
    image: Option<string>,
    emailVerified: bool,
    role: Option<string>)

  /** The `role` additional field: not required, default `'USER'`. */
  function WithDefaultRole(u: NewUser): (r: NewUser)
    ensures r.role.Some?
    ensures u.role.None? ==> r.role == Some(USER)
    ensures u.role.Some? ==> r == u
    ensures r.(role := u.role) == u
  {
    if u.role.None? then u.(role := Some(USER)) else u
  }

  /** `databaseHooks.user.create.before`: every field carried over, role set
      to `'ADMIN'` when the email is in the allow-list and `'USER'` otherwise. */
  function BeforeCreate(u: NewUser, allow: seq<string>): (r: NewUser)
    ensures r.(role := u.role) == u
    ensures r.role == Some(ADMIN) <==> u.email in allow
    ensures r.role == Some(USER) <==> u.email !in allow
  {
    u.(role := Some(if u.email in allow then ADMIN else USER))
  }

  /** The role a new user is stored with. Whatever role the input carried,
      the result depends on the email and the environment alone, and an
      unset or empty `ADMIN_EMAILS` makes every new user a `'USER'`. */
  function CreatedRole(u: NewUser, env: Option<string>): string
  {
    BeforeCreate(WithDefaultRole(u), AllowList(env)).role.value
  }

  lemma CreatedRoleDecided(u: NewUser, env: Option<string>)
    ensures CreatedRole(u, env) == ADMIN <==> u.email != "" && u.email in Split(Or(env, ""), ',')
    ensures CreatedRole(u, env) == ADMIN || CreatedRole(u, env) == USER
    ensures !Truthy(env) ==> CreatedRole(u, env) == USER
    ensures forall r: Option<string> :: CreatedRole(u.(role := r), env) == CreatedRole(u, env)
  {
    if !Truthy(env) {
      AllowListUnset(env);
    }
  }
}
