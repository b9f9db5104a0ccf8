/** The navigation bar re-reads the signed-in user's role from the user
    table before rendering, because the role inside the session may be
    stale. */
module Navbar {
  import opened Common
  import opened Auth

  /** The `role` column of each user row, by user id; the column may be null. */
  type RoleColumn = map<string, Option<string>>

  /** The session handed to the client: unchanged when there is no session,
      when its user id is empty, or when no user row is found; otherwise the
      same session with `role` replaced by the stored role, or `'USER'` when
      the stored role is null or empty. */
  function RefreshRole(session: Option<Session>, roles: RoleColumn): (r: Option<Session>)
    ensures r.None? <==> session.None?
    ensures r.Some? ==> r.value.(user := r.value.user.(role := session.value.user.role)) == session.value
    ensures r.Some? && session.value.user.id != "" && session.value.user.id in roles ==>
      r.value.user.role == Or(roles[session.value.user.id], USER)
    ensures r.Some? && (session.value.user.id == "" || session.value.user.id !in roles) ==>
      r == session
  {
    if session.Some? && session.value.user.id != "" && session.value.user.id in roles then
      var s := session.value;
      Some(s.(user := s.user.(role := Or(roles[s.user.id], USER))))
    else session
  }

  /** Refreshing twice reads the same row, so the second refresh changes
      nothing. */
  lemma RefreshIdempotent(session: Option<Session>, roles: RoleColumn)
    ensures RefreshRole(RefreshRole(session, roles), roles) == RefreshRole(session, roles)
  {
  }

  /** Whatever role the session carried, the client shows the admin
      controls exactly when the stored role is `'ADMIN'`, once a row is found. */
  lemma AdminFollowsStoredRole(session: Option<Session>, roles: RoleColumn)
    requires session.Some? && session.value.user.id != "" && session.value.user.id in roles
    ensures IsAdmin(RefreshRole(session, roles)) <==> roles[session.value.user.id] == Some(ADMIN)
  {
  }

  /** A user whose row was created by the creation hook is shown as an
      administrator exactly when the e-mail was on the allow-list at
      creation time, even if the session claims otherwise. */
  lemma CreatedUserSeenAsCreated(session: Option<Session>, roles: RoleColumn, u: NewUser, env: Option<string>)
    requires session.Some? && session.value.user.id != ""
    requires roles == map[session.value.user.id := Some(CreatedRole(u, env))]
    ensures IsAdmin(RefreshRole(session, roles)) <==> u.email != "" && u.email in Split(Or(env, ""), ',')
  {
    CreatedRoleDecided(u, env);
  }
}
