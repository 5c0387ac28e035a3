/**
 * The route guard of src/components/ProtectedRoute.jsx: a decision over the
 * session state alone, which neither resolves the session nor touches the store.
 */
module ProtectedRoute {
  import opened Values
  import opened Http
  import opened Environment
  import opened AxiosClient
  import opened AuthContext

  /** The waiting view, a redirect, or the wrapped children. */
  datatype View = Waiting | RedirectTo(route: string) | Children

  function Guard(s: Session): (v: View)
    ensures v.Waiting? <==> s.loading
    ensures v.RedirectTo? <==> !s.loading && !Truthy(s.user)
    ensures v.Children? <==> !s.loading && Truthy(s.user)
    ensures v.RedirectTo? ==> v.route == LoginRoute
  {
    if s.loading then Waiting
    else if !Truthy(s.user) then RedirectTo(LoginRoute)
    else Children
  }

  /** Once `loadUser()` has completed, the guard has decided: it never waits. */
  lemma GuardDecidedAfterResolve(server: Server, s: Session, env: Env)
    ensures Guard(Resolve(server, s, env).session) != Waiting
  {
  }

  /**
   * No stored credential at start-up: the first `loadUser()` sends nothing and
   * the guard redirects to the login page.
   */
  lemma AnonymousAtStartup(server: Server, env: Env)
    requires !Present(env.storage)
    ensures Resolve(server, Initial, env).env.wire == env.wire
    ensures Guard(Resolve(server, Initial, env).session) == RedirectTo(LoginRoute)
  {
  }

  /**
   * A stored credential, and `/api/user/me` answers with a profile object
   * (directly, or after a refresh): the guard admits the protected content.
   */
  lemma AdmitsResolvedProfile(server: Server, s: Session, env: Env)
    requires Present(env.storage)
    requires Exchange(server, env, MeCall).outcome.Resolved?
    requires Exchange(server, env, MeCall).outcome.response.data.Record?
    ensures Guard(Resolve(server, s, env).session) == Children
  {
    ResolveWithProfile(server, s, env);
    var profile := Exchange(server, env, MeCall).outcome.response.data;
    assert Resolve(server, s, env).session == Session(profile, false);
    assert Truthy(profile);
  }

  /** A stored credential that `getMe()` cannot turn into a user: the guard redirects to the login page. */
  lemma RedirectsOnFailedProfile(server: Server, s: Session, env: Env)
    requires Present(env.storage) && Exchange(server, env, MeCall).outcome.Rejected?
    ensures Guard(Resolve(server, s, env).session) == RedirectTo(LoginRoute)
  {
    ResolveFailureForgetsToken(server, s, env);
  }
}
