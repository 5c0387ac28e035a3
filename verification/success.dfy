/**
 * The OAuth callback page of src/pages/Success.jsx: its effect stores the
 * `token` query parameter, starts `loadUser()` and navigates.
 */
module Success {
  import opened Values
  import opened Http
  import opened Environment
  import opened AuthContext

  /**
   * One run of the effect. `token` is `searchParams.get("token")`; `decode`
   * is `decodeURIComponent`, with `None` for the URIError it throws on a
   * malformed escape, which aborts the effect before anything is written.
   * `loadUser()` is not awaited, so the navigation to the dashboard comes
   * before the rest of `loadUser()`; it is modelled in that order.
   */
  method HandleCallback(auth: AuthProvider, token: Option<string>, decode: string -> Option<string>)
    modifies auth, auth.api.browser
    ensures !Present(token) ==>
      && Session(auth.user, auth.loading) == old(Session(auth.user, auth.loading))
      && auth.api.browser.Snapshot() == old(auth.api.browser.Snapshot()).(visits := old(auth.api.browser.visits) + [LoginRoute])
    ensures Present(token) && decode(token.value).None? ==>
      && Session(auth.user, auth.loading) == old(Session(auth.user, auth.loading))
      && auth.api.browser.Snapshot() == old(auth.api.browser.Snapshot())
    ensures Present(token) && decode(token.value).Some? ==>
      && Resolution(Session(auth.user, auth.loading), auth.api.browser.Snapshot())
         == Resolve(auth.api.server, old(Session(auth.user, auth.loading)),
                    old(auth.api.browser.Snapshot()).(storage := Some(decode(token.value).value),
                                                       visits := old(auth.api.browser.visits) + [DashboardRoute]))
      && auth.api.browser.visits[..|old(auth.api.browser.visits)| + 1] == old(auth.api.browser.visits) + [DashboardRoute]
  {
    if token.Some? && token.value != "" {
      var decoded := decode(token.value);
      if decoded.None? {
        return;
      }
      auth.api.browser.SetItem(decoded.value);
      auth.api.browser.Navigate(DashboardRoute);
      ghost var before := auth.api.browser.Snapshot();
      ghost var s := Session(auth.user, auth.loading);
      auth.LoadUser();
      ResolveNavigatesOnlyToLogin(auth.api.server, s, before);
    } else {
      auth.api.browser.Navigate(LoginRoute);
    }
  }
}
