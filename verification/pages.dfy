/**
 * The two other writers of the credential cell: the login form
 * (src/pages/Login.jsx) and the logout button of the dashboard
 * (src/pages/Dashboard.jsx). Both await their request, so a rejected request
 * aborts the handler before it writes anything.
 */
module Pages {
  import opened Values
  import opened Http
  import opened Environment
  import opened AxiosClient
  import opened AuthContext

  /**
   * `handleSubmit` of the login form: `login(...)`, store
   * `res.data.accessToken`, await `loadUser()`, then go to the dashboard.
   */
  method HandleLogin(auth: AuthProvider, email: string, password: string)
    modifies auth, auth.api.browser
    ensures
      var first := Exchange(auth.api.server, old(auth.api.browser.Snapshot()), LoginCall(email, password));
      var token := if first.outcome.Resolved? then Member(first.outcome.response.data, "accessToken") else None;
      && (token.None? ==>
            && Session(auth.user, auth.loading) == old(Session(auth.user, auth.loading))
            && auth.api.browser.Snapshot() == first.env)
      && (token.Some? ==>
            var r := Resolve(auth.api.server, old(Session(auth.user, auth.loading)),
                             first.env.(storage := Some(Stringify(token.value))));
            && Session(auth.user, auth.loading) == r.session
            && auth.api.browser.Snapshot() == r.env.(visits := r.env.visits + [DashboardRoute]))
  {
    var res := auth.api.Dispatch(LoginCall(email, password));
    if res.Rejected? {
      return;
    }
    var token := Member(res.response.data, "accessToken");
    if token.None? {
      return;
    }
    auth.api.browser.SetItem(Stringify(token.value));
    auth.LoadUser();
    auth.api.browser.Navigate(DashboardRoute);
  }

  /**
   * `handleLogout`: `logout()`, then remove the token and go to the login
   * page; if `logout()` rejects, the handler stops with the state the
   * dispatch left, so the token stays unless a failed refresh already removed it.
   */
  method HandleLogout(api: Api)
    modifies api.browser
    ensures
      var first := Exchange(api.server, old(api.browser.Snapshot()), LogoutCall);
      && (first.outcome.Rejected? ==> api.browser.Snapshot() == first.env)
      && (first.outcome.Resolved? ==>
            api.browser.Snapshot() == first.env.(storage := None, visits := first.env.visits + [LoginRoute]))
  {
    var res := api.Dispatch(LogoutCall);
    if res.Rejected? {
      return;
    }
    api.browser.RemoveItem();
    api.browser.Navigate(LoginRoute);
  }
}
