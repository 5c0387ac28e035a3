/**
 * The session state holder of src/auth/AuthContext.jsx: two state cells,
 * `user` and `loading`, and `loadUser()`, which resolves them from the stored
 * credential and the `getMe()` call made through the axios client.
 */
module AuthContext {
  import opened Values
  import opened Http
  import opened Environment
  import opened AxiosClient
  import AxiosClientProperties

  datatype Session = Session(user: Data, loading: bool)

  /** `useState(null)`, `useState(true)` */
  const Initial := Session(Null, true)

  /** The session and the browser after a `loadUser()` run. */
  datatype Resolution = Resolution(session: Session, env: Env)

  /**
   * `loadUser()` run to completion. Without a stored token it only clears
   * `loading`; otherwise it calls `getMe()` and takes `res.data` as the user,
   * or on any failure forgets both the user and the token.
   */
  function Resolve(server: Server, s: Session, env: Env): (r: Resolution)
    ensures !r.session.loading
    ensures !Present(env.storage) ==> r == Resolution(s.(loading := false), env)
    ensures Present(env.storage) ==>
      && |env.wire| < |r.env.wire| <= |env.wire| + 3
      && r.env.wire[..|env.wire|] == env.wire
      && r.env.wire[|env.wire|] == Attach(env.storage, MeCall)
  {
    if !Present(env.storage) then Resolution(s.(loading := false), env)
    else
      AxiosClientProperties.AtMostOneRetry(server, env, MeCall);
      var st := Exchange(server, env, MeCall);
      match st.outcome
      case Resolved(res) => Resolution(Session(res.data, false), st.env)
      case Rejected(_) => Resolution(Session(Null, false), st.env.(storage := None))
  }

  /** With a token and a `getMe()` that resolves (possibly after a refresh), the user is the response body. */
  lemma ResolveWithProfile(server: Server, s: Session, env: Env)
    requires Present(env.storage) && Exchange(server, env, MeCall).outcome.Resolved?
    ensures Resolve(server, s, env).session == Session(Exchange(server, env, MeCall).outcome.response.data, false)
    ensures Resolve(server, s, env).env == Exchange(server, env, MeCall).env
  {
  }

  /** With a token and a `getMe()` that rejects, the user is null and the token is gone. */
  lemma ResolveFailureForgetsToken(server: Server, s: Session, env: Env)
    requires Present(env.storage) && Exchange(server, env, MeCall).outcome.Rejected?
    ensures Resolve(server, s, env).session == Session(Null, false)
    ensures Resolve(server, s, env).env.storage == None
  {
    var st := Exchange(server, env, MeCall);
    assert Resolve(server, s, env) == Resolution(Session(Null, false), st.env.(storage := None));
  }

  /** `loadUser()` navigates at most once, and only to the login page. */
  lemma ResolveNavigatesOnlyToLogin(server: Server, s: Session, env: Env)
    ensures
      var v := Resolve(server, s, env).env.visits;
      v == env.visits || v == env.visits + [LoginRoute]
  {
  }

  /**
   * Running `loadUser()` a second time, against the same deterministic
   * backend and the store the first run left, gives the same user, the same
   * `loading`, the same store and no further navigation.
   */
  lemma ResolveIdempotent(server: Server, s: Session, env: Env)
    ensures
      var r1 := Resolve(server, s, env);
      var r2 := Resolve(server, r1.session, r1.env);
      && r2.session == r1.session
      && r2.env.storage == r1.env.storage
      && r2.env.visits == r1.env.visits
  {
    if Present(env.storage) {
      var c := Attach(env.storage, MeCall);
      if IsUnauthorized(server(OnWire(c))) {
        var sent := env.(wire := env.wire + [c]);
        var refreshed := sent.(wire := sent.wire + [Attach(env.storage, RefreshCall)]);
        var reply := server(OnWire(Attach(env.storage, RefreshCall)));
        assert Exchange(server, sent, RefreshCall) == Step(refreshed, reply);
        if reply.Resolved? && Member(reply.response.data, "accessToken").Some? {
          var t := Stringify(Member(reply.response.data, "accessToken").value);
          AxiosClientProperties.RefreshSuccessRetriesOnce(server, env, MeCall);
          var retry := c.(retried := true, headers := c.headers[Authorization := Bearer(t)]);
          if Present(Some(t)) {
            // The second run sends exactly the request the first run retried with.
            assert OnWire(Attach(Some(t), MeCall)) == OnWire(retry);
          }
        }
      }
    }
  }

  /**
   * An expired stored credential: `/api/user/me` answers 401, the refresh
   * issues token `t`, and `/api/user/me` sent with `Bearer t` answers with a
   * profile. The session ends with that profile and the store holds `t`.
   */
  lemma RecoversExpiredCredential(server: Server, s: Session, env: Env, t: string, profile: Data)
    requires Present(env.storage)
    requires IsUnauthorized(AxiosClientProperties.ReplyTo(server, env, MeCall))
    requires AxiosClientProperties.ReplyTo(server, env, RefreshCall).Resolved?
    requires Member(AxiosClientProperties.ReplyTo(server, env, RefreshCall).response.data, "accessToken") == Some(Text(t))
    requires server(Sent(Get, MePath, map[Authorization := Bearer(t)], Undefined)) == Resolved(Response(200, profile))
    ensures Resolve(server, s, env).session == Session(profile, false)
    ensures Resolve(server, s, env).env.storage == Some(t)
  {
    AxiosClientProperties.RefreshSuccessRetriesOnce(server, env, MeCall);
    var c := Attach(env.storage, MeCall);
    assert c.headers[Authorization := Bearer(t)] == map[Authorization := Bearer(t)];
  }

  /** The `AuthProvider` component's state and its `loadUser` function. */
  class AuthProvider {
    var user: Data
    var loading: bool
    const api: Api

    constructor (api: Api)
      ensures Session(user, loading) == Initial && this.api == api
    {
      this.api := api;
      user := Null;
      loading := true;
    }

    /** `loadUser()`, awaited to completion. */
    method LoadUser()
      modifies this, api.browser
      ensures Resolution(Session(user, loading), api.browser.Snapshot())
           == Resolve(api.server, old(Session(user, loading)), old(api.browser.Snapshot()))
    {
      var token := api.browser.GetItem();
      if !(token.Some? && token.value != "") {
        loading := false;
        return;
      }
      var r := api.Dispatch(MeCall);
      match r {
        case Resolved(res) =>
          user := res.data;
        case Rejected(_) =>
          user := Null;
          api.browser.RemoveItem();
      }
      loading := false;
    }
  }
}
