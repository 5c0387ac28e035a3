/**
 * What the interceptors of src/api/axiosClient.jsx promise, proved about
 * `AxiosClient.Exchange`, and the refresh loop of the code as written,
 * exhibited on `AxiosClient.ExchangeAsWritten`.
 */
module AxiosClientProperties {
  import opened Values
  import opened Http
  import opened Environment
  import opened AxiosClient

  /** The reply the backend gives to `config` when the browser is in `env`. */
  function ReplyTo(server: Server, env: Env, config: Request): Outcome
  {
    server(OnWire(Attach(env.storage, config)))
  }

  /** A successful response reaches the caller unchanged; only the request log grows. */
  lemma SuccessPassesThrough(server: Server, env: Env, config: Request)
    requires ReplyTo(server, env, config).Resolved?
    ensures Exchange(server, env, config)
         == Step(env.(wire := env.wire + [Attach(env.storage, config)]), ReplyTo(server, env, config))
  {
  }

  /**
   * Any failure other than a 401 on a request not yet retried (another status,
   * no response at all, or a 401 on a retried request) is rejected with the
   * same error, without a refresh and without touching the credential.
   */
  lemma OtherFailuresRejectedUnchanged(server: Server, env: Env, config: Request)
    requires ReplyTo(server, env, config).Rejected?
    requires !IsUnauthorized(ReplyTo(server, env, config)) || config.retried
    ensures Exchange(server, env, config)
         == Step(env.(wire := env.wire + [Attach(env.storage, config)]), ReplyTo(server, env, config))
  {
  }

  /**
   * A 401 on a request not yet retried, whose refresh fails: the credential is
   * removed, the browser goes to the login page, exactly one refresh was sent,
   * and the caller's promise rejects with the refresh error (not the 401).
   */
  lemma RefreshFailureExpiresSession(server: Server, env: Env, config: Request)
    requires !config.retried && IsUnauthorized(ReplyTo(server, env, config))
    requires ReplyTo(server, env, RefreshCall).Rejected?
    ensures Exchange(server, env, config)
         == Step(Env(None, env.visits + [LoginRoute],
                     env.wire + [Attach(env.storage, config), Attach(env.storage, RefreshCall)]),
                 ReplyTo(server, env, RefreshCall))
  {
  }

  /**
   * A 401 on a request not yet retried, whose refresh succeeds without an
   * object body: reading `res.data.accessToken` throws, so the credential is
   * removed, the browser goes to the login page and the promise rejects with
   * the TypeError.
   */
  lemma RefreshWithoutBodyExpiresSession(server: Server, env: Env, config: Request)
    requires !config.retried && IsUnauthorized(ReplyTo(server, env, config))
    requires ReplyTo(server, env, RefreshCall).Resolved?
    requires Member(ReplyTo(server, env, RefreshCall).response.data, "accessToken").None?
    ensures Exchange(server, env, config)
         == Step(Env(None, env.visits + [LoginRoute],
                     env.wire + [Attach(env.storage, config), Attach(env.storage, RefreshCall)]),
                 Rejected(TypeError))
  {
  }

  /**
   * A 401 on a request not yet retried, whose refresh succeeds: the store
   * holds the new token, the request is re-sent once, marked as retried and
   * carrying `Bearer <new token>`, and the caller receives the retry's
   * outcome as it is.
   */
  lemma RefreshSuccessRetriesOnce(server: Server, env: Env, config: Request)
    requires !config.retried && IsUnauthorized(ReplyTo(server, env, config))
    requires ReplyTo(server, env, RefreshCall).Resolved?
    requires Member(ReplyTo(server, env, RefreshCall).response.data, "accessToken").Some?
    ensures
      var t := Stringify(Member(ReplyTo(server, env, RefreshCall).response.data, "accessToken").value);
      var first := Attach(env.storage, config);
      var retry := first.(retried := true, headers := first.headers[Authorization := Bearer(t)]);
      && retry.headers[Authorization] == Bearer(t)
      && Exchange(server, env, config)
         == Step(Env(Some(t), env.visits, env.wire + [first, Attach(env.storage, RefreshCall), retry]),
                 server(OnWire(retry)))
  {
    var t := Stringify(Member(ReplyTo(server, env, RefreshCall).response.data, "accessToken").value);
    var first := Attach(env.storage, config);
    var retry := first.(retried := true, headers := first.headers[Authorization := Bearer(t)]);
    var sent := env.(wire := env.wire + [first]);
    var refreshed := sent.(wire := sent.wire + [Attach(env.storage, RefreshCall)]);
    assert Exchange(server, sent, RefreshCall) == Step(refreshed, ReplyTo(server, env, RefreshCall));
    assert Attach(Some(t), retry) == retry by {
      if Present(Some(t)) {
        assert retry.headers[Authorization := Bearer(t)] == retry.headers;
      }
    }
    assert Exchange(server, refreshed.(storage := Some(t)), retry)
        == Step(refreshed.(storage := Some(t), wire := refreshed.wire + [retry]), server(OnWire(retry)));
  }

  /**
   * Whatever the backend answers, one dispatch sends the request as the
   * request interceptor left it, then at most two more requests, each marked
   * as retried: so at most one refresh and at most one retry happen per
   * original request, and none of them can start another.
   */
  lemma AtMostOneRetry(server: Server, env: Env, config: Request)
    ensures
      var w := Exchange(server, env, config).env.wire;
      && |env.wire| < |w| <= |env.wire| + 3
      && w[..|env.wire|] == env.wire
      && w[|env.wire|] == Attach(env.storage, config)
      && forall i :: |env.wire| < i < |w| ==> w[i].retried
  {
    var c := Attach(env.storage, config);
    var sent := env.(wire := env.wire + [c]);
    if IsUnauthorized(server(OnWire(c))) && !c.retried {
      var refresh := Exchange(server, sent, RefreshCall);
      assert refresh.env.wire == sent.wire + [Attach(env.storage, RefreshCall)];
      match refresh.outcome
      case Rejected(_) =>
      case Resolved(res) =>
        match Member(res.data, "accessToken")
        case None =>
        case Some(token) =>
          var t := Stringify(token);
          var retry := c.(retried := true, headers := c.headers[Authorization := Bearer(t)]);
          assert Exchange(server, refresh.env.(storage := Some(t)), retry).env.wire
              == refresh.env.wire + [Attach(Some(t), retry)];
    }
  }

  /** A dispatch of a request already marked as retried never navigates and never writes the store. */
  lemma RetriedLeavesSessionAlone(server: Server, env: Env, config: Request)
    requires config.retried
    ensures Exchange(server, env, config).env.storage == env.storage
    ensures Exchange(server, env, config).env.visits == env.visits
  {
  }

  /**
   * The only navigation the client ever issues is one redirect to the login
   * page, and it does so exactly when it also leaves the store empty.
   */
  lemma NavigatesOnlyToLogin(server: Server, env: Env, config: Request)
    ensures
      var e := Exchange(server, env, config).env;
      && (e.visits == env.visits || (e.visits == env.visits + [LoginRoute] && e.storage == None))
  {
  }

  // ---------------------------------------------------------------------------
  // The refresh loop of the code as written.

  /**
   * As written, when the backend answers the refresh call with 401 (an expired
   * or missing refresh cookie), the interceptor refreshes for the refresh call
   * itself, with the identical request, and never settles, however much fuel
   * it is given.
   */
  lemma {:induction false} RefreshLoopsAsWritten(server: Server, env: Env, fuel: nat)
    requires IsUnauthorized(ReplyTo(server, env, RefreshCallAsWritten))
    ensures ExchangeAsWritten(server, env, RefreshCallAsWritten, fuel).None?
    decreases fuel
  {
    if fuel > 0 {
      var sent := env.(wire := env.wire + [Attach(env.storage, RefreshCallAsWritten)]);
      RefreshLoopsAsWritten(server, sent, fuel - 1);
    }
  }

  /**
   * As written, any request that meets a 401 while the refresh call also meets
   * a 401 never settles: the credential is never cleared and the browser never
   * reaches the login page.
   */
  lemma UnauthorizedNeverSettlesAsWritten(server: Server, env: Env, config: Request, fuel: nat)
    requires !config.retried && IsUnauthorized(ReplyTo(server, env, config))
    requires IsUnauthorized(ReplyTo(server, env, RefreshCallAsWritten))
    ensures ExchangeAsWritten(server, env, config, fuel).None?
  {
    if fuel > 0 {
      var sent := env.(wire := env.wire + [Attach(env.storage, config)]);
      RefreshLoopsAsWritten(server, sent, fuel - 1);
    }
  }

  /**
   * The concrete input: a stored stale token and a backend that answers every
   * request with 401. As written, `getMe()` never settles; the corrected client
   * clears the credential, goes to the login page and rejects with the refresh's 401.
   */
  lemma ExpiredEverywhereCounterexample()
    ensures
      var server: Server := (s: Sent) => Rejected(HttpError(401, Null));
      var env := Env(Some("stale"), [], []);
      && (forall fuel: nat :: ExchangeAsWritten(server, env, MeCall, fuel).None?)
      && Exchange(server, env, MeCall).env.storage == None
      && Exchange(server, env, MeCall).env.visits == [LoginRoute]
      && Exchange(server, env, MeCall).outcome == Rejected(HttpError(401, Null))
  {
    var server: Server := (s: Sent) => Rejected(HttpError(401, Null));
    var env := Env(Some("stale"), [], []);
    forall fuel: nat ensures ExchangeAsWritten(server, env, MeCall, fuel).None? {
      UnauthorizedNeverSettlesAsWritten(server, env, MeCall, fuel);
    }
    RefreshFailureExpiresSession(server, env, MeCall);
  }

  /** Two request logs the backend cannot tell apart: the same configs but for their `_retry` markers. */
  predicate SameTransmitted(v: seq<Request>, w: seq<Request>)
  {
    |v| == |w| && forall i :: 0 <= i < |v| ==> OnWire(v[i]) == OnWire(w[i])
  }

  /** Two runs with the same observable effect: store, navigation, requests received and outcome. */
  predicate SameEffect(a: Step, b: Step)
  {
    && a.env.storage == b.env.storage
    && a.env.visits == b.env.visits
    && SameTransmitted(a.env.wire, b.env.wire)
    && a.outcome == b.outcome
  }

  /** A retried request needs no refresh, so the two clients have the same effect on it. */
  lemma RetriedAgrees(server: Server, ea: Env, eb: Env, config: Request, fuel: nat)
    requires config.retried && fuel >= 1
    requires ea.storage == eb.storage && ea.visits == eb.visits
    requires SameTransmitted(ea.wire, eb.wire)
    ensures ExchangeAsWritten(server, ea, config, fuel).Some?
    ensures SameEffect(ExchangeAsWritten(server, ea, config, fuel).value, Exchange(server, eb, config))
  {
  }

  /**
   * The correction changes nothing else: whenever the refresh call is not
   * answered with 401, the code as written (given fuel for its three
   * dispatches) and the corrected client leave the same store and
   * navigation, send the backend the same requests and settle the same way.
   */
  lemma AsWrittenAgreesOtherwise(server: Server, env: Env, config: Request, fuel: nat)
    requires fuel >= 2
    requires !IsUnauthorized(ReplyTo(server, env, RefreshCall))
    ensures ExchangeAsWritten(server, env, config, fuel).Some?
    ensures SameEffect(ExchangeAsWritten(server, env, config, fuel).value, Exchange(server, env, config))
  {
    var c := Attach(env.storage, config);
    var sent := env.(wire := env.wire + [c]);
    if IsUnauthorized(server(OnWire(c))) && !c.retried {
      var refreshA := Attach(env.storage, RefreshCallAsWritten);
      var refreshB := Attach(env.storage, RefreshCall);
      assert OnWire(refreshA) == OnWire(refreshB);
      var ea := sent.(wire := sent.wire + [refreshA]);
      var eb := sent.(wire := sent.wire + [refreshB]);
      assert ExchangeAsWritten(server, sent, RefreshCallAsWritten, fuel - 1)
          == Some(Step(ea, ReplyTo(server, env, RefreshCall)));
      assert Exchange(server, sent, RefreshCall) == Step(eb, ReplyTo(server, env, RefreshCall));
      assert SameTransmitted(ea.wire, eb.wire);
      match ReplyTo(server, env, RefreshCall)
      case Rejected(_) =>
      case Resolved(res) =>
        match Member(res.data, "accessToken")
        case None =>
        case Some(token) =>
          var t := Stringify(token);
          var retry := c.(retried := true, headers := c.headers[Authorization := Bearer(t)]);
          RetriedAgrees(server, ea.(storage := Some(t)), eb.(storage := Some(t)), retry, fuel - 1);
    }
  }
}
