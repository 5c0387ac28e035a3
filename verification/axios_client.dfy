/**
 * The shared axios instance of src/api/axiosClient.jsx: a request interceptor
 * that attaches the stored credential, and a response interceptor that, on a
 * 401 for a request not yet retried, refreshes the credential once and
 * re-dispatches the request.
 *
 * `Exchange` specifies one dispatch `api(config)` on a snapshot of the
 * browser; `Api.Dispatch` performs it on the live `Browser`. Both follow the
 * corrected refresh call (see `RefreshCall`); `ExchangeAsWritten` is the
 * dispatch exactly as the source builds the refresh call.
 */
module AxiosClient {
  import opened Values
  import opened Http
  import opened Environment

  /** The browser state after a dispatch, and what the caller's promise settles to. */
  datatype Step = Step(env: Env, outcome: Outcome)

  /**
   * Request interceptor: with a non-empty stored token, the config leaves
   * with `Authorization: Bearer <token>` and nothing else changed; otherwise
   * it leaves untouched.
   */
  function Attach(token: Option<string>, config: Request): (c: Request)
    ensures c.verb == config.verb && c.path == config.path
    ensures c.body == config.body && c.retried == config.retried
    ensures Present(token) ==>
      && c.headers.Keys == config.headers.Keys + {Authorization}
      && c.headers[Authorization] == Bearer(token.value)
      && forall k :: k in config.headers && k != Authorization ==> c.headers[k] == config.headers[k]
    ensures !Present(token) ==> c.headers == config.headers
  {
    if Present(token) then config.(headers := config.headers[Authorization := Bearer(token.value)])
    else config
  }

  /** The refresh exchange as the source issues it: a fresh config, `_retry` unset. */
  const RefreshCallAsWritten := Call(Post, RefreshPath, Undefined)

  /**
   * The refresh exchange as the model issues it: the same request, already
   * marked as retried, so that a 401 on it is rejected instead of refreshed.
   */
  const RefreshCall := RefreshCallAsWritten.(retried := true)

  /** The catch branch of the refresh: forget the credential and go to the login page. */
  function Expire(env: Env): Env
  {
    env.(storage := None, visits := env.visits + [LoginRoute])
  }

  /** One dispatch `api(config)` through both interceptors (corrected refresh call). */
  function Exchange(server: Server, env: Env, config: Request): (st: Step)
    ensures |env.wire| < |st.env.wire| && st.env.wire[..|env.wire|] == env.wire
    ensures st.env.wire[|env.wire|] == Attach(env.storage, config)
    decreases if config.retried then 0 else 1
  {
    var c := Attach(env.storage, config);
    var sent := env.(wire := env.wire + [c]);
    var reply := server(OnWire(c));
    if IsUnauthorized(reply) && !c.retried then
      var original := c.(retried := true);
      var refresh := Exchange(server, sent, RefreshCall);
      match refresh.outcome
      case Rejected(err) => Step(Expire(refresh.env), Rejected(err))
      case Resolved(res) =>
        match Member(res.data, "accessToken")
        case None => Step(Expire(refresh.env), Rejected(TypeError))
        case Some(token) =>
          var t := Stringify(token);
          Exchange(server, refresh.env.(storage := Some(t)),
                   original.(headers := original.headers[Authorization := Bearer(t)]))
    else
      Step(sent, reply)
  }

  /**
   * One dispatch exactly as the source performs it: the refresh call is a
   * fresh config, so a 401 on it starts another refresh. `fuel` bounds the
   * nesting depth of dispatches; `None` means the fuel ran out before the promise settled.
   */
  function ExchangeAsWritten(server: Server, env: Env, config: Request, fuel: nat): (r: Option<Step>)
    ensures fuel == 0 ==> r.None?
    ensures r.Some? ==> |env.wire| < |r.value.env.wire| && r.value.env.wire[..|env.wire|] == env.wire
    ensures r.Some? ==> r.value.env.wire[|env.wire|] == Attach(env.storage, config)
    decreases fuel
  {
    if fuel == 0 then None
    else
      var c := Attach(env.storage, config);
      var sent := env.(wire := env.wire + [c]);
      var reply := server(OnWire(c));
      if IsUnauthorized(reply) && !c.retried then
        var original := c.(retried := true);
        match ExchangeAsWritten(server, sent, RefreshCallAsWritten, fuel - 1)
        case None => None
        case Some(refresh) =>
          match refresh.outcome
          case Rejected(err) => Some(Step(Expire(refresh.env), Rejected(err)))
          case Resolved(res) =>
            match Member(res.data, "accessToken")
            case None => Some(Step(Expire(refresh.env), Rejected(TypeError)))
            case Some(token) =>
              var t := Stringify(token);
              ExchangeAsWritten(server, refresh.env.(storage := Some(t)),
                                original.(headers := original.headers[Authorization := Bearer(t)]), fuel - 1)
      else
        Some(Step(sent, reply))
  }

  /** The axios instance: the browser it runs in and the backend it talks to. */
  class Api {
    const browser: Browser
    const server: Server

    constructor (browser: Browser, server: Server)
      ensures this.browser == browser && this.server == server
    {
      this.browser := browser;
      this.server := server;
    }

    /** The request interceptor, reading the live credential cell. */
    method InterceptRequest(config: Request) returns (c: Request)
      ensures c == Attach(browser.storage, config)
    {
      var token := browser.GetItem();
      c := config;
      if token.Some? && token.value != "" {
        c := c.(headers := c.headers[Authorization := Bearer(token.value)]);
      }
    }

    /** `api(config)`: dispatch, and run the response interceptor on the reply. */
    method Dispatch(config: Request) returns (r: Outcome)
      modifies browser
      decreases if config.retried then 0 else 1
      ensures Step(browser.Snapshot(), r) == Exchange(server, old(browser.Snapshot()), config)
    {
      var c := InterceptRequest(config);
      browser.Transmit(c);
      r := server(OnWire(c));
      if IsUnauthorized(r) && !c.retried {
        var original := c.(retried := true);
        var refreshed := Dispatch(RefreshCall);
        match refreshed {
          case Rejected(err) =>
            browser.RemoveItem();
            browser.Navigate(LoginRoute);
            r := refreshed;
          case Resolved(res) =>
            var token := Member(res.data, "accessToken");
            if token.None? {
              browser.RemoveItem();
              browser.Navigate(LoginRoute);
              r := Rejected(TypeError);
            } else {
              var t := Stringify(token.value);
              browser.SetItem(t);
              original := original.(headers := original.headers[Authorization := Bearer(t)]);
              r := Dispatch(original);
            }
        }
      }
    }
  }
}
