/**
 * Requests as the axios client carries them, and the backend as an oracle.
 * Endpoint paths are those of src/api/authApi.jsx.
 */
module Http {
  import opened Values

  datatype Verb = Get | Post

  /**
   * An axios request config. `retried` is the `_retry` marker that the
   * response interceptor sets on a request before refreshing for it.
   */
  datatype Request = Request(
    verb: Verb,
    path: string,
    headers: map<string, string>,
    body: Data,
    retried: bool)

  /** What the backend sees of a request: everything but the `_retry` marker. */
  datatype Sent = Sent(verb: Verb, path: string, headers: map<string, string>, body: Data)

  function OnWire(c: Request): Sent
  {
    Sent(c.verb, c.path, c.headers, c.body)
  }

  datatype Response = Response(status: int, data: Data)

  /**
   * Why a request promise rejects: an HTTP error status with its body, no
   * response at all (network or CORS failure), or a TypeError raised by the
   * client's own code.
   */
  datatype Error = HttpError(status: int, data: Data) | NoResponse | TypeError

  datatype Outcome = Resolved(response: Response) | Rejected(error: Error)

  /** The backend: a deterministic answer for each request it receives. */
  type Server = Sent -> Outcome

  /** `error.response?.status === 401` */
  predicate IsUnauthorized(o: Outcome)
  {
    o.Rejected? && o.error.HttpError? && o.error.status == 401
  }

  const Authorization := "Authorization"

  function Bearer(token: string): string
  {
    "Bearer " + token
  }

  const RefreshPath := "/api/auth/refresh"
  const LoginPath := "/api/auth/login"
  const LogoutPath := "/api/auth/logout"
  const MePath := "/api/user/me"

  /** Client-side routes the session code navigates to. */
  const LoginRoute := "/login"
  const DashboardRoute := "/dashboard"

  /** A fresh config, as `api.get(path)` / `api.post(path, body)` builds it. */
  function Call(verb: Verb, path: string, body: Data): Request
  {
    Request(verb, path, map[], body, false)
  }

  /** `getMe()` */
  const MeCall := Call(Get, MePath, Undefined)

  /** `logout()` */
  const LogoutCall := Call(Post, LogoutPath, Undefined)

  /** `login({ email, password })` */
  function LoginCall(email: string, password: string): Request
  {
    Call(Post, LoginPath, Record(map["email" := Text(email), "password" := Text(password)]))
  }
}
