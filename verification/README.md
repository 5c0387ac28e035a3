# Session and credential lifecycle of the learning-path frontend

A Dafny model of the part of the single-page application that keeps the user
signed in:

- the shared axios instance (`src/api/axiosClient.jsx`), whose request
  interceptor attaches `Authorization: Bearer <token>` from the
  `access_token` entry of localStorage, and whose response interceptor answers
  a 401 on a request not yet retried by marking it `_retry`, calling
  `/api/auth/refresh`, storing the new token and re-dispatching the request once;
- the session state holder (`src/auth/AuthContext.jsx`): the `user` and
  `loading` cells and `loadUser()`;
- the route guard (`src/components/ProtectedRoute.jsx`);
- the OAuth callback effect (`src/pages/Success.jsx`), plus the two other
  writers of the credential cell, login (`src/pages/Login.jsx`) and logout
  (`src/pages/Dashboard.jsx`).

Layout:

| file | module | contents |
|---|---|---|
| values.dfy | `Values` | `Option`; response bodies with JavaScript truthiness, property read and `String()` |
| http.dfy | `Http` | request configs (with the `_retry` marker), outcomes, the backend as an oracle `Server = Sent -> Outcome`, endpoint paths |
| environment.dfy | `Environment` | class `Browser`: the credential cell, the navigation log, the log of dispatched requests |
| axios_client.dfy | `AxiosClient` | `Attach` and `Exchange` (pure specification of one `api(config)`), `ExchangeAsWritten`, class `Api` with `InterceptRequest` and `Dispatch` |
| axios_client_properties.dfy | `AxiosClientProperties` | the interceptor properties, and the refresh loop of the code as written |
| auth_context.dfy | `AuthContext` | `Resolve` (specification of `loadUser()`), its lemmas, class `AuthProvider` |
| protected_route.dfy | `ProtectedRoute` | `Guard` and its link to the session lifecycle |
| success.dfy | `Success` | the OAuth callback effect |
| pages.dfy | `Pages` | the login and logout handlers |

The backend is a deterministic function from the request it receives (verb,
path, headers, body) to a response or an error. Navigation, through
`window.location.href` or the router, is recorded as a target appended to
`Browser.visits`. Every request the client hands to the backend is appended
to `Browser.wire`, so "no call is made" and "exactly one refresh is sent"
are statements about that log.

When the refresh fails, the caller's promise rejects with the refresh's error,
not with the original 401 (src/api/axiosClient.jsx:42).

## Model

| member | source | states |
|---|---|---|
| `AxiosClient.Attach` | src/api/axiosClient.jsx:10-16 | with a non-empty stored token the config gains exactly `Authorization: Bearer <token>`, every other header and field kept; with no token or an empty one the config is returned unchanged |
| `AxiosClient.Api.InterceptRequest` | src/api/axiosClient.jsx:10-16 | the interceptor reading the live credential cell computes `Attach` of the stored value |
| `AxiosClient.Exchange` | src/api/axiosClient.jsx:21-54 | the response interceptor with the refresh call marked retried: the log keeps the old requests and first records the request as the request interceptor left it; its promises are the `AxiosClientProperties` lemmas below |
| `AxiosClient.ExchangeAsWritten` | src/api/axiosClient.jsx:21-54 | the response interceptor exactly as written, bounded by fuel: no fuel settles nothing, and a run that settles first records the intercepted request; its loop is `AxiosClientProperties.RefreshLoopsAsWritten` |
| `AxiosClient.Api.Dispatch` | src/api/axiosClient.jsx:21-54 | dispatching a config on the live browser leaves exactly the state and outcome of `Exchange` on the previous snapshot |
| `AxiosClientProperties.SuccessPassesThrough` | src/api/axiosClient.jsx:22 | a successful response reaches the caller unchanged; store and navigation untouched |
| `AxiosClientProperties.OtherFailuresRejectedUnchanged` | src/api/axiosClient.jsx:46-52 | any other status, no response, or a 401 on a retried request is rejected with the same error, with no refresh and the store unchanged |
| `AxiosClientProperties.RefreshFailureExpiresSession` | src/api/axiosClient.jsx:27-43 | a 401 then a failed refresh: one refresh sent, store absent, navigation to `/login`, rejection with the refresh's error |
| `AxiosClientProperties.RefreshWithoutBodyExpiresSession` | src/api/axiosClient.jsx:33-42 | a refresh body that is null or undefined makes reading `accessToken` throw: store absent, `/login`, rejection with the TypeError |
| `AxiosClientProperties.RefreshSuccessRetriesOnce` | src/api/axiosClient.jsx:27-38 | a 401 then a successful refresh: the store holds `String(res.data.accessToken)`, the request is re-sent once, marked retried and carrying `Bearer <new token>`, and the caller gets the retry's outcome as it is |
| `AxiosClientProperties.AtMostOneRetry` | src/api/axiosClient.jsx:27-38 | for any backend, a dispatch sends the intercepted request and at most two more, each marked retried: at most one refresh and one retry per original request |
| `AxiosClientProperties.RetriedLeavesSessionAlone` | src/api/axiosClient.jsx:27 | a request already marked retried never writes the store and never navigates |
| `AxiosClientProperties.NavigatesOnlyToLogin` | src/api/axiosClient.jsx:39-42 | a dispatch navigates at most once, only to `/login`, and only while leaving the store absent |
| `AxiosClientProperties.RefreshLoopsAsWritten` | src/api/axiosClient.jsx:30-31 | as written, a 401 on the refresh call starts a refresh for the refresh call itself, with the identical request, and never settles for any fuel |
| `AxiosClientProperties.UnauthorizedNeverSettlesAsWritten` | src/api/axiosClient.jsx:27-43 | as written, a request answered 401 while the refresh is also answered 401 never settles: the store is never cleared and `/login` never reached |
| `AxiosClientProperties.ExpiredEverywhereCounterexample` | src/api/axiosClient.jsx:27-43 | a stale token and a backend answering 401 to everything: `getMe()` never settles as written, while the corrected client clears the store, goes to `/login` and rejects with the refresh's 401 |
| `AxiosClientProperties.RetriedAgrees` | src/api/axiosClient.jsx:27 | on a request marked retried the code as written and the corrected client have the same effect |
| `AxiosClientProperties.AsWrittenAgreesOtherwise` | src/api/axiosClient.jsx:21-54 | whenever the refresh call is not answered 401, the code as written (with fuel for three dispatches) settles, with the same store, navigation, requests received and outcome as the corrected client |
| `AuthContext.AuthProvider.constructor` | src/auth/AuthContext.jsx:7-8 | the session starts with `user = null`, `loading = true` |
| `AuthContext.Resolve` | src/auth/AuthContext.jsx:10-27 | every completed `loadUser()` ends with `loading = false`; without a token it sends nothing and leaves `user` and the browser unchanged; with one, its first request is `getMe` carrying that token, followed by at most two more |
| `AuthContext.AuthProvider.LoadUser` | src/auth/AuthContext.jsx:10-27 | the method on the live state ends exactly where `Resolve` says |
| `AuthContext.ResolveWithProfile` | src/auth/AuthContext.jsx:18-20 | with a token and a `getMe()` that resolves, `user` becomes `res.data` and `loading` false |
| `AuthContext.ResolveFailureForgetsToken` | src/auth/AuthContext.jsx:21-25 | with a token and a `getMe()` that rejects, `user` becomes null, the token is removed and `loading` is false |
| `AuthContext.ResolveNavigatesOnlyToLogin` | src/auth/AuthContext.jsx:10-27 | `loadUser()` navigates at most once, and only to `/login` |
| `AuthContext.ResolveIdempotent` | src/auth/AuthContext.jsx:10-27 | a second `loadUser()` against the same backend gives the same `user`, `loading` and store as the first, and no further navigation |
| `AuthContext.RecoversExpiredCredential` | src/auth/AuthContext.jsx:18-20 | an expired token, a refresh issuing `t` and a profile for `Bearer t`: the session ends with that profile and the store holds `t` |
| `ProtectedRoute.Guard` | src/components/ProtectedRoute.jsx:5-14 | exactly one of three views: waiting iff loading; redirect to `/login` iff resolved with a falsy user; the children iff resolved with a truthy user |
| `ProtectedRoute.GuardDecidedAfterResolve` | src/components/ProtectedRoute.jsx:7-9 | after any completed `loadUser()` the guard never shows the waiting view |
| `ProtectedRoute.AnonymousAtStartup` | src/components/ProtectedRoute.jsx:10-12 | no credential at start-up: no request is sent and the guard redirects to `/login` |
| `ProtectedRoute.AdmitsResolvedProfile` | src/components/ProtectedRoute.jsx:13 | a credential and a profile object from `/api/user/me`: the guard admits the children |
| `ProtectedRoute.RedirectsOnFailedProfile` | src/components/ProtectedRoute.jsx:10-12 | a credential that `getMe()` rejects: the guard redirects to `/login` |
| `Success.HandleCallback` | src/pages/Success.jsx:10-27 | a missing or empty `token` navigates to `/login` and touches neither store nor session; a present one stores `decode(token)`, navigates to `/dashboard` first and then runs `loadUser()`; a token that fails to decode aborts the effect with nothing changed |
| `Pages.HandleLogin` | src/pages/Login.jsx:10-17 | a rejected login or a null or undefined body changes nothing beyond what the login dispatch did; otherwise the store holds `String(res.data.accessToken)`, `loadUser()` completes, then the browser goes to `/dashboard` |
| `Pages.HandleLogout` | src/pages/Dashboard.jsx:47-51 | after a successful `logout()` the store is absent and the browser goes to `/login`; if `logout()` rejects, the state is exactly what the dispatch left, so the token stays unless the rejection came from a failed refresh, which has already removed it |
| `Environment.Browser.GetItem` | src/api/axiosClient.jsx:11 | reading the credential cell returns its current value |
| `Environment.Browser.SetItem` | src/api/axiosClient.jsx:34 | writing the cell replaces the credential and changes nothing else |
| `Environment.Browser.RemoveItem` | src/api/axiosClient.jsx:40 | removing leaves the cell absent, whatever it held, and changes nothing else |
| `Environment.Browser.Navigate` | src/api/axiosClient.jsx:41 | a navigation (`window.location.href =` or the router's `navigate()`) appends its target to the navigation log and changes nothing else |

## Findings

| source | as written | input that shows it | evidently intended | confidence | as-written member | corrected member |
|---|---|---|---|---|---|---|
| src/api/axiosClient.jsx:31 | the refresh call goes through the same intercepted instance with a fresh config, so a 401 on `/api/auth/refresh` enters the 401 branch again and issues the identical refresh, without end | a stored stale token and a backend that answers 401 to `/api/user/me` and to `/api/auth/refresh` (no valid refresh cookie) | a failed refresh, 401 included, reaches the catch branch: the token is removed, the browser goes to `/login`, the promise rejects | high (not executed) | `AxiosClientProperties.UnauthorizedNeverSettlesAsWritten` (on `AxiosClient.ExchangeAsWritten`) | `AxiosClientProperties.RefreshFailureExpiresSession` (on `AxiosClient.Exchange`, whose refresh config carries the `_retry` marker) |

`AxiosClientProperties.AsWrittenAgreesOtherwise` shows that the correction
changes nothing except the case of a 401 on the refresh call.

## Left out

- AuthContext.Resolve, `AuthContext.AuthProvider.LoadUser`, `Success.HandleCallback`, `Pages.HandleLogin`, `Pages.HandleLogout` and the `ProtectedRoute` lemmas are stated for the corrected client (`AxiosClient.Exchange`). With the code as written, a stale token and a refresh answered 401 make `loadUser()` never settle: `loading` stays true and the route guard shows the waiting view for good (see `AxiosClientProperties.UnauthorizedNeverSettlesAsWritten`).
- Rendering: every JSX view, the waiting view's markup, styling. `ProtectedRoute.Guard` returns which view, not the view.
- The dashboard's learning-path feature (form state, history list, `JSON.parse` of path content), the signup and error pages, and the router wiring of `src/App.jsx`, whose only fact used here is that `/dashboard` is the guarded route.
- The one-line endpoint wrappers of `src/api/authApi.jsx` and `src/api/pathApi.jsx` are kept only as the request configs `MeCall`, `LogoutCall`, `LoginCall` and the refresh call.
- HTTP, cookies, `withCredentials`, `baseURL` and axios default headers: the backend is a deterministic oracle over the request it receives, so a server whose answers change over time (rotating refresh cookies) is not modelled.
- `window.location.href` reloads the page, which remounts `AuthProvider` and runs `loadUser()` again; the model records the navigation target only.
- The mount effect of `AuthProvider` (`useEffect` calling `loadUser()`) is a caller of `AuthProvider.LoadUser`, not a member of its own; `setUser` exposed through the context is not modelled.
- Concurrency: two requests that meet a 401 at once each refresh on their own; the model is sequential. In the OAuth callback `loadUser()` is not awaited: the model runs the navigation to `/dashboard` first and then `loadUser()` to completion, which is the order in which their visible effects occur.
- `decodeURIComponent` is the parameter `decode` of `Success.HandleCallback`.
- `console.error` for a failure without a response, and `console.log` of the login response.
- JavaScript values other than `undefined`, `null`, strings and objects (numbers, booleans) as response bodies; exceptions of `localStorage` itself (quota, disabled storage).
