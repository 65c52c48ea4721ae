/** The interceptors of the shared axios instance (src/api/client.js). Before
    each request the stored access token is checked for expiry and, when
    expired, exchanged for a new pair with the stored refresh token; a 401
    response clears the store. There is no single-flight refresh and no retry:
    every request runs this logic on its own. `jwtDecode`, the clock and the
    refresh reply are inputs. */
module ApiClient {
  import opened Wrappers
  import Js
  import Tokens
  import Browser

  /** The part of an axios request config the interceptor writes. */
  class RequestConfig {
    var headers: map<string, string>

    constructor (initial: map<string, string>)
      ensures headers == initial
    {
      headers := initial;
    }
  }

  /** How `axios.post('…/auth/refresh-token', …)` settles: with the response's
      `data`, or rejected. */
  datatype RefreshReply = Refreshed(data: Js.Value) | RefreshRejected(error: Js.Exception)

  /** A failed response as the error interceptor sees it: the status of its
      `response`, `None` when there is no response. */
  datatype HttpError = HttpError(status: Option<int>)

  /** A stored token that `if (token)` accepts: present and non-empty. */
  predicate Present(token: Option<string>) {
    token.Some? && token.value != ""
  }

  function Bearer(token: string): (h: string)
    ensures |h| == |token| + 7 && h[..7] == "Bearer " && h[7..] == token
  {
    "Bearer " + token
  }

  /** `jwtDecode(token).exp * 1000 < Date.now()`; either step can throw, and
      both lie outside the interceptor's try block. */
  function Expired(jwtDecode: string -> Result<Js.Value, Js.Exception>, token: string, nowMs: int): Result<bool, Js.Exception> {
    var decoded :- jwtDecode(token);
    var exp :- Tokens.Exp(decoded);
    Success(Tokens.IsExpired(exp, nowMs))
  }

  /** The request interceptor. `exchange` is the Authorization header of the
      refresh call, `None` when no refresh was attempted; `result` is
      `Success` when the config is passed on and `Failure` when the request is
      rejected. */
  method InterceptRequest(w: Browser.Window, config: RequestConfig,
                          jwtDecode: string -> Result<Js.Value, Js.Exception>, nowMs: int, reply: RefreshReply)
    returns (result: Result<(), Js.Exception>, exchange: Option<string>)
    modifies w, config
    // No stored access token: nothing is attached and nothing changes.
    ensures var access := old(w.GetItem(Browser.AccessTokenKey));
            !Present(access) ==>
              result == Success(()) && exchange == None && config.headers == old(config.headers) &&
              w.storage == old(w.storage) && w.navigations == old(w.navigations)
    // The token cannot be decoded or its expiry read: the request is rejected
    // and the store is left alone.
    ensures var access := old(w.GetItem(Browser.AccessTokenKey));
            Present(access) && Expired(jwtDecode, access.value, nowMs).Failure? ==>
              result == Failure(Expired(jwtDecode, access.value, nowMs).error) && exchange == None &&
              config.headers == old(config.headers) &&
              w.storage == old(w.storage) && w.navigations == old(w.navigations)
    // A live token, or an expired one with no refresh token to trade it for,
    // is attached as it is stored.
    ensures var access := old(w.GetItem(Browser.AccessTokenKey));
            var refresh := old(w.GetItem(Browser.RefreshTokenKey));
            Present(access) &&
            (Expired(jwtDecode, access.value, nowMs) == Success(false) ||
             (Expired(jwtDecode, access.value, nowMs) == Success(true) && !Present(refresh))) ==>
              result == Success(()) && exchange == None &&
              config.headers == old(config.headers)["Authorization" := Bearer(access.value)] &&
              w.storage == old(w.storage) && w.navigations == old(w.navigations)
    // An expired token with a refresh token: the refresh token is sent as
    // bearer; a successful exchange replaces both stored tokens and attaches
    // the new access token, and a failed one clears both keys, sends the page
    // to /login and rejects the request.
    ensures var access := old(w.GetItem(Browser.AccessTokenKey));
            var refresh := old(w.GetItem(Browser.RefreshTokenKey));
            Present(access) && Expired(jwtDecode, access.value, nowMs) == Success(true) && Present(refresh) ==>
              exchange == Some(Bearer(refresh.value)) &&
              if reply.Refreshed? && !Js.Nullish(reply.data) then
                var newAccess := Js.Prop(reply.data, "accessToken").value;
                var newRefresh := Js.Prop(reply.data, "refreshToken").value;
                result == Success(()) &&
                w.storage == old(w.storage)[Browser.AccessTokenKey := Js.ToJsString(newAccess)]
                                           [Browser.RefreshTokenKey := Js.ToJsString(newRefresh)] &&
                config.headers == old(config.headers)["Authorization" := Bearer(Js.ToJsString(newAccess))] &&
                w.navigations == old(w.navigations)
              else
                result == Failure(if reply.RefreshRejected? then reply.error else Js.TypeError) &&
                w.storage == old(w.storage) - {Browser.AccessTokenKey, Browser.RefreshTokenKey} &&
                w.navigations == old(w.navigations) + [Browser.PageLoad("/login")] &&
                config.headers == old(config.headers)
  {
    exchange := None;
    var access := w.GetItem(Browser.AccessTokenKey);
    if !Present(access) {
      return Success(()), None;
    }
    var expired := Expired(jwtDecode, access.value, nowMs);
    if expired.Failure? {
      return Failure(expired.error), None;
    }
    if expired.value {
      var refresh := w.GetItem(Browser.RefreshTokenKey);
      if Present(refresh) {
        exchange := Some(Bearer(refresh.value));
        var failure: Js.Exception;
        match reply {
          case Refreshed(data) =>
            var newAccess := Js.Prop(data, "accessToken");
            if newAccess.Success? {
              var newRefresh := Js.Prop(data, "refreshToken");
              w.SetItem(Browser.AccessTokenKey, newAccess.value);
              w.SetItem(Browser.RefreshTokenKey, newRefresh.value);
              config.headers := config.headers["Authorization" := Bearer(Js.ToJsString(newAccess.value))];
              return Success(()), exchange;
            }
            failure := newAccess.error;
          case RefreshRejected(e) =>
            failure := e;
        }
        w.ClearCredentialsAndLeave();
        return Failure(failure), exchange;
      }
    }
    config.headers := config.headers["Authorization" := Bearer(access.value)];
    result := Success(());
  }

  /** The error interceptor: a 401 clears both keys and sends the page to
      /login; any other error leaves the browser alone. Every error is passed
      on as the rejection. */
  method InterceptResponseError(w: Browser.Window, error: HttpError) returns (rejection: HttpError)
    modifies w
    ensures rejection == error
    ensures error.status == Some(401) ==>
              w.storage == old(w.storage) - {Browser.AccessTokenKey, Browser.RefreshTokenKey} &&
              w.navigations == old(w.navigations) + [Browser.PageLoad("/login")]
    ensures error.status != Some(401) ==>
              w.storage == old(w.storage) && w.navigations == old(w.navigations)
  {
    if error.status == Some(401) {
      w.ClearCredentialsAndLeave();
    }
    rejection := error;
  }
}
