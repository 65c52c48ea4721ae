/** The token-based auth provider (src/contexts/AuthContext.jsx): the local
    validity check of the stored access token, `login`, `logout` and the
    bootstrap `verifyAuth`. The provider's `user` and `loadingAuth` state are
    fields; the HTTP replies, `JSON.parse(atob(…))` and the clock are inputs. */
module TokenAuth {
  import opened Wrappers
  import Text
  import Js
  import Tokens
  import Browser
  import ApiClient

  /** `token.split('.')[1]`, the payload segment of a JWS compact serialisation
      (section 7.1 of RFC 7515). With no '.' the element is undefined, which
      `atob` receives as the string "undefined". */
  function PayloadSegment(token: string): (seg: string)
    ensures '.' in token ==> seg == Text.Split(token, '.')[1]
    ensures '.' !in token ==> seg == "undefined"
  {
    var parts := Text.Split(token, '.');
    if |parts| > 1 then parts[1] else Js.ToJsString(Js.Undefined)
  }

  /** Header, payload and signature joined by dots: the payload segment is the
      middle one. */
  lemma PayloadSegmentOfCompact(header: string, payload: string, signature: string)
    requires '.' !in header && '.' !in payload && '.' !in signature
    ensures PayloadSegment(header + "." + payload + "." + signature) == payload
  {
    var token := header + "." + payload + "." + signature;
    assert token == header + ['.'] + (payload + ['.'] + signature);
    Text.SplitAfterSeparator(header, payload + ['.'] + signature, '.');
    Text.SplitAfterSeparator(payload, signature, '.');
    assert '.' in token by {
      assert token[|header|] == '.';
    }
  }

  /** `decoded.exp` of the parsed payload segment; `parse` stands for
      `JSON.parse(atob(…))` and fails when either throws. */
  function ClaimedExp(parse: string -> Result<Js.Value, Js.Exception>, token: string): Result<Option<int>, Js.Exception> {
    var decoded :- parse(PayloadSegment(token));
    Tokens.Exp(decoded)
  }

  /** `isTokenValid(token)`: false for an absent or empty token and whenever a
      step throws (the check fails closed); otherwise whether the token's `exp`,
      in seconds, lies after the current time. */
  function IsTokenValid(parse: string -> Result<Js.Value, Js.Exception>, token: Option<string>, nowMs: int): (valid: bool)
    ensures !ApiClient.Present(token) ==> !valid
    ensures ApiClient.Present(token) && ClaimedExp(parse, token.value).Failure? ==> !valid
    ensures valid <==> ApiClient.Present(token) && ClaimedExp(parse, token.value).Success? &&
                       var exp := ClaimedExp(parse, token.value).value;
                       exp.Some? && exp.value * 1000 > nowMs
  {
    if !ApiClient.Present(token) then false
    else match ClaimedExp(parse, token.value)
      case Failure(_) => false
      case Success(exp) =>
        Tokens.IsLiveInMilliseconds(exp, nowMs);
        Tokens.IsLive(exp, nowMs)
  }

  class AuthProvider {
    var user: Js.Value
    var loadingAuth: bool

    constructor ()
      ensures user == Js.Null && loadingAuth
    {
      user := Js.Null;
      loadingAuth := true;
    }

    /** `login(credentials)`. `loginReply` is the `data` of the login response
        and `meReply` that of `GET /users/me`; `meAuthorization` is the header
        the identity call carried, `None` when it was not made. Both tokens
        are stored before the identity call, and stay stored when it fails;
        every failure is rethrown. */
    method Login(w: Browser.Window, loginReply: Result<Js.Value, Js.Exception>, meReply: Result<Js.Value, Js.Exception>)
      returns (result: Result<Js.Value, Js.Exception>, meAuthorization: Option<string>)
      modifies this, w
      ensures loadingAuth == old(loadingAuth)
      ensures loginReply.Failure? ==>
                result == Failure(loginReply.error) && meAuthorization == None &&
                user == old(user) && w.storage == old(w.storage) && w.navigations == old(w.navigations)
      ensures loginReply.Success? && Js.Nullish(loginReply.value) ==>
                result == Failure(Js.TypeError) && meAuthorization == None &&
                user == old(user) && w.storage == old(w.storage) && w.navigations == old(w.navigations)
      ensures loginReply.Success? && !Js.Nullish(loginReply.value) ==>
                var data := loginReply.value;
                var accessToken := Js.Prop(data, "accessToken").value;
                var refreshToken := Js.Prop(data, "refreshToken").value;
                && w.storage == old(w.storage)[Browser.AccessTokenKey := Js.ToJsString(accessToken)]
                                              [Browser.RefreshTokenKey := Js.ToJsString(refreshToken)]
                && meAuthorization == Some(ApiClient.Bearer(Js.ToJsString(accessToken)))
                && if meReply.Success? && !Js.Nullish(meReply.value) then
                     var me := Js.Prop(meReply.value, "user").value;
                     result == Success(me) && user == me &&
                     w.navigations == old(w.navigations) + [Browser.PageLoad("/dashboard")]
                   else
                     result == Failure(if meReply.Failure? then meReply.error else Js.TypeError) &&
                     user == old(user) && w.navigations == old(w.navigations)
    {
      meAuthorization := None;
      if loginReply.Failure? {
        return Failure(loginReply.error), None;
      }
      var data := loginReply.value;
      var accessToken := Js.Prop(data, "accessToken");
      if accessToken.Failure? {
        return Failure(accessToken.error), None;
      }
      var refreshToken := Js.Prop(data, "refreshToken");
      w.SetItem(Browser.AccessTokenKey, accessToken.value);
      w.SetItem(Browser.RefreshTokenKey, refreshToken.value);
      meAuthorization := Some(ApiClient.Bearer(Js.ToJsString(accessToken.value)));
      if meReply.Failure? {
        return Failure(meReply.error), meAuthorization;
      }
      var me := Js.Prop(meReply.value, "user");
      if me.Failure? {
        return Failure(me.error), meAuthorization;
      }
      user := me.value;
      w.Navigate(Browser.PageLoad("/dashboard"));
      result := Success(me.value);
    }

    /** `logout()`: both keys removed, no user, and a page load of /login. */
    method Logout(w: Browser.Window)
      modifies this, w
      ensures user == Js.Null && loadingAuth == old(loadingAuth)
      ensures w.storage == old(w.storage) - {Browser.AccessTokenKey, Browser.RefreshTokenKey}
      ensures w.navigations == old(w.navigations) + [Browser.PageLoad("/login")]
    {
      w.RemoveItem(Browser.AccessTokenKey);
      w.RemoveItem(Browser.RefreshTokenKey);
      user := Js.Null;
      w.Navigate(Browser.PageLoad("/login"));
    }

    /** The bootstrap `verifyAuth()`: the identity endpoint is called only for a
        stored token that passes `isTokenValid`; a failed call logs out; the
        provider always ends with `loadingAuth` false. */
    method VerifyAuth(w: Browser.Window, parse: string -> Result<Js.Value, Js.Exception>, nowMs: int,
                      meReply: Result<Js.Value, Js.Exception>)
      returns (meAuthorization: Option<string>)
      modifies this, w
      ensures !loadingAuth
      ensures var token := old(w.GetItem(Browser.AccessTokenKey));
              !IsTokenValid(parse, token, nowMs) ==>
                meAuthorization == None && user == old(user) &&
                w.storage == old(w.storage) && w.navigations == old(w.navigations)
      ensures var token := old(w.GetItem(Browser.AccessTokenKey));
              IsTokenValid(parse, token, nowMs) ==>
                meAuthorization == Some(ApiClient.Bearer(token.value)) &&
                if meReply.Success? && !Js.Nullish(meReply.value) then
                  user == Js.Prop(meReply.value, "user").value &&
                  w.storage == old(w.storage) && w.navigations == old(w.navigations)
                else
                  user == Js.Null &&
                  w.storage == old(w.storage) - {Browser.AccessTokenKey, Browser.RefreshTokenKey} &&
                  w.navigations == old(w.navigations) + [Browser.PageLoad("/login")]
    {
      meAuthorization := None;
      var token := w.GetItem(Browser.AccessTokenKey);
      if ApiClient.Present(token) && IsTokenValid(parse, token, nowMs) {
        meAuthorization := Some(ApiClient.Bearer(token.value));
        var me := if meReply.Success? then Js.Prop(meReply.value, "user") else Failure(meReply.error);
        if me.Success? {
          user := me.value;
        } else {
          Logout(w);
        }
      }
      loadingAuth := false;
    }
  }
}
