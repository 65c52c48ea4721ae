/** The session-based auth provider (src/context/AuthContext.jsx): the user
    comes from `GET /auth/me`, and the provider's `currentUser` and `isLoading`
    state are fields. `loadingUpdates` lists the values passed to
    `setIsLoading`, in order. The HTTP replies are inputs; a rejection carries
    the error's `message` property. */
module SessionAuth {
  import opened Wrappers
  import Js
  import Browser

  const DefaultLoginError := "Error al iniciar sesión"

  /** What `loginUser` resolves to: `{success: true, data}` or
      `{success: false, error}`. */
  datatype LoginResult = LoginSucceeded(data: Js.Value) | LoginFailed(error: Js.Value)

  class AuthProvider {
    var currentUser: Js.Value
    var isLoading: bool
    var loadingUpdates: seq<bool>

    constructor ()
      ensures currentUser == Js.Null && isLoading && loadingUpdates == []
    {
      currentUser := Js.Null;
      isLoading := true;
      loadingUpdates := [];
    }

    /** `checkAuthStatus()`: loading is switched on first and off at the end
        whatever the outcome; the user becomes the response, or null on any
        failure. It never throws. */
    method CheckAuthStatus(meReply: Result<Js.Value, Js.Value>)
      modifies this
      ensures loadingUpdates == old(loadingUpdates) + [true, false] && !isLoading
      ensures meReply.Success? ==> currentUser == meReply.value
      ensures meReply.Failure? ==> currentUser == Js.Null
    {
      isLoading := true;
      loadingUpdates := loadingUpdates + [true];
      if meReply.Success? {
        currentUser := meReply.value;
      } else {
        currentUser := Js.Null;
      }
      isLoading := false;
      loadingUpdates := loadingUpdates + [false];
    }

    /** `loginUser(credentials)`: never throws. A successful login post reports
        success even when the identity check that follows fails and leaves no
        user; a failed one reports its message, or the default message when
        that is empty or missing, and touches nothing. */
    method LoginUser(loginReply: Result<Js.Value, Js.Value>, meReply: Result<Js.Value, Js.Value>)
      returns (r: LoginResult)
      modifies this
      ensures loginReply.Success? ==>
                r == LoginSucceeded(loginReply.value) &&
                loadingUpdates == old(loadingUpdates) + [true, false] && !isLoading &&
                currentUser == (if meReply.Success? then meReply.value else Js.Null)
      ensures loginReply.Failure? ==>
                r == LoginFailed(if Js.Truthy(loginReply.error) then loginReply.error else Js.Str(DefaultLoginError)) &&
                currentUser == old(currentUser) && isLoading == old(isLoading) &&
                loadingUpdates == old(loadingUpdates)
    {
      if loginReply.Failure? {
        return LoginFailed(Js.Or(loginReply.error, Js.Str(DefaultLoginError)));
      }
      CheckAuthStatus(meReply);
      r := LoginSucceeded(loginReply.value);
    }

    /** `logoutUser()`: the server's answer to the logout post is ignored; the
        user is always cleared and the router sent to /login. */
    method LogoutUser(w: Browser.Window, serverReply: Result<Js.Value, Js.Value>)
      modifies this, w
      ensures currentUser == Js.Null
      ensures isLoading == old(isLoading) && loadingUpdates == old(loadingUpdates)
      ensures w.storage == old(w.storage)
      ensures w.navigations == old(w.navigations) + [Browser.RouterPush("/login")]
    {
      currentUser := Js.Null;
      w.Navigate(Browser.RouterPush("/login"));
    }
  }
}
