/** The browser state the session logic touches: `localStorage` as a map from
    keys to strings, and a log of the navigations requested, either a full page
    load (`window.location.href = …`) or a router push (`navigate(…)`). */
module Browser {
  import opened Wrappers
  import Js

  /** The two keys of the credential store. */
  const AccessTokenKey := "bskmt_accessToken"
  const RefreshTokenKey := "bskmt_refreshToken"

  datatype Navigation = PageLoad(href: string) | RouterPush(path: string)

  class Window {
    var storage: map<string, string>
    var navigations: seq<Navigation>

    constructor (stored: map<string, string>)
      ensures storage == stored && navigations == []
    {
      storage := stored;
      navigations := [];
    }

    /** `localStorage.getItem(key)`: `None` stands for null. */
    function GetItem(key: string): (r: Option<string>)
      reads this
      ensures r.Some? <==> key in storage
      ensures r.Some? ==> r.value == storage[key]
    {
      if key in storage then Some(storage[key]) else None
    }

    /** `localStorage.setItem(key, value)`: the value is stored as `String(value)`,
        so an undefined token is stored as the string "undefined". */
    method SetItem(key: string, value: Js.Value)
      modifies this
      ensures storage == old(storage)[key := Js.ToJsString(value)]
      ensures navigations == old(navigations)
    {
      storage := storage[key := Js.ToJsString(value)];
    }

    /** `localStorage.removeItem(key)` */
    method RemoveItem(key: string)
      modifies this
      ensures storage == old(storage) - {key}
      ensures navigations == old(navigations)
    {
      storage := storage - {key};
    }

    /** Records a navigation. */
    method Navigate(to: Navigation)
      modifies this
      ensures storage == old(storage)
      ensures navigations == old(navigations) + [to]
    {
      navigations := navigations + [to];
    }

    /** Removes both credentials and sends the page to /login, as the refresh
        failure, the 401 handler and `logout` all do. */
    method ClearCredentialsAndLeave()
      modifies this
      ensures storage == old(storage) - {AccessTokenKey, RefreshTokenKey}
      ensures navigations == old(navigations) + [PageLoad("/login")]
    {
      RemoveItem(AccessTokenKey);
      RemoveItem(RefreshTokenKey);
      Navigate(PageLoad("/login"));
    }
  }
}
