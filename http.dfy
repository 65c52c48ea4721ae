/** The signed POST wrapper (src/lib/http.ts): `postJson` and `postFormData`.
    The two build-time settings, URL resolution, the clock, the MAC,
    `JSON.stringify` and `fetch` are inputs; each sender returns the request it
    handed to `fetch` (if any) and how its promise settles. */
module Http {
  import opened Wrappers
  import Text
  import Js
  import Signing
  import Utf8

  /** `VITE_API_BASE_URL` and `VITE_API_KEY`; `None` when the variable is unset. */
  datatype Config = Config(apiBase: Option<string>, apiKey: Option<string>)

  /** A setting that `!setting` treats as present: defined and non-empty. */
  predicate IsSet(setting: Option<string>) {
    setting.Some? && setting.value != ""
  }

  /** `apiKey || ''` */
  function KeyHeader(apiKey: Option<string>): (h: string)
    ensures IsSet(apiKey) ==> h == apiKey.value
    ensures !IsSet(apiKey) ==> h == ""
  {
    if IsSet(apiKey) then apiKey.value else ""
  }

  /** The parts of a resolved `URL` that the senders use. */
  datatype Url = Url(href: string, pathname: string, search: string)

  datatype Body = JsonText(text: string) | Multipart(formData: Js.Value)

  /** What is handed to `fetch`: always a POST with `credentials: 'include'`. */
  datatype Request = Request(verb: string, url: string, headers: map<string, string>, body: Body, credentials: string)

  /** A settled `fetch`: the status, the `content-type` header (`None` for a
      missing header), and how `res.text()` and `res.json()` would settle. */
  datatype Response = Response(ok: bool, status: int, contentType: Option<string>,
                               text: Result<string, Js.Exception>, json: Result<Js.Value, Js.Exception>)

  const BaseNotSet := "VITE_API_BASE_URL is not set"

  /** `ensureBaseConfigured()`: throws unless the base URL is set. */
  function EnsureBaseConfigured(config: Config): (r: Result<(), Js.Exception>)
    ensures r.Success? <==> IsSet(config.apiBase)
    ensures r.Failure? ==> r.error == Js.Error(BaseNotSet)
  {
    if !IsSet(config.apiBase) then Failure(Js.Error(BaseNotSet)) else Success(())
  }

  /** The message of the error thrown for a non-ok response: the body text, or
      `Request failed: <status>` when the text is empty or cannot be read. */
  function FailureMessage(res: Response): (m: string)
    ensures res.text.Success? && res.text.value != "" ==> m == res.text.value
    ensures !(res.text.Success? && res.text.value != "") ==> m == "Request failed: " + Text.IntToDecimal(res.status)
    ensures m != ""
  {
    var text := match res.text case Success(t) => t case Failure(_) => "";
    if text != "" then text else "Request failed: " + Text.IntToDecimal(res.status)
  }

  /** How the sender's promise settles once `fetch` has settled: a rejected
      fetch is passed on; a non-ok status throws; an ok response is read as JSON
      exactly when its content type mentions `application/json`, and as text
      otherwise. */
  function Settle(reply: Result<Response, Js.Exception>): (r: Result<Js.Value, Js.Exception>)
    ensures reply.Failure? ==> r == Failure(reply.error)
    ensures reply.Success? && !reply.value.ok ==> r == Failure(Js.Error(FailureMessage(reply.value)))
    ensures reply.Success? && reply.value.ok && Text.Contains(reply.value.contentType.GetOr(""), "application/json") ==>
              r == reply.value.json
    ensures reply.Success? && reply.value.ok && !Text.Contains(reply.value.contentType.GetOr(""), "application/json") ==>
              (r.Success? <==> reply.value.text.Success?) &&
              (r.Success? ==> r.value == Js.Str(reply.value.text.value))
  {
    match reply
    case Failure(e) => Failure(e)
    case Success(res) =>
      if !res.ok then Failure(Js.Error(FailureMessage(res)))
      else
        var ct := res.contentType.GetOr("");
        if Text.Contains(ct, "application/json") then res.json
        else match res.text
          case Success(t) => Success(Js.Str(t))
          case Failure(e) => Failure(e)
  }

  /** A response with a non-ok status never yields a value, and the error it
      throws always carries a non-empty message. */
  lemma NonOkAlwaysThrows(res: Response)
    requires !res.ok
    ensures Settle(Success(res)).Failure?
    ensures Settle(Success(res)).error.Error? && Settle(Success(res)).error.message != ""
  {
  }

  /** The header record of a JSON post: the content type and the API key,
      then, for a signed request, the timestamp and the signature written into
      it. */
  method JsonHeaders(apiKey: Option<string>, signed: Option<Signing.Signed>) returns (headers: map<string, string>)
    ensures signed.None? ==> headers.Keys == {"Content-Type", "x-api-key"}
    ensures signed.Some? ==>
              headers.Keys == {"Content-Type", "x-api-key", "x-request-timestamp", "x-signature"} &&
              headers["x-request-timestamp"] == signed.value.timestamp &&
              headers["x-signature"] == signed.value.signature
    ensures "Content-Type" in headers && headers["Content-Type"] == "application/json"
    ensures "x-api-key" in headers && headers["x-api-key"] == KeyHeader(apiKey)
  {
    headers := map["Content-Type" := "application/json", "x-api-key" := KeyHeader(apiKey)];
    if signed.Some? {
      headers := headers["x-request-timestamp" := signed.value.timestamp];
      headers := headers["x-signature" := signed.value.signature];
    }
  }

  /** `postJson(path, body)`. */
  method PostJson(config: Config, resolve: (string, string) -> Option<Url>,
                  mac: (Utf8.Bytes, Utf8.Bytes) -> Utf8.Bytes, stringify: Js.Value -> string, nowMs: int,
                  fetch: Request -> Result<Response, Js.Exception>,
                  path: string, body: Js.Value)
    returns (sent: Option<Request>, result: Result<Js.Value, Js.Exception>)
    ensures !IsSet(config.apiBase) ==> sent == None && result == Failure(Js.Error(BaseNotSet))
    ensures IsSet(config.apiBase) && resolve(path, config.apiBase.value).None? ==>
              sent == None && result == Failure(Js.TypeError)
    ensures sent.Some? <==> IsSet(config.apiBase) && resolve(path, config.apiBase.value).Some?
    ensures sent.Some? ==>
              var url := resolve(path, config.apiBase.value).value;
              var h := sent.value.headers;
              && sent.value.verb == "POST" && sent.value.credentials == "include"
              && sent.value.url == url.href
              && (!IsSet(config.apiKey) ==> h.Keys == {"Content-Type", "x-api-key"})
              && (IsSet(config.apiKey) ==> h.Keys == {"Content-Type", "x-api-key", "x-request-timestamp", "x-signature"})
              && h["Content-Type"] == "application/json"
              && h["x-api-key"] == KeyHeader(config.apiKey)
              && (IsSet(config.apiKey) ==>
                    var signed := Signing.SignRequest(mac, stringify, "POST", url.pathname + url.search, body,
                                                      config.apiKey.value, nowMs);
                    h["x-request-timestamp"] == signed.timestamp && h["x-signature"] == signed.signature)
              && sent.value.body == JsonText(stringify(Js.Coalesce(body, Js.Obj([]))))
              && result == Settle(fetch(sent.value))
  {
    var configured := EnsureBaseConfigured(config);
    if configured.Failure? {
      return None, Failure(configured.error);
    }
    var resolved := resolve(path, config.apiBase.value);
    if resolved.None? {
      return None, Failure(Js.TypeError);
    }
    var url := resolved.value;
    var pathWithQuery := url.pathname + url.search;

    var signed := None;
    if IsSet(config.apiKey) {
      signed := Some(Signing.SignRequest(mac, stringify, "POST", pathWithQuery, body, config.apiKey.value, nowMs));
    }
    var headers := JsonHeaders(config.apiKey, signed);

    var request := Request("POST", url.href, headers, JsonText(stringify(Js.Coalesce(body, Js.Obj([])))), "include");
    sent := Some(request);
    result := Settle(fetch(request));
  }

  /** `postFormData(path, formData)`: the only header is the API key; the body
      is neither signed nor given a content type. */
  method PostFormData(config: Config, resolve: (string, string) -> Option<Url>,
                      fetch: Request -> Result<Response, Js.Exception>,
                      path: string, formData: Js.Value)
    returns (sent: Option<Request>, result: Result<Js.Value, Js.Exception>)
    ensures !IsSet(config.apiBase) ==> sent == None && result == Failure(Js.Error(BaseNotSet))
    ensures IsSet(config.apiBase) && resolve(path, config.apiBase.value).None? ==>
              sent == None && result == Failure(Js.TypeError)
    ensures sent.Some? <==> IsSet(config.apiBase) && resolve(path, config.apiBase.value).Some?
    ensures sent.Some? ==>
              && sent.value == Request("POST", resolve(path, config.apiBase.value).value.href,
                                       map["x-api-key" := KeyHeader(config.apiKey)], Multipart(formData), "include")
              && result == Settle(fetch(sent.value))
  {
    var configured := EnsureBaseConfigured(config);
    if configured.Failure? {
      return None, Failure(configured.error);
    }
    var resolved := resolve(path, config.apiBase.value);
    if resolved.None? {
      return None, Failure(Js.TypeError);
    }
    var headers := map["x-api-key" := KeyHeader(config.apiKey)];
    var request := Request("POST", resolved.value.href, headers, Multipart(formData), "include");
    sent := Some(request);
    result := Settle(fetch(request));
  }

  /** The body sent is `JSON.stringify(body ?? {})` while the one signed is
      `JSON.stringify(body || {})`: they serialise the same value exactly when
      the body is truthy or nullish, and differ for false, 0, NaN and ''. */
  lemma SentBodyIsSignedBodyIff(body: Js.Value)
    ensures Js.Coalesce(body, Js.Obj([])) == Signing.SignedBody(body) <==> Js.Truthy(body) || Js.Nullish(body)
  {
  }
}
