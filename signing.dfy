/** `signRequest` (src/lib/security/signing.ts and its .js twin): the canonical
    payload `METHOD \n path \n timestamp \n json(body || {})`, signed with
    HMAC-SHA-256 keyed by the API key. The clock reading, the MAC and
    `JSON.stringify` are parameters. */
module Signing {
  import opened Wrappers
  import Text
  import Js
  import Hmac
  import Utf8

  /** What `signRequest` resolves to. */
  datatype Signed = Signed(timestamp: string, signature: string)

  /** A serialiser in compact form never writes a raw line feed (JSON escapes
      one inside a string as `\n`). */
  ghost predicate IsCompact(stringify: Js.Value -> string) {
    forall v :: '\n' !in stringify(v)
  }

  /** `Math.floor(nowMs / 1000).toString()`: whole seconds since the epoch, in
      decimal. The number it spells is the floor of the division. */
  function Timestamp(nowMs: int): (ts: string)
    ensures Text.ParseInt(ts).Some?
    ensures Text.ParseInt(ts).value * 1000 <= nowMs < Text.ParseInt(ts).value * 1000 + 1000
    ensures '\n' !in ts
    // The canonical spelling: no sign for a time at or after the epoch, and
    // no leading zero except in "0".
    ensures nowMs >= 0 ==> |ts| >= 1 && Text.AllDigits(ts) && (ts[0] == '0' ==> ts == "0")
    ensures nowMs < 0 ==> |ts| >= 2 && ts[0] == '-' && Text.AllDigits(ts[1..]) && ts[1] != '0'
  {
    var seconds := nowMs / 1000;
    Text.ParseIntOfDecimal(seconds);
    Text.IntToDecimal(seconds)
  }

  /** The body as signed: `body || {}`, so every falsy body becomes `{}`. */
  function SignedBody(body: Js.Value): (b: Js.Value)
    ensures !Js.Truthy(body) ==> b == Js.Obj([])
    ensures Js.Truthy(body) ==> b == body
  {
    Js.Or(body, Js.Obj([]))
  }

  /** The string that is signed. */
  function Payload(stringify: Js.Value -> string, verb: string, path: string, ts: string, body: Js.Value): string {
    Text.Upper(verb) + "\n" + path + "\n" + ts + "\n" + stringify(SignedBody(body))
  }

  /** `signRequest(method, path, body, apiKey)` at the clock reading `nowMs`. The
      signature is the MAC, keyed with the API key, of the payload that embeds
      the very timestamp returned; under a 32-byte MAC it is 64 lowercase hex
      characters. */
  function SignRequest(mac: (Utf8.Bytes, Utf8.Bytes) -> Utf8.Bytes, stringify: Js.Value -> string,
                       verb: string, path: string, body: Js.Value, apiKey: string, nowMs: int): (r: Signed)
    ensures r.timestamp == Timestamp(nowMs)
    ensures Hmac.DecodeHex(r.signature) ==
            Some(mac(Utf8.Encode(apiKey), Utf8.Encode(Payload(stringify, verb, path, r.timestamp, body))))
    ensures Hmac.AllLowerHex(r.signature)
    ensures Hmac.IsMac(mac) ==> |r.signature| == 64
  {
    var ts := Timestamp(nowMs);
    var payload := Payload(stringify, verb, path, ts, body);
    Signed(ts, Hmac.HmacSha256Hex(mac, apiKey, payload))
  }

  /** Four line-feed-free lines joined by line feeds split back into those
      four lines. */
  lemma SplitFourLines(a: string, b: string, c: string, d: string)
    requires '\n' !in a && '\n' !in b && '\n' !in c && '\n' !in d
    ensures Text.Split(a + "\n" + b + "\n" + c + "\n" + d, '\n') == [a, b, c, d]
  {
    var t2 := c + ['\n'] + d;
    var t1 := b + ['\n'] + t2;
    Text.JoinedThree(a, b, c, d, '\n');
    Text.SplitAfterSeparator(a, t1, '\n');
    Text.SplitAfterSeparator(b, t2, '\n');
    Text.SplitAfterSeparator(c, d, '\n');
  }

  /** When neither the method nor the path holds a line feed and the JSON is
      compact, splitting the payload on line feeds gives back its four fields in
      order: the upper-cased method, the path, the timestamp and the body. */
  lemma PayloadFields(stringify: Js.Value -> string, verb: string, path: string, body: Js.Value, nowMs: int)
    requires '\n' !in verb && '\n' !in path
    requires IsCompact(stringify)
    ensures Text.Split(Payload(stringify, verb, path, Timestamp(nowMs), body), '\n') ==
            [Text.Upper(verb), path, Timestamp(nowMs), stringify(SignedBody(body))]
  {
    var json := stringify(SignedBody(body));
    assert '\n' !in json;
    assert '\n' !in Text.Upper(verb) by {
      forall i | 0 <= i < |verb| ensures Text.Upper(verb)[i] != '\n' {
        assert verb[i] != '\n';
      }
    }
    SplitFourLines(Text.Upper(verb), path, Timestamp(nowMs), json);
  }

  /** The timestamp returned is the third line of the payload that was signed. */
  lemma ReturnedTimestampIsSigned(mac: (Utf8.Bytes, Utf8.Bytes) -> Utf8.Bytes, stringify: Js.Value -> string,
                                  verb: string, path: string, body: Js.Value, apiKey: string, nowMs: int)
    requires '\n' !in verb && '\n' !in path
    requires IsCompact(stringify)
    ensures var r := SignRequest(mac, stringify, verb, path, body, apiKey, nowMs);
            var lines := Text.Split(Payload(stringify, verb, path, r.timestamp, body), '\n');
            |lines| == 4 && lines[2] == r.timestamp
  {
    var r := SignRequest(mac, stringify, verb, path, body, apiKey, nowMs);
    assert r.timestamp == Timestamp(nowMs);
    PayloadFields(stringify, verb, path, body, nowMs);
  }

  /** The method's letter case does not matter: 'post' and 'POST' sign alike. */
  lemma PostSignsAsPost(mac: (Utf8.Bytes, Utf8.Bytes) -> Utf8.Bytes, stringify: Js.Value -> string,
                        path: string, body: Js.Value, apiKey: string, nowMs: int)
    ensures SignRequest(mac, stringify, "post", path, body, apiKey, nowMs) ==
            SignRequest(mac, stringify, "POST", path, body, apiKey, nowMs)
  {
    assert Text.Upper("post") == "POST";
    assert Text.Upper("POST") == "POST";
  }

  /** More generally, methods that upper-case alike sign alike. */
  lemma MethodCaseIrrelevant(mac: (Utf8.Bytes, Utf8.Bytes) -> Utf8.Bytes, stringify: Js.Value -> string,
                             m1: string, m2: string, path: string, body: Js.Value, apiKey: string, nowMs: int)
    requires Text.Lower(m1) == Text.Lower(m2)
    ensures SignRequest(mac, stringify, m1, path, body, apiKey, nowMs) ==
            SignRequest(mac, stringify, m2, path, body, apiKey, nowMs)
  {
    assert Text.Upper(m1) == Text.Upper(m2) by {
      assert |m1| == |m2|;
      forall i | 0 <= i < |m1| ensures Text.UpperChar(m1[i]) == Text.UpperChar(m2[i]) {
        assert Text.LowerChar(m1[i]) == Text.LowerChar(m2[i]);
      }
    }
  }

  /** Every falsy body (undefined, null, false, 0, NaN, '') signs exactly as `{}`. */
  lemma FalsyBodySignsAsEmptyObject(mac: (Utf8.Bytes, Utf8.Bytes) -> Utf8.Bytes, stringify: Js.Value -> string,
                                    verb: string, path: string, body: Js.Value, apiKey: string, nowMs: int)
    requires !Js.Truthy(body)
    ensures SignRequest(mac, stringify, verb, path, body, apiKey, nowMs) ==
            SignRequest(mac, stringify, verb, path, Js.Obj([]), apiKey, nowMs)
  {
  }
}
