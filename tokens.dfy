/** The two readings of a token's `exp` claim (a NumericDate, in seconds, as in
    section 4.1.4 of RFC 7519) that the code makes: src/api/client.js calls a
    token expired when `exp * 1000 < Date.now()`, src/contexts/AuthContext.jsx
    calls it valid when `exp > Date.now() / 1000`. */
module Tokens {
  import opened Wrappers
  import Js

  /** `decoded.exp` read as a number: reading a property of a null or undefined
      payload throws, and a missing or non-numeric claim reads as NaN (`None`). */
  function Exp(decoded: Js.Value): (r: Result<Option<int>, Js.Exception>)
    ensures r.Failure? <==> Js.Nullish(decoded)
    ensures r.Failure? ==> r.error == Js.TypeError
    ensures decoded.Obj? ==> r == Success(Js.ToNumber(Js.Lookup(decoded.props, "exp")))
  {
    var e :- Js.Prop(decoded, "exp");
    Success(Js.ToNumber(e))
  }

  /** `decoded.exp * 1000 < Date.now()`: false whenever the product is NaN. */
  predicate IsExpired(exp: Option<int>, nowMs: int) {
    exp.Some? && exp.value * 1000 < nowMs
  }

  /** `decoded.exp > Date.now() / 1000`, with the division exact. */
  predicate IsLive(exp: Option<int>, nowMs: int) {
    exp.Some? && exp.value as real > nowMs as real / 1000.0
  }

  /** The seconds comparison is the milliseconds comparison scaled. */
  lemma IsLiveInMilliseconds(exp: Option<int>, nowMs: int)
    ensures IsLive(exp, nowMs) <==> exp.Some? && exp.value * 1000 > nowMs
  {
    if exp.Some? {
      var e := exp.value;
      assert e as real > nowMs as real / 1000.0 <==> (e * 1000) as real > nowMs as real;
    }
  }

  /** Once expired, a token stays expired at every later time. */
  lemma ExpiredStaysExpired(exp: Option<int>, nowMs: int, later: int)
    requires IsExpired(exp, nowMs) && nowMs <= later
    ensures IsExpired(exp, later)
  {
  }

  /** The two checks are complementary except at one instant: for a numeric
      `exp`, client.js treats the token as unexpired and AuthContext.jsx as
      invalid exactly when `exp * 1000 == now`; neither calls a token with no
      numeric `exp` expired or valid. */
  lemma ChecksDisagreeOnlyAtTheBoundary(exp: Option<int>, nowMs: int)
    ensures exp.Some? ==> (IsLive(exp, nowMs) == IsExpired(exp, nowMs) <==> exp.value * 1000 == nowMs)
    ensures exp.Some? ==> !(IsLive(exp, nowMs) && IsExpired(exp, nowMs))
    ensures exp.None? ==> !IsLive(exp, nowMs) && !IsExpired(exp, nowMs)
  {
    IsLiveInMilliseconds(exp, nowMs);
  }
}
