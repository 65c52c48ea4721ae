/** The JavaScript values the core handles, with the language's rules for
    truthiness, `||`, `??`, `typeof x === 'object'`, property reads, object spread
    (`{...v}`), array spread (`[...v]`) and the array copies the form handlers make.
    An object is the ordered list of its own properties. */
module Js {
  import opened Wrappers
  import Text

  /** Numbers are integral (NaN apart): floating point is not modelled. */
  datatype Value =
    | Undefined
    | Null
    | Bool(b: bool)
    | Num(n: int)
    | NaN
    | Str(s: string)
    | Arr(items: seq<Value>)
    | Obj(props: seq<(string, Value)>)

  type Props = seq<(string, Value)>

  /** What a throw carries: an `Error` with its message, or a `TypeError` or
      `RangeError` raised by the engine itself (whose message the engine
      chooses). */
  datatype Exception = Error(message: string) | TypeError | RangeError

  predicate Truthy(v: Value) {
    match v
    case Undefined => false
    case Null => false
    case Bool(b) => b
    case Num(n) => n != 0
    case NaN => false
    case Str(s) => s != ""
    case Arr(_) => true
    case Obj(_) => true
  }

  predicate Nullish(v: Value) {
    v.Undefined? || v.Null?
  }

  /** `typeof v === 'object'`, which holds for null as well. */
  predicate IsObjectType(v: Value) {
    v.Null? || v.Arr? || v.Obj?
  }

  /** `a || b` */
  function Or(a: Value, b: Value): Value {
    if Truthy(a) then a else b
  }

  /** `a ?? b` */
  function Coalesce(a: Value, b: Value): Value {
    if Nullish(a) then b else a
  }

  /** `String(v)`, as a template literal or `localStorage.setItem` converts its
      argument: an array joins its elements with commas (undefined and null
      elements as empty strings), and any object reads `[object Object]`. */
  function ToJsString(v: Value): string
    decreases v, 0
  {
    match v
    case Undefined => "undefined"
    case Null => "null"
    case Bool(b) => if b then "true" else "false"
    case Num(n) => Text.IntToDecimal(n)
    case NaN => "NaN"
    case Str(s) => s
    case Arr(items) => Text.Join(seq(|items|, i requires 0 <= i < |items| => ElementString(items[i])), ',')
    case Obj(_) => "[object Object]"
  }

  function ElementString(v: Value): string
    decreases v, 1
  {
    if Nullish(v) then "" else ToJsString(v)
  }

  /** The number that arithmetic or a comparison reads from `v` (`ToNumber`),
      `None` for NaN. A string, an array or an object is read as NaN here. */
  function ToNumber(v: Value): (r: Option<int>)
    ensures v.Num? ==> r == Some(v.n)
    ensures v.Undefined? || v.NaN? ==> r == None
  {
    match v
    case Num(n) => Some(n)
    case Bool(b) => Some(if b then 1 else 0)
    case Null => Some(0)
    case _ => None
  }

  // ---------------------------------------------------------------------------
  // Objects as ordered property lists

  function Keys(p: Props): (ks: seq<string>)
    ensures |ks| == |p| && forall i :: 0 <= i < |p| ==> ks[i] == p[i].0
  {
    seq(|p|, i requires 0 <= i < |p| => p[i].0)
  }

  lemma KeysCons(p: Props)
    requires |p| > 0
    ensures Keys(p) == [p[0].0] + Keys(p[1..])
  {
  }

  /** The value of property `key`; undefined when there is none. */
  function Lookup(p: Props, key: string): Value {
    if |p| == 0 then Undefined
    else if p[0].0 == key then p[0].1
    else Lookup(p[1..], key)
  }

  /** The value of the first property named `key`. */
  lemma {:induction false} LookupAt(p: Props, i: nat, key: string)
    requires i < |p| && Keys(p)[i] == key && key !in Keys(p)[..i]
    ensures Lookup(p, key) == p[i].1
  {
    if i > 0 {
      assert Keys(p)[0] == p[0].0;
      assert Keys(p[1..]) == Keys(p)[1..];
      assert Keys(p)[..i][1..] == Keys(p[1..])[..i - 1];
      LookupAt(p[1..], i - 1, key);
    }
  }

  /** In a list whose values are all `v`, a present key reads `v`. */
  lemma {:induction false} AllEqual(p: Props, key: string, v: Value)
    requires key in Keys(p)
    requires forall i :: 0 <= i < |p| ==> p[i].1 == v
    ensures Lookup(p, key) == v
    decreases |p|
  {
    KeysCons(p);
    if p[0].0 != key {
      AllEqual(p[1..], key, v);
    }
  }

  /** A lookup in two property lists laid end to end finds the first one's
      property when it has one. */
  lemma {:induction false} LookupConcat(a: Props, b: Props, key: string)
    ensures Lookup(a + b, key) == if key in Keys(a) then Lookup(a, key) else Lookup(b, key)
    decreases |a|
  {
    if |a| == 0 {
      assert a + b == b;
    } else {
      assert (a + b)[0] == a[0];
      assert (a + b)[1..] == a[1..] + b;
      KeysCons(a);
      LookupConcat(a[1..], b, key);
    }
  }

  /** An object literal written out field by field: property `keys[i]` holds
      `f(keys[i])`. */
  function Build(keys: seq<string>, f: string -> Value): (p: Props)
    ensures Keys(p) == keys
  {
    seq(|keys|, i requires 0 <= i < |keys| => (keys[i], f(keys[i])))
  }

  /** Every field of a built literal reads its own value, even when a name is
      repeated. */
  lemma {:induction false} LookupBuild(keys: seq<string>, f: string -> Value, key: string)
    requires key in keys
    ensures Lookup(Build(keys, f), key) == f(key)
    decreases |keys|
  {
    if keys[0] != key {
      assert Build(keys, f)[1..] == Build(keys[1..], f);
      LookupBuild(keys[1..], f, key);
    }
  }

  /** The properties of `{...p, [key]: v}`: an existing `key` keeps its place and
      takes the new value, a new one is added last, and every other property
      keeps its value and its place. (JavaScript lists integer-like keys such as
      "0" first, in ascending order; the key order stated here holds for the
      other keys, which are the only ones the forms write.) */
  function Put(p: Props, key: string, v: Value): (r: Props)
    ensures Lookup(r, key) == v
    ensures forall k :: k != key ==> Lookup(r, k) == Lookup(p, k)
    ensures Keys(r) == if key in Keys(p) then Keys(p) else Keys(p) + [key]
  {
    if |p| == 0 then [(key, v)]
    else if p[0].0 == key then
      assert ([(key, v)] + p[1..])[1..] == p[1..];
      KeysCons(p);
      KeysCons([(key, v)] + p[1..]);
      [(key, v)] + p[1..]
    else
      var rest := Put(p[1..], key, v);
      assert ([p[0]] + rest)[1..] == rest;
      KeysCons(p);
      KeysCons([p[0]] + rest);
      [p[0]] + rest
  }

  function Chars(s: string): seq<Value> {
    seq(|s|, i requires 0 <= i < |s| => Str([s[i]]))
  }

  /** The indexed entries of an array: ("0", a[0]), ("1", a[1]), ... */
  function IndexEntries(items: seq<Value>): Props {
    seq(|items|, i requires 0 <= i < |items| => (Text.NatToDecimal(i), items[i]))
  }

  /** The own properties that `{...v}` copies: those of an object, the indexed
      elements of an array or the characters of a string; none for the others. */
  function Spread(v: Value): Props {
    match v
    case Obj(p) => p
    case Arr(items) => IndexEntries(items)
    case Str(s) => IndexEntries(Chars(s))
    case _ => []
  }

  /** `v[key]`: reading a property of undefined or null throws a TypeError; an
      object yields its own property; an array yields its length or an indexed
      element, and a string its length in UTF-16 code units or an indexed
      character; anything else reads as undefined. */
  function Prop(v: Value, key: string): Result<Value, Exception> {
    match v
    case Undefined => Failure(TypeError)
    case Null => Failure(TypeError)
    case Obj(p) => Success(Lookup(p, key))
    case Arr(items) => Success(if key == "length" then Num(|items|) else Lookup(IndexEntries(items), key))
    case Str(s) => Success(if key == "length" then Num(Text.Utf16Length(s)) else Lookup(IndexEntries(Chars(s)), key))
    case _ => Success(Undefined)
  }

  /** The property of a value that is known to be an object (the form state). */
  function Field(v: Value, key: string): Value {
    Lookup(Spread(v), key)
  }

  /** `[...v]`: the elements of an array or the characters of a string; any
      other value is not iterable and throws a TypeError. */
  function Iterate(v: Value): Result<seq<Value>, Exception> {
    match v
    case Arr(items) => Success(items)
    case Str(s) => Success(Chars(s))
    case _ => Failure(TypeError)
  }

  /** The receiver of a `String.prototype` method call (`v.replace(…)`,
      `v.toLowerCase()`, …): only a string has these methods; on any other value
      the call throws a TypeError. */
  function StringReceiver(v: Value): (r: Result<string, Exception>)
    ensures r.Success? <==> v.Str?
    ensures r.Success? ==> r.value == v.s
    ensures r.Failure? ==> r.error == TypeError
  {
    if v.Str? then Success(v.s) else Failure(TypeError)
  }

  // ---------------------------------------------------------------------------
  // Array copies

  /** `a[i]`, undefined outside the list. */
  function ElementAt(items: seq<Value>, i: int): Value {
    if 0 <= i < |items| then items[i] else Undefined
  }

  /** The list after `a[i] = v`. In range the element is replaced; past the end
      the list grows to `i + 1`, the gap reading as undefined; a negative index
      names a plain property and leaves the elements alone. */
  function StoreAt(items: seq<Value>, i: int, v: Value): (r: seq<Value>)
    ensures |r| >= |items|
    ensures 0 <= i < |items| ==> |r| == |items| && r[i] == v
    ensures i >= |items| ==> |r| == i + 1 && r[i] == v
    ensures forall j :: 0 <= j < |items| && j != i ==> r[j] == items[j]
    ensures forall j :: |items| <= j < |r| && j != i ==> r[j] == Undefined
    ensures i < 0 ==> r == items
  {
    if i < 0 then items
    else if i < |items| then items[i := v]
    else items + seq(i - |items|, _ => Undefined) + [v]
  }

  /** `a.filter((_, j) => j !== i)`: every element whose position is not `i`,
      in order. */
  function RemoveAt<T>(items: seq<T>, i: int): (r: seq<T>)
    ensures 0 <= i < |items| ==> r == items[..i] + items[i + 1..]
    ensures !(0 <= i < |items|) ==> r == items
  {
    if |items| == 0 then []
    else
      var rest := RemoveAt(items[1..], i - 1);
      assert 1 <= i < |items| ==> items[1..][..i - 1] == items[1..i];
      assert 1 <= i < |items| ==> items[1..][i..] == items[i + 1..];
      assert [items[0]] + items[1..] == items;
      (if i == 0 then [] else [items[0]]) + rest
  }

  /** The removed element and the remaining ones make up the list. */
  lemma SliceOutElements<T>(items: seq<T>, i: int)
    requires 0 <= i < |items|
    ensures multiset(items[..i] + items[i + 1..]) + multiset{items[i]} == multiset(items)
  {
    var before, after := items[..i], items[i + 1..];
    assert items == before + [items[i]] + after;
    calc {
      multiset(items);
      multiset(before + [items[i]]) + multiset(after);
      multiset(before) + multiset([items[i]]) + multiset(after);
    }
  }
}
