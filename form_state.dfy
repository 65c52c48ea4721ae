/** The nested object spreads the event forms write out by hand:
    `{...v, [k0]: {...v[k0], [k1]: {...v[k0][k1], [k2]: x}}}` and its shorter
    and longer forms. Each level copies the properties of the object it
    replaces and overrides one of them; the reads `v[k0]`, `v[k0][k1]`, …
    that feed the inner spreads throw a TypeError on undefined or null. */
module FormState {
  import opened Wrappers
  import Js

  /** The properties of the object the spreads build along `path`, which
      receives `x` at its end. */
  function SetIn(v: Js.Value, path: seq<string>, x: Js.Value): (r: Result<Js.Props, Js.Exception>)
    requires |path| >= 1
    ensures r.Failure? ==> r.error == Js.TypeError
    ensures r.Success? ==> Js.Keys(r.value) == Js.Keys(Js.Put(Js.Spread(v), path[0], x))
    decreases |path|
  {
    if |path| == 1 then Success(Js.Put(Js.Spread(v), path[0], x))
    else
      var child :- Js.Prop(v, path[0]);
      var inner :- SetIn(child, path[1..], x);
      Success(Js.Put(Js.Spread(v), path[0], Js.Obj(inner)))
  }

  /** `v[path[0]][path[1]]…`, with the engine's TypeError on a nullish step. */
  function At(v: Js.Value, path: seq<string>): Result<Js.Value, Js.Exception>
    decreases |path|
  {
    if |path| == 0 then Success(v)
    else
      var c :- Js.Prop(v, path[0]);
      At(c, path[1..])
  }

  /** Every value from `v` down to the parent of the leaf is a plain object. */
  predicate ObjectsAlong(v: Js.Value, path: seq<string>)
    decreases |path|
  {
    v.Obj? && (|path| > 1 ==> ObjectsAlong(Js.Lookup(v.props, path[0]), path[1..]))
  }

  /** The value read by the first `j` steps of `path` exists and is undefined
      or null. */
  predicate NullishAt(v: Js.Value, path: seq<string>, j: nat)
    requires j <= |path|
  {
    At(v, path[..j]).Success? && Js.Nullish(At(v, path[..j]).value)
  }

  /** Reading the path back from the built object yields `x`. */
  lemma {:induction false} SetInReadBack(v: Js.Value, path: seq<string>, x: Js.Value)
    requires |path| >= 1 && SetIn(v, path, x).Success?
    ensures At(Js.Obj(SetIn(v, path, x).value), path) == Success(x)
    decreases |path|
  {
    if |path| > 1 {
      var child := Js.Prop(v, path[0]).value;
      SetInReadBack(child, path[1..], x);
    }
  }

  /** Along a path of objects the spreads never throw. */
  lemma {:induction false} SetInSucceeds(v: Js.Value, path: seq<string>, x: Js.Value)
    requires |path| >= 1 && ObjectsAlong(v, path)
    ensures SetIn(v, path, x).Success?
    decreases |path|
  {
    if |path| > 1 {
      SetInSucceeds(Js.Lookup(v.props, path[0]), path[1..], x);
    }
  }

  /** The spreads throw exactly when a value they read on the way to the
      leaf's parent is undefined or null. */
  lemma SetInFailsIff(v: Js.Value, path: seq<string>, x: Js.Value)
    requires |path| >= 1
    ensures SetIn(v, path, x).Failure? <==> exists j :: 0 <= j < |path| - 1 && NullishAt(v, path, j)
  {
    if SetIn(v, path, x).Failure? {
      FailureHasNullish(v, path, x);
    } else {
      forall j | 0 <= j < |path| - 1
        ensures !NullishAt(v, path, j)
      {
        if NullishAt(v, path, j) {
          NullishFails(v, path, x, j);
        }
      }
    }
  }

  lemma {:induction false} FailureHasNullish(v: Js.Value, path: seq<string>, x: Js.Value)
    requires |path| >= 1 && SetIn(v, path, x).Failure?
    ensures exists j :: 0 <= j < |path| - 1 && NullishAt(v, path, j)
    decreases |path|
  {
    assert path[..0] == [];
    if Js.Nullish(v) {
      assert NullishAt(v, path, 0);
    } else {
      var child := Js.Prop(v, path[0]).value;
      FailureHasNullish(child, path[1..], x);
      var j :| 0 <= j < |path| - 2 && NullishAt(child, path[1..], j);
      AtStep(v, path, j + 1);
      assert NullishAt(v, path, j + 1);
    }
  }

  lemma {:induction false} NullishFails(v: Js.Value, path: seq<string>, x: Js.Value, j: nat)
    requires j < |path| - 1 && NullishAt(v, path, j)
    ensures SetIn(v, path, x).Failure?
    decreases |path|
  {
    if j == 0 {
      assert path[..0] == [];
    } else if !Js.Nullish(v) {
      AtStep(v, path, j);
      NullishFails(Js.Prop(v, path[0]).value, path[1..], x, j - 1);
    }
  }

  /** The first `j` steps from a defined value are its first property followed
      by `j - 1` more steps. */
  lemma AtStep(v: Js.Value, path: seq<string>, j: nat)
    requires 1 <= j <= |path| && !Js.Nullish(v)
    ensures At(v, path[..j]) == At(Js.Prop(v, path[0]).value, path[1..][..j - 1])
  {
    assert path[..j][1..] == path[1..][..j - 1];
  }

  /** Every property beside the path, at every level, reads as before: for a
      level `j` and a key `k` other than `path[j]`, following the first `j`
      steps and then `k` gives the same value in the new object as in `v`. */
  lemma {:induction false} SetInKeepsSiblings(v: Js.Value, path: seq<string>, x: Js.Value, j: nat, k: string)
    requires |path| >= 1 && ObjectsAlong(v, path)
    requires j < |path| && k != path[j]
    ensures SetIn(v, path, x).Success?
    ensures At(Js.Obj(SetIn(v, path, x).value), path[..j] + [k]) == At(v, path[..j] + [k])
    decreases |path|
  {
    SetInSucceeds(v, path, x);
    var q := path[..j] + [k];
    var r := SetIn(v, path, x).value;
    AtObject(r, q);
    AtObject(v.props, q);
    SetInTop(v, path, x);
    if j == 0 {
      assert q == [k];
    } else {
      var child := Js.Lookup(v.props, path[0]);
      var tail := path[1..];
      SetInKeepsSiblings(child, tail, x, j - 1, k);
      assert q[0] == path[0] && q[1..] == tail[..j - 1] + [k];
    }
  }

  /** Reading a path from an object starts with the object's own property. */
  lemma AtObject(p: Js.Props, q: seq<string>)
    requires |q| >= 1
    ensures At(Js.Obj(p), q) == At(Js.Lookup(p, q[0]), q[1..])
  {
  }

  /** The outermost spread: the first key of the path gets the built child
      (or the leaf), every other key keeps its value. */
  lemma SetInTop(v: Js.Value, path: seq<string>, x: Js.Value)
    requires |path| >= 1 && v.Obj? && SetIn(v, path, x).Success?
    ensures |path| == 1 ==> Js.Lookup(SetIn(v, path, x).value, path[0]) == x
    ensures |path| > 1 ==>
              SetIn(Js.Lookup(v.props, path[0]), path[1..], x).Success? &&
              Js.Lookup(SetIn(v, path, x).value, path[0]) == Js.Obj(SetIn(Js.Lookup(v.props, path[0]), path[1..], x).value)
    ensures forall k :: k != path[0] ==> Js.Lookup(SetIn(v, path, x).value, k) == Js.Lookup(v.props, k)
  {
  }
}
