/** The state handlers of the event creation form (src/pages/events/CreateEvent.jsx).
    The plain handlers build a new form state from the previous one with
    spreads; the itinerary and "includes" editors write into the element
    objects of the previous state's arrays, so the previous state changes with
    them. The form state is an object; an exception thrown inside a state
    updater is the `Failure` of its result. */
module CreateEvent {
  import opened Wrappers
  import Text
  import Js
  import FormState
  import Itinerary

  // ---------------------------------------------------------------------------
  // handleChange

  /** The keys a dotted input name addresses: `parent` and `child` always, and
      `subChild` and `subSubChild` when the split yields them non-empty, the
      latter deciding first; segments past the fourth are dropped. */
  function DottedPath(name: string): (path: seq<string>)
    requires '.' in name
    ensures 2 <= |path| <= 4 && |path| <= |Text.Split(name, '.')|
    ensures path == Text.Split(name, '.')[..|path|]
  {
    var parts := Text.Split(name, '.');
    if |parts| >= 4 && parts[3] != "" then parts[..4]
    else if |parts| >= 3 && parts[2] != "" then parts[..3]
    else parts[..2]
  }

  /** `handleChange` for an input named `name` holding `value`. */
  function HandleChange(prev: Js.Props, name: string, value: Js.Value): (r: Result<Js.Props, Js.Exception>)
    ensures '.' !in name ==>
              r.Success? && Js.Lookup(r.value, name) == value &&
              (forall k :: k != name ==> Js.Lookup(r.value, k) == Js.Lookup(prev, k)) &&
              Js.Keys(r.value) == if name in Js.Keys(prev) then Js.Keys(prev) else Js.Keys(prev) + [name]
    ensures r.Failure? ==> r.error == Js.TypeError
  {
    if '.' in name then FormState.SetIn(Js.Obj(prev), DottedPath(name), value)
    else Success(Js.Put(prev, name, value))
  }

  /** A dotted name: when the state holds objects down to the leaf's parent,
      the update succeeds, the leaf reads `value`, and at every level every
      other property reads as before. The update throws exactly when one of
      the objects on the way is undefined or null. */
  lemma HandleChangeNested(prev: Js.Props, name: string, value: Js.Value, j: nat, k: string)
    requires '.' in name
    requires FormState.ObjectsAlong(Js.Obj(prev), DottedPath(name))
    requires j < |DottedPath(name)| && k != DottedPath(name)[j]
    ensures HandleChange(prev, name, value).Success?
    ensures var r := Js.Obj(HandleChange(prev, name, value).value);
            var path := DottedPath(name);
            FormState.At(r, path) == Success(value) &&
            FormState.At(r, path[..j] + [k]) == FormState.At(Js.Obj(prev), path[..j] + [k])
  {
    var path := DottedPath(name);
    FormState.SetInKeepsSiblings(Js.Obj(prev), path, value, j, k);
    FormState.SetInReadBack(Js.Obj(prev), path, value);
  }

  /** A dotted name throws exactly when a value read on the way to the leaf's
      parent is undefined or null. */
  lemma HandleChangeThrows(prev: Js.Props, name: string, value: Js.Value)
    requires '.' in name
    ensures var path := DottedPath(name);
            HandleChange(prev, name, value).Failure? <==>
              exists j :: 0 <= j < |path| - 1 && FormState.NullishAt(Js.Obj(prev), path, j)
  {
    FormState.SetInFailsIff(Js.Obj(prev), DottedPath(name), value);
  }

  /** Only four segments are destructured: a name with more segments behaves
      as its first four, as long as the fourth is not empty. */
  lemma HandleChangeIgnoresTail(prev: Js.Props, a: string, b: string, c: string, d: string, tail: string, value: Js.Value)
    requires '.' !in a && '.' !in b && '.' !in c && '.' !in d && d != ""
    ensures HandleChange(prev, a + "." + b + "." + c + "." + d + "." + tail, value) ==
            HandleChange(prev, a + "." + b + "." + c + "." + d, value)
  {
    var long := a + "." + b + "." + c + "." + d + "." + tail;
    var short := a + "." + b + "." + c + "." + d;
    assert long == a + "." + b + "." + c + "." + (d + "." + tail);
    Text.SplitAfterSeparator(d, tail, '.');
    assert d + "." + tail == d + ['.'] + tail;
    DottedPathOfFour(long, a, b, c, d, d + "." + tail);
    DottedPathOfFour(short, a, b, c, d, d);
  }

  /** A name that splits into `a`, `b`, `c` and a non-empty fourth segment
      `d` keeps exactly those four. */
  lemma DottedPathOfFour(name: string, a: string, b: string, c: string, d: string, rest: string)
    requires '.' !in a && '.' !in b && '.' !in c && d != ""
    requires name == a + "." + b + "." + c + "." + rest && Text.Split(rest, '.')[0] == d
    ensures '.' in name && DottedPath(name) == [a, b, c, d]
  {
    SplitSegments(a, b, c, rest);
    assert name[|a|] == '.';
  }

  /** The split of three separator-free segments followed by any rest. */
  lemma SplitSegments(a: string, b: string, c: string, rest: string)
    requires '.' !in a && '.' !in b && '.' !in c
    ensures Text.Split(a + "." + b + "." + c + "." + rest, '.') == [a, b, c] + Text.Split(rest, '.')
  {
    var t2 := c + ['.'] + rest;
    var t1 := b + ['.'] + t2;
    Text.JoinedThree(a, b, c, rest, '.');
    Text.SplitAfterSeparator(a, t1, '.');
    Text.SplitAfterSeparator(b, t2, '.');
    Text.SplitAfterSeparator(c, rest, '.');
  }

  // ---------------------------------------------------------------------------
  // The list handlers

  /** `handleAddArrayItem(arrayName, template)`: `[...prev[arrayName], template]`,
      which throws when the list is not iterable. */
  function HandleAddArrayItem(prev: Js.Props, arrayName: string, template: Js.Value): (r: Result<Js.Props, Js.Exception>)
    ensures r.Success? <==> Js.Iterate(Js.Lookup(prev, arrayName)).Success?
    ensures r.Failure? ==> r.error == Js.TypeError
    ensures r.Success? ==>
              var before := Js.Iterate(Js.Lookup(prev, arrayName)).value;
              var after := Js.Lookup(r.value, arrayName);
              after.Arr? && |after.items| == |before| + 1 &&
              after.items[..|before|] == before && after.items[|before|] == template
    ensures r.Success? ==> forall k :: k != arrayName ==> Js.Lookup(r.value, k) == Js.Lookup(prev, k)
  {
    var items :- Js.Iterate(Js.Lookup(prev, arrayName));
    assert (items + [template])[..|items|] == items;
    Success(Js.Put(prev, arrayName, Js.Arr(items + [template])))
  }

  /** `handleAddSimpleArrayItem(arrayName, defaultValue = '')`: an omitted (or
      undefined) default appends the empty string. */
  function HandleAddSimpleArrayItem(prev: Js.Props, arrayName: string, defaultValue: Js.Value): (r: Result<Js.Props, Js.Exception>)
    ensures r.Success? <==> Js.Iterate(Js.Lookup(prev, arrayName)).Success?
    ensures r.Success? ==>
              var before := Js.Iterate(Js.Lookup(prev, arrayName)).value;
              var after := Js.Lookup(r.value, arrayName);
              after.Arr? && |after.items| == |before| + 1 && after.items[..|before|] == before &&
              after.items[|before|] == (if defaultValue.Undefined? then Js.Str("") else defaultValue)
  {
    HandleAddArrayItem(prev, arrayName, if defaultValue.Undefined? then Js.Str("") else defaultValue)
  }

  /** `handleRemoveArrayItem(arrayName, index)`: `prev[arrayName].filter(…)`,
      which throws unless the list is an array. */
  function HandleRemoveArrayItem(prev: Js.Props, arrayName: string, index: int): (r: Result<Js.Props, Js.Exception>)
    ensures r.Success? <==> Js.Lookup(prev, arrayName).Arr?
    ensures r.Failure? ==> r.error == Js.TypeError
    ensures r.Success? ==>
              var before := Js.Lookup(prev, arrayName).items;
              var after := Js.Lookup(r.value, arrayName);
              after.Arr? &&
              (0 <= index < |before| ==> after.items == before[..index] + before[index + 1..]) &&
              (!(0 <= index < |before|) ==> after.items == before)
    ensures r.Success? ==> forall k :: k != arrayName ==> Js.Lookup(r.value, k) == Js.Lookup(prev, k)
    ensures r.Success? ==> Js.Keys(r.value) == Js.Keys(prev)
  {
    var list := Js.Lookup(prev, arrayName);
    if list.Arr? then
      assert arrayName in Js.Keys(prev) by {
        if arrayName !in Js.Keys(prev) {
          NotAKeyReadsUndefined(prev, arrayName);
        }
      }
      Success(Js.Put(prev, arrayName, Js.Arr(Js.RemoveAt(list.items, index))))
    else Failure(Js.TypeError)
  }

  lemma {:induction false} NotAKeyReadsUndefined(p: Js.Props, key: string)
    requires key !in Js.Keys(p)
    ensures Js.Lookup(p, key) == Js.Undefined
    decreases |p|
  {
    if |p| > 0 {
      Js.KeysCons(p);
      NotAKeyReadsUndefined(p[1..], key);
    }
  }

  /** `handleSimpleArrayChange(arrayName, index, value)`: a copy of the list
      with `value` stored at `index`. */
  function HandleSimpleArrayChange(prev: Js.Props, arrayName: string, index: int, value: Js.Value): (r: Result<Js.Props, Js.Exception>)
    ensures r.Success? <==> Js.Iterate(Js.Lookup(prev, arrayName)).Success?
    ensures r.Success? ==>
              var before := Js.Iterate(Js.Lookup(prev, arrayName)).value;
              var after := Js.Lookup(r.value, arrayName);
              after.Arr? && |after.items| >= |before| &&
              (0 <= index < |before| ==> |after.items| == |before| && after.items[index] == value) &&
              (forall j :: 0 <= j < |before| && j != index ==> after.items[j] == before[j])
    ensures r.Success? ==> forall k :: k != arrayName ==> Js.Lookup(r.value, k) == Js.Lookup(prev, k)
  {
    var items :- Js.Iterate(Js.Lookup(prev, arrayName));
    Success(Js.Put(prev, arrayName, Js.Arr(Js.StoreAt(items, index, value))))
  }

  /** Removing the element just appended gives the list back. */
  lemma AddThenRemove(prev: Js.Props, arrayName: string, template: Js.Value)
    requires Js.Lookup(prev, arrayName).Arr?
    ensures var added := HandleAddArrayItem(prev, arrayName, template);
            added.Success? &&
            var removed := HandleRemoveArrayItem(added.value, arrayName, |Js.Lookup(prev, arrayName).items|);
            removed.Success? && Js.Lookup(removed.value, arrayName) == Js.Lookup(prev, arrayName)
  {
    var items := Js.Lookup(prev, arrayName).items;
    var added := HandleAddArrayItem(prev, arrayName, template);
    var removed := HandleRemoveArrayItem(added.value, arrayName, |items|);
    assert Js.Lookup(removed.value, arrayName).items == items;
  }

  // ---------------------------------------------------------------------------
  // The itinerary and "includes" editors, on the shared objects

  /** The value `handleArrayChange('itinerary', …)` writes: a day number from
      the number input, or a new activities array. */
  datatype DayChange = DayNumber(value: Js.Value) | DayActivities(list: Itinerary.ActivityList)

  /** `handleArrayChange('itinerary', index, field, value)`: the outer array is
      copied (the same day objects, in the same order) and the field is
      written into the day object itself, which the previous state holds too.
      With no day at `index` the write is to a property of undefined and
      throws. */
  method HandleArrayChange(itinerary: seq<Itinerary.Day>, index: int, change: DayChange)
    returns (r: Result<seq<Itinerary.Day>, Js.Exception>)
    modifies if 0 <= index < |itinerary| then {itinerary[index]} else {}
    ensures !(0 <= index < |itinerary|) ==> r == Failure(Js.TypeError)
    ensures 0 <= index < |itinerary| ==>
              r == Success(itinerary) && itinerary[index].others == old(itinerary[index].others) &&
              match change
              case DayNumber(v) =>
                itinerary[index].day == v && itinerary[index].activities == old(itinerary[index].activities)
              case DayActivities(list) =>
                itinerary[index].activities == list && itinerary[index].day == old(itinerary[index].day)
  {
    if !(0 <= index < |itinerary|) {
      return Failure(Js.TypeError);
    }
    var day := itinerary[index];
    match change {
      case DayNumber(v) => day.day := v;
      case DayActivities(list) => day.activities := list;
    }
    r := Success(itinerary);
  }

  /** Editing the time or the description of activity `actIndex` of day
      `dayIndex`: the day's activities array is copied and the new value is
      written into the activity object, which the previous state's array still
      holds; the copy then replaces the day's array. */
  method EditActivity(itinerary: seq<Itinerary.Day>, dayIndex: int, actIndex: int,
                      field: Itinerary.ActivityField, value: Js.Value)
    returns (r: Result<seq<Itinerary.Day>, Js.Exception>)
    requires 0 <= dayIndex < |itinerary| && 0 <= actIndex < |itinerary[dayIndex].activities.items|
    modifies itinerary[dayIndex], itinerary[dayIndex].activities.items[actIndex]
    ensures r == Success(itinerary)
    ensures var day := itinerary[dayIndex];
            fresh(day.activities) && day.activities.items == old(day.activities.items) &&
            day.day == old(day.day) && day.others == old(day.others)
    ensures var a := old(itinerary[dayIndex].activities).items[actIndex];
            field.Time? ==> a.time == value && a.description == old(a.description)
    ensures var a := old(itinerary[dayIndex].activities).items[actIndex];
            field.Description? ==> a.description == value && a.time == old(a.time)
  {
    var day := itinerary[dayIndex];
    var copy := new Itinerary.ActivityList(day.activities.items);
    Itinerary.SetActivityField(copy.items[actIndex], field, value);
    r := HandleArrayChange(itinerary, dayIndex, DayActivities(copy));
  }

  /** Removing activity `actIndex` of day `dayIndex`: the day object receives a
      filtered copy of its array; the activities themselves are untouched. */
  method RemoveActivity(itinerary: seq<Itinerary.Day>, dayIndex: int, actIndex: int)
    returns (r: Result<seq<Itinerary.Day>, Js.Exception>)
    requires 0 <= dayIndex < |itinerary|
    modifies itinerary[dayIndex]
    ensures r == Success(itinerary)
    ensures var day := itinerary[dayIndex];
            fresh(day.activities) && day.day == old(day.day) && day.others == old(day.others) &&
            day.activities.items == Js.RemoveAt(old(day.activities.items), actIndex)
  {
    var day := itinerary[dayIndex];
    var filtered := new Itinerary.ActivityList(Js.RemoveAt(day.activities.items, actIndex));
    r := HandleArrayChange(itinerary, dayIndex, DayActivities(filtered));
  }

  /** "+ Añadir Actividad": a copy of the day's array with a new '09:00'
      activity at the end. */
  method AddActivity(itinerary: seq<Itinerary.Day>, dayIndex: int)
    returns (r: Result<seq<Itinerary.Day>, Js.Exception>)
    requires 0 <= dayIndex < |itinerary|
    modifies itinerary[dayIndex]
    ensures r == Success(itinerary)
    ensures var day := itinerary[dayIndex];
            var n := |old(day.activities.items)|;
            fresh(day.activities) && day.day == old(day.day) && day.others == old(day.others) &&
            |day.activities.items| == n + 1 && day.activities.items[..n] == old(day.activities.items) &&
            fresh(day.activities.items[n]) &&
            day.activities.items[n].time == Js.Str("09:00") && day.activities.items[n].description == Js.Str("")
  {
    var day := itinerary[dayIndex];
    var added := new Itinerary.Activity(Js.Str("09:00"), Js.Str(""));
    var list := new Itinerary.ActivityList(day.activities.items + [added]);
    assert list.items[..|day.activities.items|] == day.activities.items;
    r := HandleArrayChange(itinerary, dayIndex, DayActivities(list));
  }

  /** "+ Añadir Día": a new day numbered one past the current count, with one
      '09:00' activity, appended to the itinerary. */
  method AddDay(itinerary: seq<Itinerary.Day>) returns (r: seq<Itinerary.Day>)
    ensures |r| == |itinerary| + 1 && r[..|itinerary|] == itinerary
    ensures var d := r[|itinerary|];
            fresh(d) && fresh(d.activities) && d.day == Js.Num(|itinerary| + 1) && d.others == [] &&
            |d.activities.items| == 1 && fresh(d.activities.items[0]) &&
            d.activities.items[0].time == Js.Str("09:00") && d.activities.items[0].description == Js.Str("")
  {
    var first := new Itinerary.Activity(Js.Str("09:00"), Js.Str(""));
    var list := new Itinerary.ActivityList([first]);
    var d := new Itinerary.Day(Js.Num(|itinerary| + 1), list, []);
    r := itinerary + [d];
    assert r[..|itinerary|] == itinerary;
  }

  /** Editing the item or the detail of entry `index` of "includes": the array
      is copied and the value is written into the shared entry object. */
  method EditInclude(includes: seq<Itinerary.IncludedItem>, index: int, field: Itinerary.IncludeField, value: Js.Value)
    returns (r: seq<Itinerary.IncludedItem>)
    requires 0 <= index < |includes|
    modifies includes[index]
    ensures r == includes
    ensures field.Item? ==> includes[index].item == value && includes[index].detail == old(includes[index].detail)
    ensures field.Detail? ==> includes[index].detail == value && includes[index].item == old(includes[index].item)
  {
    r := includes;
    var entry := r[index];
    if field.Item? {
      entry.item := value;
    } else {
      entry.detail := value;
    }
  }
}
