/** The event table (src/pages/events/EventList.jsx): the awaited value is
    sorted in place by start date when it is an array (with the page's axios
    client it is the response object, so the call throws), and each row shows
    a status badge whose label and colour come from two parallel conditional
    chains. The start date
    is an integer key (the time value `new Date(startDate)` yields); date parsing
    is not modelled. */
module EventList {
  import opened Wrappers
  import Js

  /** Nondecreasing start keys. */
  predicate SortedBy(s: seq<Js.Value>, key: Js.Value -> int) {
    forall p, q :: 0 <= p < q < |s| ==> key(s[p]) <= key(s[q])
  }

  /** Swapping two neighbours keeps the elements. */
  lemma SwapKeepsElements(s: seq<Js.Value>, j: int)
    requires 0 < j < |s|
    ensures multiset(s[j - 1 := s[j]][j := s[j - 1]]) == multiset(s)
  {
    var t := s[j - 1 := s[j]][j := s[j - 1]];
    assert s == s[..j - 1] + [s[j - 1], s[j]] + s[j + 1..];
    assert t == s[..j - 1] + [s[j], s[j - 1]] + s[j + 1..];
  }

  /** The elements whose start key is `k`, in their order in `s`. */
  function WithKey(s: seq<Js.Value>, key: Js.Value -> int, k: int): (r: seq<Js.Value>)
    ensures |r| <= |s|
    ensures forall x :: x in r ==> x in s && key(x) == k
  {
    if |s| == 0 then []
    else (if key(s[0]) == k then [s[0]] else []) + WithKey(s[1..], key, k)
  }

  /** Every group of equal start keys is in the same order in `s` and `t`. */
  ghost predicate SameOrderPerKey(s: seq<Js.Value>, t: seq<Js.Value>, key: Js.Value -> int) {
    forall k :: WithKey(s, key, k) == WithKey(t, key, k)
  }

  lemma {:induction false} WithKeyConcat(a: seq<Js.Value>, b: seq<Js.Value>, key: Js.Value -> int, k: int)
    ensures WithKey(a + b, key, k) == WithKey(a, key, k) + WithKey(b, key, k)
    decreases |a|
  {
    if |a| == 0 {
      assert a + b == b;
    } else {
      assert (a + b)[0] == a[0] && (a + b)[1..] == a[1..] + b;
      WithKeyConcat(a[1..], b, key, k);
    }
  }

  /** Two elements with different keys never share a group, so their order
      does not matter to any group. */
  lemma PairWithKey(x: Js.Value, y: Js.Value, key: Js.Value -> int, k: int)
    requires key(x) != key(y)
    ensures WithKey([x, y], key, k) == WithKey([y, x], key, k)
  {
    assert [x, y][1..] == [y] && [y, x][1..] == [x];
    assert [x][1..] == [] && [y][1..] == [];
  }

  lemma SwapInGroup(front: seq<Js.Value>, x: Js.Value, y: Js.Value, back: seq<Js.Value>, key: Js.Value -> int, k: int)
    requires key(x) != key(y)
    ensures WithKey(front + [x, y] + back, key, k) == WithKey(front + [y, x] + back, key, k)
  {
    assert front + [x, y] + back == front + ([x, y] + back);
    assert front + [y, x] + back == front + ([y, x] + back);
    WithKeyConcat(front, [x, y] + back, key, k);
    WithKeyConcat(front, [y, x] + back, key, k);
    WithKeyConcat([x, y], back, key, k);
    WithKeyConcat([y, x], back, key, k);
    PairWithKey(x, y, key, k);
  }

  /** Swapping two neighbours with different keys keeps the order within
      every group of equal keys. */
  lemma SwapKeepsOrderPerKey(s: seq<Js.Value>, j: int, key: Js.Value -> int)
    requires 0 < j < |s| && key(s[j - 1]) != key(s[j])
    ensures SameOrderPerKey(s[j - 1 := s[j]][j := s[j - 1]], s, key)
  {
    var t := s[j - 1 := s[j]][j := s[j - 1]];
    var front, back := s[..j - 1], s[j + 1..];
    assert s == front + [s[j - 1], s[j]] + back;
    assert t == front + [s[j], s[j - 1]] + back;
    forall k ensures WithKey(t, key, k) == WithKey(s, key, k) {
      SwapInGroup(front, s[j - 1], s[j], back, key, k);
    }
  }

  /** `response.sort((a, b) => new Date(a.startDate) - new Date(b.startDate))`:
      the array is reordered in place into ascending start order, keeping its
      elements, and events with the same start keep their relative order, as
      the stable sort JavaScript requires. (The engine's algorithm is not
      specified; this one moves each element left past the larger keys before
      it.) */
  method SortByStartDate(a: array<Js.Value>, key: Js.Value -> int)
    modifies a
    ensures SortedBy(a[..], key)
    ensures multiset(a[..]) == multiset(old(a[..]))
    ensures SameOrderPerKey(a[..], old(a[..]), key)
  {
    var i := 0;
    while i < a.Length
      invariant 0 <= i <= a.Length
      invariant SortedBy(a[..i], key)
      invariant multiset(a[..]) == multiset(old(a[..]))
      invariant SameOrderPerKey(a[..], old(a[..]), key)
    {
      InsertAt(a, i, key);
      i := i + 1;
    }
    assert a[..a.Length] == a[..];
  }

  /** One insertion step: `a[i]` moves left past the larger keys before it, so
      that the sorted prefix grows by one. */
  method InsertAt(a: array<Js.Value>, i: int, key: Js.Value -> int)
    requires 0 <= i < a.Length && SortedBy(a[..i], key)
    modifies a
    ensures SortedBy(a[..i + 1], key)
    ensures multiset(a[..]) == multiset(old(a[..]))
    ensures SameOrderPerKey(a[..], old(a[..]), key)
  {
    var j := i;
    InsertionStarts(a[..], i, key);
    while j > 0 && key(a[j - 1]) > key(a[j])
      invariant Inserting(a[..], i, j, key)
      invariant multiset(a[..]) == multiset(old(a[..]))
      invariant SameOrderPerKey(a[..], old(a[..]), key)
    {
      ghost var s := a[..];
      SwapKeepsElements(s, j);
      SwapKeepsOrderPerKey(s, j, key);
      InsertionSwaps(s, i, j, key);
      a[j - 1], a[j] := a[j], a[j - 1];
      assert a[..] == s[j - 1 := s[j]][j := s[j - 1]];
      j := j - 1;
    }
    InsertionEnds(a[..], i, j, key);
  }

  /** Midway through inserting `s[j]`: the keys up to `i` are in order apart
      from position `j`, whose key is below every key after it. */
  predicate Inserting(s: seq<Js.Value>, i: int, j: int, key: Js.Value -> int) {
    0 <= j <= i < |s| &&
    (forall p, q :: 0 <= p < q <= i && p != j && q != j ==> key(s[p]) <= key(s[q])) &&
    (forall q :: j < q <= i ==> key(s[j]) < key(s[q]))
  }

  lemma InsertionStarts(s: seq<Js.Value>, i: int, key: Js.Value -> int)
    requires 0 <= i < |s| && SortedBy(s[..i], key)
    ensures Inserting(s, i, i, key)
  {
    forall p, q | 0 <= p < q <= i && p != i && q != i ensures key(s[p]) <= key(s[q]) {
      assert s[p] == s[..i][p] && s[q] == s[..i][q];
    }
  }

  lemma InsertionSwaps(s: seq<Js.Value>, i: int, j: int, key: Js.Value -> int)
    requires Inserting(s, i, j, key) && j > 0 && key(s[j - 1]) > key(s[j])
    ensures Inserting(s[j - 1 := s[j]][j := s[j - 1]], i, j - 1, key)
  {
    var t := s[j - 1 := s[j]][j := s[j - 1]];
    forall q | j - 1 < q <= i ensures key(t[j - 1]) < key(t[q]) {
      if q > j {
        assert t[q] == s[q];
      }
    }
    forall p, q | 0 <= p < q <= i && p != j - 1 && q != j - 1 ensures key(t[p]) <= key(t[q]) {
      if p == j {
        assert t[p] == s[j - 1] && t[q] == s[q];
      } else if q == j {
        assert t[q] == s[j - 1] && t[p] == s[p];
      } else {
        assert t[p] == s[p] && t[q] == s[q];
      }
    }
  }

  lemma InsertionEnds(s: seq<Js.Value>, i: int, j: int, key: Js.Value -> int)
    requires Inserting(s, i, j, key) && (j == 0 || key(s[j - 1]) <= key(s[j]))
    ensures SortedBy(s[..i + 1], key)
  {
    var t := s[..i + 1];
    forall p, q | 0 <= p < q < |t| ensures key(t[p]) <= key(t[q]) {
      assert t[p] == s[p] && t[q] == s[q];
      if p == j {
        assert key(s[j]) < key(s[q]);
      } else if q == j {
        assert p <= j - 1;
        if p < j - 1 {
          assert key(s[p]) <= key(s[j - 1]);
        }
      }
    }
  }

  /** Any value but an array. */
  type NonArray = v: Js.Value | !v.Arr? witness Js.Undefined

  /** A value the page may call `.sort` on: a JavaScript array, held on the
      heap so that the sort reorders it in place; the response object of an
      axios request; or any other value. */
  datatype Sortee =
    | HeapArray(elements: array<Js.Value>)
    | Response(response: AxiosResponse)
    | Other(value: NonArray)

  /** What `api.get(…)` of the bare axios instance in src/utils/api.js
      resolves to: an object whose `data` is the parsed body. */
  datatype AxiosResponse = AxiosResponse(data: Sortee, status: int)

  /** The array a sort of `x` may reorder: `x` itself when it is an array. */
  function SortTarget(x: Sortee): set<array<Js.Value>> {
    if x.HeapArray? then {x.elements} else {}
  }

  /** What the page lists: the initial empty list, or the array the fetch
      stored with `setEvents`. */
  datatype Listing = Initial | Listed(events: array<Js.Value>)

  /** The page once the fetch has settled: the list, the spinner flag and the
      error shown (`None` for none; the page shows its message). */
  datatype View = View(listing: Listing, loading: bool, error: Option<Js.Exception>)

  /** `x.sort((a, b) => new Date(a.startDate) - new Date(b.startDate))`: an
      array is sorted in place and returned; any other value has no `sort`
      method, so the call throws a TypeError and nothing is reordered. */
  method SortEvents(x: Sortee, key: Js.Value -> int) returns (r: Result<array<Js.Value>, Js.Exception>)
    modifies SortTarget(x)
    ensures x.HeapArray? ==>
              r == Success(x.elements) && SortedBy(x.elements[..], key) &&
              multiset(x.elements[..]) == multiset(old(x.elements[..])) &&
              SameOrderPerKey(x.elements[..], old(x.elements[..]), key)
    ensures !x.HeapArray? ==> r == Failure(Js.TypeError)
  {
    if x.HeapArray? {
      SortByStartDate(x.elements, key);
      r := Success(x.elements);
    } else {
      r := Failure(Js.TypeError);
    }
  }

  /** `fetchEvents()` as written, with `reply` the settled `api.get('/events')`:
      `.sort` is called on the awaited value itself. An array is listed as
      itself, sorted, stable and with the same elements; any other value, an
      axios response object included, makes the page show a TypeError; a
      rejected request shows its error. The spinner is off in every case, and
      the list stays the initial empty one unless the sort succeeded. */
  method LoadEvents(reply: Result<Sortee, Js.Exception>, key: Js.Value -> int) returns (v: View)
    modifies if reply.Success? then SortTarget(reply.value) else {}
    ensures !v.loading
    ensures reply.Success? && reply.value.HeapArray? ==>
              v == View(Listed(reply.value.elements), false, None) &&
              SortedBy(reply.value.elements[..], key) &&
              multiset(reply.value.elements[..]) == multiset(old(reply.value.elements[..])) &&
              SameOrderPerKey(reply.value.elements[..], old(reply.value.elements[..]), key)
    ensures reply.Success? && !reply.value.HeapArray? ==> v == View(Initial, false, Some(Js.TypeError))
    ensures reply.Failure? ==> v == View(Initial, false, Some(reply.error))
  {
    if reply.Failure? {
      v := View(Initial, false, Some(reply.error));
    } else {
      var sorted := SortEvents(reply.value, key);
      match sorted
      case Success(events) => v := View(Listed(events), false, None);
      case Failure(e) => v := View(Initial, false, Some(e));
    }
  }

  /** With the axios client the page imports, a successful request always
      yields a response object, so as written the page shows a TypeError even
      when the body is the event array, and never lists anything. */
  method LoadEventsFromApi(response: AxiosResponse, key: Js.Value -> int) returns (v: View)
    ensures v.listing == Initial && v.error == Some(Js.TypeError) && !v.loading
  {
    v := LoadEvents(Success(Response(response)), key);
  }

  /** The evidently intended `response.data.sort(…)`: the body of the axios
      response is sorted in place and listed when it is an array; a body that
      is not an array throws a TypeError, shown by the page; a rejected
      request shows its error. */
  method LoadEventsFromData(reply: Result<AxiosResponse, Js.Exception>, key: Js.Value -> int) returns (v: View)
    modifies if reply.Success? then SortTarget(reply.value.data) else {}
    ensures !v.loading
    ensures reply.Success? && reply.value.data.HeapArray? ==>
              v == View(Listed(reply.value.data.elements), false, None) &&
              SortedBy(reply.value.data.elements[..], key) &&
              multiset(reply.value.data.elements[..]) == multiset(old(reply.value.data.elements[..])) &&
              SameOrderPerKey(reply.value.data.elements[..], old(reply.value.data.elements[..]), key)
    ensures reply.Success? && !reply.value.data.HeapArray? ==> v == View(Initial, false, Some(Js.TypeError))
    ensures reply.Failure? ==> v == View(Initial, false, Some(reply.error))
  {
    match reply
    case Failure(e) =>
      v := View(Initial, false, Some(e));
    case Success(response) =>
      v := LoadEvents(Success(response.data), key);
  }

  /** The badge text for `event.eventStatus`, compared with `===`. */
  function StatusLabel(status: Js.Value): (text: string)
    ensures text == "Confirmado" <==> status == Js.Str("confirmed")
    ensures text == "Aplazado" <==> status == Js.Str("postponed")
    ensures text == "Cancelado" <==> status == Js.Str("canceled")
    ensures text == "Completado" <==> status !in {Js.Str("confirmed"), Js.Str("postponed"), Js.Str("canceled")}
  {
    if status == Js.Str("confirmed") then "Confirmado"
    else if status == Js.Str("postponed") then "Aplazado"
    else if status == Js.Str("canceled") then "Cancelado"
    else "Completado"
  }

  /** The badge classes for the same status. */
  function StatusColour(status: Js.Value): (classes: string)
    ensures classes == "bg-green-100 text-green-800" <==> status == Js.Str("confirmed")
    ensures classes == "bg-yellow-100 text-yellow-800" <==> status == Js.Str("postponed")
    ensures classes == "bg-red-100 text-red-800" <==> status == Js.Str("canceled")
    ensures classes == "bg-gray-100 text-gray-800" <==>
              status !in {Js.Str("confirmed"), Js.Str("postponed"), Js.Str("canceled")}
  {
    if status == Js.Str("confirmed") then "bg-green-100 text-green-800"
    else if status == Js.Str("postponed") then "bg-yellow-100 text-yellow-800"
    else if status == Js.Str("canceled") then "bg-red-100 text-red-800"
    else "bg-gray-100 text-gray-800"
  }

  /** The two chains take the same branch: each label comes with one colour,
      and only a status outside the three known ones is shown as completed in
      gray (a missing status, `'completed'`, or a differently cased word). */
  lemma LabelAndColourAgree(status: Js.Value)
    ensures StatusLabel(status) == "Confirmado" <==> StatusColour(status) == "bg-green-100 text-green-800"
    ensures StatusLabel(status) == "Aplazado" <==> StatusColour(status) == "bg-yellow-100 text-yellow-800"
    ensures StatusLabel(status) == "Cancelado" <==> StatusColour(status) == "bg-red-100 text-red-800"
    ensures StatusLabel(status) == "Completado" <==> StatusColour(status) == "bg-gray-100 text-gray-800"
    ensures StatusLabel(Js.Undefined) == "Completado" && StatusLabel(Js.Str("Confirmed")) == "Completado"
  {
  }
}
