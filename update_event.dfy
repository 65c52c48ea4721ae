/** The state handlers of the event edit form (src/pages/events/UpdateEvent.jsx):
    the form filled from the loaded event, the list and nested-object
    handlers, which copy what they change, and the itinerary editors, which
    write into the day objects and activity arrays that the previous form
    state still holds. The date formatting of `date-fns` is an input. */
module UpdateEvent {
  import opened Wrappers
  import Text
  import Js
  import CreateEvent
  import Itinerary

  // ---------------------------------------------------------------------------
  // The form filled from the loaded event

  /** The properties of the form, in the order the literal lists them. */
  const FormFields: seq<string> := [
    "name", "description", "startDate", "endDate", "meetupTime", "departureTime", "durationDays",
    "departureLocation", "stayLocation", "arrivalLocation",
    "basePriceRider", "basePriceCompanion", "membershipDiscounts",
    "itinerary", "includes", "visits", "activities", "requirements", "recommendations",
    "additionalInformation", "difficultyLevel", "eventType", "internalEventType", "eventPurpose",
    "maxParticipants", "registrationStatus", "eventStatus"]

  /** The fields written `response.x || fallback`, with their fallbacks. */
  const Defaults: map<string, Js.Value> := map[
    "stayLocation" := Js.Obj([]), "arrivalLocation" := Js.Obj([]),
    "itinerary" := Js.Arr([]), "includes" := Js.Arr([]), "visits" := Js.Arr([]),
    "activities" := Js.Arr([]), "requirements" := Js.Arr([]), "recommendations" := Js.Arr([]),
    "additionalInformation" := Js.Str(""), "difficultyLevel" := Js.Str("medium"),
    "internalEventType" := Js.Str("")]

  /** `response.key` of the loaded event (a nullish response throws before any
      field is read, so the undefined fallback here is never used). */
  function Read(response: Js.Value, key: string): Js.Value {
    match Js.Prop(response, key)
    case Success(v) => v
    case Failure(_) => Js.Undefined
  }

  /** One property of the literal: the two formatted dates, a defaulted field,
      or a copy of the response's field. */
  function FormEntry(response: Js.Value, startDate: string, endDate: string, key: string): Js.Value {
    if key == "startDate" then Js.Str(startDate)
    else if key == "endDate" then Js.Str(endDate)
    else if key in Defaults then Js.Or(Read(response, key), Defaults[key])
    else Read(response, key)
  }

  /** The `setFormData({...})` call after `GET /events/:id`. `formatDate` is
      `format(parseISO(d), 'yyyy-MM-dd')`, which can throw. The response's
      fields are read first, so a nullish response fails with a TypeError;
      otherwise the start date and then the end date are formatted. */
  function LoadForm(response: Js.Value, formatDate: Js.Value -> Result<string, Js.Exception>): (r: Result<Js.Props, Js.Exception>)
    ensures Js.Nullish(response) ==> r == Failure(Js.TypeError)
    ensures !Js.Nullish(response) && formatDate(Read(response, "startDate")).Failure? ==>
              r == Failure(formatDate(Read(response, "startDate")).error)
    ensures !Js.Nullish(response) && formatDate(Read(response, "startDate")).Success? &&
            formatDate(Read(response, "endDate")).Failure? ==>
              r == Failure(formatDate(Read(response, "endDate")).error)
    ensures r.Success? <==> !Js.Nullish(response) && formatDate(Read(response, "startDate")).Success? &&
                            formatDate(Read(response, "endDate")).Success?
    ensures r.Success? ==> Js.Keys(r.value) == FormFields
  {
    if Js.Nullish(response) then Failure(Js.TypeError)
    else
      var startDate :- formatDate(Read(response, "startDate"));
      var endDate :- formatDate(Read(response, "endDate"));
      Success(Js.Build(FormFields, k => FormEntry(response, startDate, endDate, k)))
  }

  /** A loaded field with a fallback keeps the event's value when that is
      truthy and takes the fallback when it is missing or falsy: `{}` for the
      stay and arrival locations, `[]` for the six lists, 'medium' for the
      difficulty and '' for the additional information and the internal type. */
  lemma LoadFormDefault(response: Js.Value, formatDate: Js.Value -> Result<string, Js.Exception>, key: string)
    requires LoadForm(response, formatDate).Success? && key in Defaults
    ensures var v := Read(response, key);
            var form := LoadForm(response, formatDate).value;
            (Js.Truthy(v) ==> Js.Lookup(form, key) == v) &&
            (!Js.Truthy(v) ==> Js.Lookup(form, key) == Defaults[key])
  {
    var startDate := formatDate(Read(response, "startDate")).value;
    var endDate := formatDate(Read(response, "endDate")).value;
    assert key in FormFields;
    Js.LookupBuild(FormFields, k => FormEntry(response, startDate, endDate, k), key);
  }

  /** The other loaded fields are copied from the event as they are, and the
      dates are the formatted strings. */
  lemma LoadFormCopies(response: Js.Value, formatDate: Js.Value -> Result<string, Js.Exception>, key: string)
    requires LoadForm(response, formatDate).Success? && key in FormFields
    ensures var form := LoadForm(response, formatDate).value;
            && (key !in Defaults && key != "startDate" && key != "endDate" ==> Js.Lookup(form, key) == Read(response, key))
            && (key == "startDate" ==> Js.Lookup(form, key) == Js.Str(formatDate(Read(response, "startDate")).value))
            && (key == "endDate" ==> Js.Lookup(form, key) == Js.Str(formatDate(Read(response, "endDate")).value))
  {
    var startDate := formatDate(Read(response, "startDate")).value;
    var endDate := formatDate(Read(response, "endDate")).value;
    Js.LookupBuild(FormFields, k => FormEntry(response, startDate, endDate, k), key);
  }

  // ---------------------------------------------------------------------------
  // The copying handlers

  /** `handleChange`: a checkbox stores whether it is checked, any other input
      its value. */
  function HandleChange(prev: Js.Props, name: string, inputType: string, value: Js.Value, checked: bool): (r: Js.Props)
    ensures inputType == "checkbox" ==> Js.Lookup(r, name) == Js.Bool(checked)
    ensures inputType != "checkbox" ==> Js.Lookup(r, name) == value
    ensures forall k :: k != name ==> Js.Lookup(r, k) == Js.Lookup(prev, k)
  {
    Js.Put(prev, name, if inputType == "checkbox" then Js.Bool(checked) else value)
  }

  /** `handleArrayChange(field, index, subfield, value)` on a copy of the list.
      With a truthy `subfield` the element becomes a shallow copy of the old
      one with that single property set (an absent element spreads as `{}`);
      without one the element is replaced. */
  function HandleArrayChange(prev: Js.Props, field: string, index: int, subfield: Js.Value, value: Js.Value): (r: Result<Js.Props, Js.Exception>)
    ensures r.Success? <==> Js.Iterate(Js.Lookup(prev, field)).Success?
    ensures r.Failure? ==> r.error == Js.TypeError
    ensures r.Success? ==>
              var before := Js.Iterate(Js.Lookup(prev, field)).value;
              var after := Js.Lookup(r.value, field);
              after.Arr? && |after.items| >= |before| &&
              (0 <= index < |before| ==> |after.items| == |before|) &&
              (forall j :: 0 <= j < |before| && j != index ==> after.items[j] == before[j])
    ensures r.Success? && 0 <= index && Js.Truthy(subfield) ==>
              var before := Js.Iterate(Js.Lookup(prev, field)).value;
              var after := Js.Lookup(r.value, field).items;
              var key := Js.ToJsString(subfield);
              index < |after| && after[index].Obj? &&
              Js.Lookup(after[index].props, key) == value &&
              forall k :: k != key ==> Js.Lookup(after[index].props, k) == Js.Field(Js.ElementAt(before, index), k)
    ensures r.Success? && 0 <= index && !Js.Truthy(subfield) ==>
              var after := Js.Lookup(r.value, field).items;
              index < |after| && after[index] == value
    ensures r.Success? ==> forall k :: k != field ==> Js.Lookup(r.value, k) == Js.Lookup(prev, k)
  {
    var items :- Js.Iterate(Js.Lookup(prev, field));
    var element :=
      if Js.Truthy(subfield)
      then Js.Obj(Js.Put(Js.Spread(Js.ElementAt(items, index)), Js.ToJsString(subfield), value))
      else value;
    Success(Js.Put(prev, field, Js.Arr(Js.StoreAt(items, index, element))))
  }

  /** What `addArrayItem` appends: `typeof v === 'object'` (an object, an
      array or null) gives the shallow copy `{...v}`, anything else itself. */
  function AppendedCopy(initialValue: Js.Value): (c: Js.Value)
    ensures Js.IsObjectType(initialValue) ==>
              c.Obj? && forall k :: Js.Lookup(c.props, k) == Js.Field(initialValue, k)
    ensures initialValue.Obj? ==> c == initialValue
    ensures initialValue.Null? ==> c == Js.Obj([])
    ensures !Js.IsObjectType(initialValue) ==> c == initialValue
  {
    if Js.IsObjectType(initialValue) then Js.Obj(Js.Spread(initialValue)) else initialValue
  }

  /** `addArrayItem(field, initialValue = '')`. */
  function AddArrayItem(prev: Js.Props, field: string, initialValue: Js.Value): (r: Result<Js.Props, Js.Exception>)
    ensures r.Success? <==> Js.Iterate(Js.Lookup(prev, field)).Success?
    ensures r.Success? ==>
              var before := Js.Iterate(Js.Lookup(prev, field)).value;
              var after := Js.Lookup(r.value, field);
              var v := if initialValue.Undefined? then Js.Str("") else initialValue;
              after.Arr? && |after.items| == |before| + 1 && after.items[..|before|] == before &&
              after.items[|before|] == AppendedCopy(v)
    ensures r.Success? ==> forall k :: k != field ==> Js.Lookup(r.value, k) == Js.Lookup(prev, k)
  {
    CreateEvent.HandleAddArrayItem(prev, field, AppendedCopy(if initialValue.Undefined? then Js.Str("") else initialValue))
  }

  /** `removeArrayItem(field, index)` is the same filter as on the creation
      form: in range, the list loses exactly element `index`, in order, and
      nothing else. */
  lemma RemoveArrayItemDeletesOne(prev: Js.Props, field: string, index: int)
    requires Js.Lookup(prev, field).Arr? && 0 <= index < |Js.Lookup(prev, field).items|
    ensures var before := Js.Lookup(prev, field).items;
            var r := CreateEvent.HandleRemoveArrayItem(prev, field, index);
            r.Success? &&
            Js.Lookup(r.value, field) == Js.Arr(before[..index] + before[index + 1..]) &&
            multiset(Js.Lookup(r.value, field).items) + multiset{before[index]} == multiset(before)
  {
    Js.SliceOutElements(Js.Lookup(prev, field).items, index);
  }

  /** `handleLocationChange(locationType, field, value)`: only `field` of
      `<locationType>Location` changes; its other properties and every other
      field of the form read as before. A missing location spreads as `{}`. */
  function HandleLocationChange(prev: Js.Props, locationType: string, field: string, value: Js.Value): (r: Js.Props)
    ensures var key := locationType + "Location";
            Js.Lookup(r, key).Obj? && Js.Field(Js.Lookup(r, key), field) == value &&
            (forall f :: f != field ==> Js.Field(Js.Lookup(r, key), f) == Js.Field(Js.Lookup(prev, key), f)) &&
            (forall k :: k != key ==> Js.Lookup(r, k) == Js.Lookup(prev, k))
  {
    var key := locationType + "Location";
    Js.Put(prev, key, Js.Obj(Js.Put(Js.Spread(Js.Lookup(prev, key)), field, value)))
  }

  /** `handleDiscountChange(userType, membership, value)`: stores
      `parseInt(value) || 0` in `membershipDiscounts[userType][membership]`.
      Reading `membershipDiscounts[userType]` throws when the discounts are
      undefined or null. */
  function HandleDiscountChange(prev: Js.Props, userType: string, membership: string, value: string): (r: Result<Js.Props, Js.Exception>)
    ensures r.Success? <==> !Js.Nullish(Js.Lookup(prev, "membershipDiscounts"))
    ensures r.Failure? ==> r.error == Js.TypeError
    ensures r.Success? ==>
              var before := Js.Lookup(prev, "membershipDiscounts");
              var inner := Js.Prop(before, userType).value;
              var after := Js.Lookup(r.value, "membershipDiscounts");
              && Js.Field(Js.Field(after, userType), membership) == Js.Num(Text.ParseIntOrZero(value))
              && (forall m :: m != membership ==> Js.Field(Js.Field(after, userType), m) == Js.Field(inner, m))
              && (forall u :: u != userType ==> Js.Field(after, u) == Js.Field(before, u))
              && (forall k :: k != "membershipDiscounts" ==> Js.Lookup(r.value, k) == Js.Lookup(prev, k))
  {
    var discounts := Js.Lookup(prev, "membershipDiscounts");
    var inner :- Js.Prop(discounts, userType);
    var entry := Js.Put(Js.Spread(inner), membership, Js.Num(Text.ParseIntOrZero(value)));
    var byType := Js.Put(Js.Spread(discounts), userType, Js.Obj(entry));
    var next := Js.Put(prev, "membershipDiscounts", Js.Obj(byType));
    assert Js.Lookup(next, "membershipDiscounts") == Js.Obj(byType);
    assert Js.Spread(Js.Obj(byType)) == byType && Js.Spread(Js.Obj(entry)) == entry;
    Success(next)
  }

  /** A discount typed as an integer is stored as that integer; an input with
      no leading digits (an emptied field, say) stores 0. */
  lemma DiscountReadsTypedNumber(prev: Js.Props, userType: string, membership: string, n: int)
    requires !Js.Nullish(Js.Lookup(prev, "membershipDiscounts"))
    ensures var r := HandleDiscountChange(prev, userType, membership, Text.IntToDecimal(n)).value;
            Js.Field(Js.Field(Js.Lookup(r, "membershipDiscounts"), userType), membership) == Js.Num(n)
    ensures var r := HandleDiscountChange(prev, userType, membership, "").value;
            Js.Field(Js.Field(Js.Lookup(r, "membershipDiscounts"), userType), membership) == Js.Num(0)
  {
    Text.ParseIntOfDecimal(n);
    assert Text.ParseIntOrZero(Text.IntToDecimal(n)) == n;
    Text.ParseIntOrZeroOfEmpty();
    var typed := HandleDiscountChange(prev, userType, membership, Text.IntToDecimal(n));
    var emptied := HandleDiscountChange(prev, userType, membership, "");
    assert typed.Success? && emptied.Success?;
  }

  // ---------------------------------------------------------------------------
  // The itinerary editors, on the shared objects

  /** The day-number input: `handleArrayChange('itinerary', dayIndex, 'day',
      parseInt(value))` puts a new day object at `dayIndex` in a copy of the
      itinerary; it takes the parsed number (NaN when there is none) and keeps
      a reference to the same activities array and copies every other
      property of the day it replaces (`{...day, day: n}`). */
  method SetDayNumber(itinerary: seq<Itinerary.Day>, dayIndex: int, input: string) returns (r: seq<Itinerary.Day>)
    requires 0 <= dayIndex < |itinerary|
    ensures |r| == |itinerary| && forall j :: 0 <= j < |r| && j != dayIndex ==> r[j] == itinerary[j]
    ensures fresh(r[dayIndex]) && r[dayIndex].activities == itinerary[dayIndex].activities
    ensures r[dayIndex].others == itinerary[dayIndex].others
    ensures r[dayIndex].day == match Text.ParseInt(input) case Some(n) => Js.Num(n) case None => Js.NaN
  {
    var day := match Text.ParseInt(input) case Some(n) => Js.Num(n) case None => Js.NaN;
    var copy := new Itinerary.Day(day, itinerary[dayIndex].activities, itinerary[dayIndex].others);
    r := itinerary[dayIndex := copy];
  }

  /** Editing the time or the description of an activity: the outer array is
      copied and the value is written into the activity object itself. */
  method EditActivity(itinerary: seq<Itinerary.Day>, dayIndex: int, actIndex: int,
                      field: Itinerary.ActivityField, value: Js.Value)
    returns (r: seq<Itinerary.Day>)
    requires 0 <= dayIndex < |itinerary| && 0 <= actIndex < |itinerary[dayIndex].activities.items|
    modifies itinerary[dayIndex].activities.items[actIndex]
    ensures r == itinerary
    ensures var a := itinerary[dayIndex].activities.items[actIndex];
            field.Time? ==> a.time == value && a.description == old(a.description)
    ensures var a := itinerary[dayIndex].activities.items[actIndex];
            field.Description? ==> a.description == value && a.time == old(a.time)
  {
    r := itinerary;
    Itinerary.SetActivityField(r[dayIndex].activities.items[actIndex], field, value);
  }

  /** Removing an activity: the outer array is copied and the day object
      itself (shared with the previous state) receives the filtered array. */
  method RemoveActivity(itinerary: seq<Itinerary.Day>, dayIndex: int, actIndex: int) returns (r: seq<Itinerary.Day>)
    requires 0 <= dayIndex < |itinerary|
    modifies itinerary[dayIndex]
    ensures r == itinerary
    ensures var day := itinerary[dayIndex];
            fresh(day.activities) && day.day == old(day.day) && day.others == old(day.others) &&
            day.activities.items == Js.RemoveAt(old(day.activities.items), actIndex)
  {
    r := itinerary;
    var day := r[dayIndex];
    day.activities := new Itinerary.ActivityList(Js.RemoveAt(day.activities.items, actIndex));
  }

  /** "+ Añadir actividad": `push` of a new '08:00' activity onto the day's
      own activities array, which every holder of that array sees. */
  method AddActivity(itinerary: seq<Itinerary.Day>, dayIndex: int) returns (r: seq<Itinerary.Day>)
    requires 0 <= dayIndex < |itinerary|
    modifies itinerary[dayIndex].activities
    ensures r == itinerary
    ensures var list := itinerary[dayIndex].activities;
            var n := |old(list.items)|;
            |list.items| == n + 1 && list.items[..n] == old(list.items) && fresh(list.items[n]) &&
            list.items[n].time == Js.Str("08:00") && list.items[n].description == Js.Str("")
  {
    r := itinerary;
    var list := r[dayIndex].activities;
    var added := new Itinerary.Activity(Js.Str("08:00"), Js.Str(""));
    list.items := list.items + [added];
    assert list.items[..|list.items| - 1] == old(list.items);
  }

  /** "+ Añadir día": a copy of a new day numbered one past the current count,
      with one '08:00' activity. */
  method AddDay(itinerary: seq<Itinerary.Day>) returns (r: seq<Itinerary.Day>)
    ensures |r| == |itinerary| + 1 && r[..|itinerary|] == itinerary
    ensures var d := r[|itinerary|];
            fresh(d) && fresh(d.activities) && d.day == Js.Num(|itinerary| + 1) && d.others == [] &&
            |d.activities.items| == 1 && fresh(d.activities.items[0]) &&
            d.activities.items[0].time == Js.Str("08:00") && d.activities.items[0].description == Js.Str("")
  {
    var first := new Itinerary.Activity(Js.Str("08:00"), Js.Str(""));
    var list := new Itinerary.ActivityList([first]);
    var d := new Itinerary.Day(Js.Num(|itinerary| + 1), list, []);
    r := itinerary + [d];
    assert r[..|itinerary|] == itinerary;
  }
}
