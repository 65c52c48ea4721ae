/** The submit handler of the user-registration form
    (src/pages/users/CreateUser.jsx, `handleSubmit`): the required-field check,
    the phone and password checks, the payload sent to `POST /users`, and the
    text shown when something fails. The form state is an object; the date
    conversion, `JSON.stringify` and the reply of the post are inputs. */
module CreateUser {
  import opened Wrappers
  import Text
  import Js

  // ---------------------------------------------------------------------------
  // Required fields

  /** The required fields and their labels, in declaration order. */
  const RequiredFields: seq<(string, string)> := [
    ("documentType", "Tipo de documento"),
    ("documentNumber", "Número de documento"),
    ("firstName", "Nombres"),
    ("lastName", "Apellidos"),
    ("birthDate", "Fecha de nacimiento"),
    ("city", "Ciudad"),
    ("phone", "Teléfono"),
    ("email", "Email"),
    ("password", "Contraseña"),
    ("dataConsent", "Consentimiento de datos"),
    ("liabilityWaiver", "Exoneración de responsabilidad"),
    ("termsAcceptance", "Términos y condiciones")
  ]

  const ConsentFields: seq<string> := ["dataConsent", "liabilityWaiver", "termsAcceptance"]

  const MissingPrefix := "Campos requeridos faltantes:\n"
  const PhoneMessage := "El teléfono debe contener entre 10 y 15 dígitos"
  const PasswordMessage := "La contraseña debe tener al menos 8 caracteres"

  /** A consent counts as missing unless it is exactly `true`; any other field
      counts as missing when it is falsy. */
  predicate IsMissing(userData: Js.Props, field: string) {
    if field in ConsentFields then Js.Lookup(userData, field) != Js.Bool(true)
    else !Js.Truthy(Js.Lookup(userData, field))
  }

  /** The labels of the missing fields, in the order of `fields`. */
  function MissingLabels(userData: Js.Props, fields: seq<(string, string)>): (labels: seq<string>)
    ensures |labels| <= |fields|
  {
    if |fields| == 0 then []
    else (if IsMissing(userData, fields[0].0) then [fields[0].1] else []) + MissingLabels(userData, fields[1..])
  }

  lemma {:induction false} MissingLabelsConcat(userData: Js.Props, a: seq<(string, string)>, b: seq<(string, string)>)
    ensures MissingLabels(userData, a + b) == MissingLabels(userData, a) + MissingLabels(userData, b)
    decreases |a|
  {
    if |a| > 0 {
      assert (a + b)[0] == a[0];
      assert (a + b)[1..] == a[1..] + b;
      MissingLabelsConcat(userData, a[1..], b);
    } else {
      assert a + b == b;
    }
  }

  /** A missing field's label stands at the position given by the number of
      missing fields declared before it, so the labels keep the declaration
      order: of two missing fields, the one declared first is listed first. */
  lemma MissingLabelsInOrder(userData: Js.Props, fields: seq<(string, string)>, i: nat, j: nat)
    requires i < j < |fields|
    requires IsMissing(userData, fields[i].0) && IsMissing(userData, fields[j].0)
    ensures var labels := MissingLabels(userData, fields);
            var p := |MissingLabels(userData, fields[..i])|;
            var q := |MissingLabels(userData, fields[..j])|;
            p < q < |labels| && labels[p] == fields[i].1 && labels[q] == fields[j].1
  {
    LabelAtPosition(userData, fields, i);
    LabelAtPosition(userData, fields, j);
    MissingLabelsConcat(userData, fields[..i], fields[i..j]);
    assert fields[..i] + fields[i..j] == fields[..j];
    assert fields[i..j] == [fields[i]] + fields[i + 1..j];
    MissingLabelsConcat(userData, [fields[i]], fields[i + 1..j]);
  }

  lemma LabelAtPosition(userData: Js.Props, fields: seq<(string, string)>, i: nat)
    requires i < |fields| && IsMissing(userData, fields[i].0)
    ensures |MissingLabels(userData, fields[..i])| < |MissingLabels(userData, fields)|
    ensures MissingLabels(userData, fields)[|MissingLabels(userData, fields[..i])|] == fields[i].1
  {
    assert fields == fields[..i] + ([fields[i]] + fields[i + 1..]);
    MissingLabelsConcat(userData, fields[..i], [fields[i]] + fields[i + 1..]);
    MissingLabelsConcat(userData, [fields[i]], fields[i + 1..]);
  }

  /** No label is listed exactly when no field is missing. */
  lemma {:induction false} NoLabelsIffNoneMissing(userData: Js.Props, fields: seq<(string, string)>)
    ensures MissingLabels(userData, fields) == [] <==> forall i :: 0 <= i < |fields| ==> !IsMissing(userData, fields[i].0)
    decreases |fields|
  {
    if |fields| > 0 {
      NoLabelsIffNoneMissing(userData, fields[1..]);
      assert forall i :: 1 <= i < |fields| ==> fields[i] == fields[1..][i - 1];
    }
  }

  // ---------------------------------------------------------------------------
  // Validation

  /** The phone as the pattern `^[0-9]{10,15}$` sees it after
      `replace(/\D/g, '')`. */
  predicate PhoneAccepted(digits: string) {
    Text.AllDigits(digits) && 10 <= |digits| <= 15
  }

  /** `password.length < 8`: a comparison with a length that is not a number
      (a password without `length`) is false. */
  predicate PasswordTooShort(password: Js.Value) {
    var length := Js.Prop(password, "length");
    length.Success? && Js.ToNumber(length.value).Some? && Js.ToNumber(length.value).value < 8
  }

  /** The three checks in order; the first failure wins. The phone check
      throws a TypeError when the phone is not a string. */
  function Validate(userData: Js.Props): (r: Result<(), Js.Exception>)
    ensures MissingLabels(userData, RequiredFields) != [] ==>
              r == Failure(Js.Error(MissingPrefix + Text.Join(MissingLabels(userData, RequiredFields), '\n')))
    ensures var phone := Js.Lookup(userData, "phone");
            MissingLabels(userData, RequiredFields) == [] && phone.Str? && !PhoneAccepted(Text.KeepDigits(phone.s)) ==>
              r == Failure(Js.Error(PhoneMessage))
    ensures MissingLabels(userData, RequiredFields) == [] && !Js.Lookup(userData, "phone").Str? ==>
              r == Failure(Js.TypeError)
    ensures var phone := Js.Lookup(userData, "phone");
            MissingLabels(userData, RequiredFields) == [] && phone.Str? && PhoneAccepted(Text.KeepDigits(phone.s)) &&
            PasswordTooShort(Js.Lookup(userData, "password")) ==>
              r == Failure(Js.Error(PasswordMessage))
    ensures r.Success? <==>
              (forall i :: 0 <= i < |RequiredFields| ==> !IsMissing(userData, RequiredFields[i].0)) &&
              Js.Lookup(userData, "phone").Str? &&
              PhoneAccepted(Text.KeepDigits(Js.Lookup(userData, "phone").s)) &&
              !PasswordTooShort(Js.Lookup(userData, "password"))
  {
    var missing := MissingLabels(userData, RequiredFields);
    NoLabelsIffNoneMissing(userData, RequiredFields);
    if |missing| > 0 then Failure(Js.Error(MissingPrefix + Text.Join(missing, '\n')))
    else
      var phone :- Js.StringReceiver(Js.Lookup(userData, "phone"));
      if !PhoneAccepted(Text.KeepDigits(phone)) then Failure(Js.Error(PhoneMessage))
      else if PasswordTooShort(Js.Lookup(userData, "password")) then Failure(Js.Error(PasswordMessage))
      else Success(())
  }

  /** A string password passes exactly when it is at least 8 UTF-16 code units
      long, as JavaScript's `length` counts; for a password of characters of
      the Basic Multilingual Plane that is 8 characters. */
  lemma StringPasswordLength(password: string)
    ensures PasswordTooShort(Js.Str(password)) <==> Text.Utf16Length(password) < 8
    ensures (forall i :: 0 <= i < |password| ==> password[i] as int < 0x10000) ==>
              (PasswordTooShort(Js.Str(password)) <==> |password| < 8)
  {
    var n := Text.Utf16Length(password);
    assert Js.Prop(Js.Str(password), "length") == Success(Js.Num(n));
    assert Js.ToNumber(Js.Num(n)) == Some(n);
    if forall i :: 0 <= i < |password| ==> password[i] as int < 0x10000 {
      Text.Utf16LengthOfBmp(password);
    }
  }

  /** Four characters outside the Basic Multilingual Plane (an emoji each)
      make a password of length 8, which passes: the check counts code units,
      not characters. */
  lemma AstralPasswordPasses()
    ensures !PasswordTooShort(Js.Str("\U{1F600}\U{1F600}\U{1F600}\U{1F600}"))
  {
    var e := "\U{1F600}";
    assert Text.Utf16Length(e) == 2 by { assert e[..0] == ""; }
    Text.Utf16LengthConcat(e, e);
    Text.Utf16LengthConcat(e + e, e);
    Text.Utf16LengthConcat(e + e + e, e);
    assert e + e + e + e == "\U{1F600}\U{1F600}\U{1F600}\U{1F600}";
  }

  // ---------------------------------------------------------------------------
  // The payload

  /** The payload before the optional fields, in source order. `toIso` stands
      for `new Date(v).toISOString()`, which throws on an invalid date; the
      phone and email must be strings for `replace` and `toLowerCase`. */
  function BasePayload(userData: Js.Props, toIso: Js.Value -> Result<string, Js.Exception>): Result<Js.Props, Js.Exception> {
    var birthDate :- toIso(Js.Lookup(userData, "birthDate"));
    var phone :- Js.StringReceiver(Js.Lookup(userData, "phone"));
    var email :- Js.StringReceiver(Js.Lookup(userData, "email"));
    Success(BaseProps(userData, birthDate, phone, email))
  }

  /** The object literal itself, once the throwing steps are done, in the
      groups its comments name. */
  function BaseProps(userData: Js.Props, birthDate: string, phone: string, email: string): Js.Props {
    BasicInfo(userData) + (Dates(birthDate) + (ContactInfo(userData, phone, email) +
      (Security(userData) + (Consents() + (PointCounters() + (EmptyLists() + Defaults(userData)))))))
  }

  function BasicInfo(userData: Js.Props): (p: Js.Props)
    ensures Js.Keys(p) == ["documentType", "documentNumber", "firstName", "lastName"]
  {
    [
      ("documentType", Js.Lookup(userData, "documentType")),
      ("documentNumber", Js.Lookup(userData, "documentNumber")),
      ("firstName", Js.Lookup(userData, "firstName")),
      ("lastName", Js.Lookup(userData, "lastName"))
    ]
  }

  function Dates(birthDate: string): (p: Js.Props)
    ensures Js.Keys(p) == ["birthDate"]
  {
    [("birthDate", Js.Str(birthDate))]
  }

  function ContactInfo(userData: Js.Props, phone: string, email: string): (p: Js.Props)
    ensures Js.Keys(p) == ["city", "country", "phone", "email"]
  {
    [
      ("city", Js.Lookup(userData, "city")),
      ("country", Js.Or(Js.Lookup(userData, "country"), Js.Str("Colombia"))),
      ("phone", Js.Str(Text.KeepDigits(phone))),
      ("email", Js.Str(Text.Lower(email)))
    ]
  }

  function Security(userData: Js.Props): (p: Js.Props)
    ensures Js.Keys(p) == ["password", "role", "temporaryPassword"]
  {
    [
      ("password", Js.Lookup(userData, "password")),
      ("role", Js.Or(Js.Lookup(userData, "role"), Js.Str("Membresia Friend"))),
      ("temporaryPassword", Js.Or(Js.Lookup(userData, "temporaryPassword"), Js.Bool(false)))
    ]
  }

  function Consents(): (p: Js.Props)
    ensures Js.Keys(p) == ConsentFields
  {
    [("dataConsent", Js.Bool(true)), ("liabilityWaiver", Js.Bool(true)), ("termsAcceptance", Js.Bool(true))]
  }

  const CounterFields: seq<string> :=
    ["points", "ridePoints", "eventPoints", "trainingPoints", "partnerConsumptionPoints", "otherPoints", "pointsHistory"]

  function PointCounters(): (p: Js.Props)
    ensures Js.Keys(p) == CounterFields
  {
    [
      ("points", Js.Num(0)),
      ("ridePoints", Js.Num(0)),
      ("eventPoints", Js.Num(0)),
      ("trainingPoints", Js.Num(0)),
      ("partnerConsumptionPoints", Js.Num(0)),
      ("otherPoints", Js.Num(0)),
      ("pointsHistory", Js.Num(0))
    ]
  }

  function EmptyLists(): Js.Props {
    [
      ("upcomingEvents", Js.Arr([])),
      ("registeredEvents", Js.Arr([])),
      ("complaints", Js.Arr([])),
      ("membershipBenefits", Js.Arr([]))
    ]
  }

  function Defaults(userData: Js.Props): Js.Props {
    [
      ("active", Js.Bool(true)),
      ("binaryGender", Js.Or(Js.Lookup(userData, "binaryGender"), Js.Str("Prefiero no decir"))),
      ("avatar", Js.Or(Js.Lookup(userData, "avatar"), Js.Str("/default-avatar.jpg")))
    ]
  }

  /** The base payload is built exactly when the birth date converts and the
      phone and email are strings. */
  lemma BasePayloadThrows(userData: Js.Props, toIso: Js.Value -> Result<string, Js.Exception>)
    ensures BasePayload(userData, toIso).Success? <==>
              toIso(Js.Lookup(userData, "birthDate")).Success? &&
              Js.Lookup(userData, "phone").Str? && Js.Lookup(userData, "email").Str?
    ensures toIso(Js.Lookup(userData, "birthDate")).Failure? ==>
              BasePayload(userData, toIso) == Failure(toIso(Js.Lookup(userData, "birthDate")).error)
  {
  }

  /** Where a key of the base payload is found: in the first group that
      names it. */
  lemma BasePropsLookup(userData: Js.Props, birthDate: string, phone: string, email: string, key: string)
    ensures Js.Lookup(BaseProps(userData, birthDate, phone, email), key) ==
              if key in Js.Keys(BasicInfo(userData)) then Js.Lookup(BasicInfo(userData), key)
              else if key in Js.Keys(Dates(birthDate)) then Js.Lookup(Dates(birthDate), key)
              else if key in Js.Keys(ContactInfo(userData, phone, email)) then Js.Lookup(ContactInfo(userData, phone, email), key)
              else if key in Js.Keys(Security(userData)) then Js.Lookup(Security(userData), key)
              else if key in Js.Keys(Consents()) then Js.Lookup(Consents(), key)
              else if key in Js.Keys(PointCounters()) then Js.Lookup(PointCounters(), key)
              else Js.Lookup(EmptyLists() + Defaults(userData), key)
  {
    var tail := EmptyLists() + Defaults(userData);
    var r3 := Security(userData) + (Consents() + (PointCounters() + tail));
    var r2 := ContactInfo(userData, phone, email) + r3;
    Js.LookupConcat(BasicInfo(userData), Dates(birthDate) + r2, key);
    Js.LookupConcat(Dates(birthDate), r2, key);
    Js.LookupConcat(ContactInfo(userData, phone, email), r3, key);
    Js.LookupConcat(Security(userData), Consents() + (PointCounters() + tail), key);
    Js.LookupConcat(Consents(), PointCounters() + tail, key);
    Js.LookupConcat(PointCounters(), tail, key);
  }

  /** The contact and security groups: the phone is digits only, the email
      lower-cased, `country` and `role` take their defaults when falsy, and
      the document number is copied as typed. Their keys come before every
      other group's, so these are the payload's values (`BasePropsLookup`). */
  lemma ContactNormalised(userData: Js.Props, phone: string, email: string)
    ensures Js.Lookup(BasicInfo(userData), "documentNumber") == Js.Lookup(userData, "documentNumber")
    ensures var contact := ContactInfo(userData, phone, email);
            && Js.Lookup(contact, "phone") == Js.Str(Text.KeepDigits(phone))
            && Text.AllDigits(Js.Lookup(contact, "phone").s)
            && Js.Lookup(contact, "email") == Js.Str(Text.Lower(email))
            && Js.Lookup(contact, "country") == (if Js.Truthy(Js.Lookup(userData, "country")) then Js.Lookup(userData, "country") else Js.Str("Colombia"))
    ensures Js.Lookup(Security(userData), "role") == (if Js.Truthy(Js.Lookup(userData, "role")) then Js.Lookup(userData, "role") else Js.Str("Membresia Friend"))
  {
    var contact := ContactInfo(userData, phone, email);
    Js.LookupAt(BasicInfo(userData), 1, "documentNumber");
    Js.LookupAt(contact, 1, "country");
    Js.LookupAt(contact, 2, "phone");
    Js.LookupAt(contact, 3, "email");
    Js.LookupAt(Security(userData), 1, "role");
  }

  /** The fixed groups: the three consents are true and every point counter
      is 0, whatever the form holds. */
  lemma FixedValues()
    ensures forall k :: k in ConsentFields ==> Js.Lookup(Consents(), k) == Js.Bool(true)
    ensures forall k :: k in CounterFields ==> Js.Lookup(PointCounters(), k) == Js.Num(0)
  {
    forall k | k in ConsentFields ensures Js.Lookup(Consents(), k) == Js.Bool(true) {
      Js.AllEqual(Consents(), k, Js.Bool(true));
    }
    forall k | k in CounterFields ensures Js.Lookup(PointCounters(), k) == Js.Num(0) {
      Js.AllEqual(PointCounters(), k, Js.Num(0));
    }
  }

  /** The optional fields, copied only when truthy. */
  const OptionalFields: seq<string> := [
    "address", "neighborhood", "whatsapp", "birthPlace",
    "genderIdentity", "occupation", "discipline", "bloodType",
    "rhFactor", "allergies", "physicalConditions", "medicalTreatments",
    "requiredMedications", "healthInsurance", "emergencyContactName",
    "emergencyContactRelationship", "emergencyContactPhone",
    "emergencyContactCountry", "motorcycleBrand", "motorcycleModel",
    "motorcycleYear", "motorcyclePlate", "motorcycleDisplacement"
  ]

  /** One turn of the `forEach`: a truthy value is copied, then digit-stripped
      when the field name contains "Phone" and upper-cased for the plate (both
      throw on a value that is not a string). */
  function OptionalStep(userData: Js.Props, payload: Js.Props, field: string): Result<Js.Props, Js.Exception> {
    var value := Js.Lookup(userData, field);
    if !Js.Truthy(value) then Success(payload)
    else
      var copied := Js.Put(payload, field, value);
      var stripped :- if Text.Contains(field, "Phone") then
                        var s :- Js.StringReceiver(value);
                        Success(Js.Put(copied, field, Js.Str(Text.KeepDigits(s))))
                      else Success(copied);
      if field == "motorcyclePlate" then
        var s :- Js.StringReceiver(value);
        Success(Js.Put(stripped, field, Js.Str(Text.Upper(s))))
      else Success(stripped)
  }

  /** The turns over `fields`, in order; a throw ends the loop. */
  function WithOptional(userData: Js.Props, payload: Js.Props, fields: seq<string>): Result<Js.Props, Js.Exception> {
    if |fields| == 0 then Success(payload)
    else
      var before :- WithOptional(userData, payload, fields[..|fields| - 1]);
      OptionalStep(userData, before, fields[|fields| - 1])
  }

  /** The value an optional field ends with. */
  function Normalised(field: string, value: Js.Value): Js.Value {
    if field == "motorcyclePlate" && value.Str? then Js.Str(Text.Upper(value.s))
    else if Text.Contains(field, "Phone") && value.Str? then Js.Str(Text.KeepDigits(value.s))
    else value
  }

  /** A transformed field whose value cannot take the transformation. */
  predicate Untransformable(userData: Js.Props, field: string) {
    var value := Js.Lookup(userData, field);
    Js.Truthy(value) && (Text.Contains(field, "Phone") || field == "motorcyclePlate") && !value.Str?
  }

  /** `optionalFields.forEach(…)`, writing into the payload. */
  method AddOptionalFields(userData: Js.Props, payload: Js.Props, fields: seq<string>) returns (r: Result<Js.Props, Js.Exception>)
    ensures r == WithOptional(userData, payload, fields)
  {
    var acc := payload;
    for i := 0 to |fields|
      invariant WithOptional(userData, payload, fields[..i]) == Success(acc)
    {
      assert fields[..i + 1][..i] == fields[..i];
      var next := AddOptionalField(userData, acc, fields[i]);
      if next.Failure? {
        InterruptedLoop(userData, payload, fields, i + 1);
        return next;
      }
      acc := next.value;
    }
    assert fields[..|fields|] == fields;
    r := Success(acc);
  }

  /** The body of one turn, writing into the payload. */
  method AddOptionalField(userData: Js.Props, payload: Js.Props, field: string) returns (r: Result<Js.Props, Js.Exception>)
    ensures r == OptionalStep(userData, payload, field)
  {
    var acc := payload;
    var value := Js.Lookup(userData, field);
    if Js.Truthy(value) {
      acc := Js.Put(acc, field, value);
      if Text.Contains(field, "Phone") {
        if !value.Str? {
          return Failure(Js.TypeError);
        }
        acc := Js.Put(acc, field, Js.Str(Text.KeepDigits(value.s)));
      }
      if field == "motorcyclePlate" {
        if !value.Str? {
          return Failure(Js.TypeError);
        }
        acc := Js.Put(acc, field, Js.Str(Text.Upper(value.s)));
      }
    }
    r := Success(acc);
  }

  /** Once a turn throws, the loop as a whole throws the same error. */
  lemma {:induction false} InterruptedLoop(userData: Js.Props, payload: Js.Props, fields: seq<string>, k: nat)
    requires k <= |fields|
    requires WithOptional(userData, payload, fields[..k]).Failure?
    ensures WithOptional(userData, payload, fields) == WithOptional(userData, payload, fields[..k])
    decreases |fields| - k
  {
    if k < |fields| {
      assert fields[..k + 1][..k] == fields[..k];
      InterruptedLoop(userData, payload, fields, k + 1);
    } else {
      assert fields[..k] == fields;
    }
  }

  /** What one turn leaves under a key `k`. */
  lemma OptionalStepEffect(userData: Js.Props, payload: Js.Props, field: string, k: string)
    requires OptionalStep(userData, payload, field).Success?
    ensures Js.Lookup(OptionalStep(userData, payload, field).value, k) ==
              if k == field && Js.Truthy(Js.Lookup(userData, k)) then Normalised(k, Js.Lookup(userData, k))
              else Js.Lookup(payload, k)
  {
  }

  /** What the loop leaves under a key `k`: a key outside `fields` keeps its
      value; a key of `fields` holds its normalised value when the form's
      value is truthy and its earlier value otherwise. */
  lemma {:induction false} WithOptionalEffect(userData: Js.Props, payload: Js.Props, fields: seq<string>, k: string)
    requires WithOptional(userData, payload, fields).Success?
    ensures Js.Lookup(WithOptional(userData, payload, fields).value, k) ==
              if k in fields && Js.Truthy(Js.Lookup(userData, k)) then Normalised(k, Js.Lookup(userData, k))
              else Js.Lookup(payload, k)
    decreases |fields|
  {
    if |fields| > 0 {
      var init := fields[..|fields| - 1];
      var last := fields[|fields| - 1];
      WithOptionalEffect(userData, payload, init, k);
      OptionalStepEffect(userData, WithOptional(userData, payload, init).value, last, k);
      assert fields == init + [last];
      assert k in fields <==> k in init || k == last;
    }
  }

  /** A turn throws exactly on a value that cannot take its transformation. */
  lemma OptionalStepThrows(userData: Js.Props, payload: Js.Props, field: string)
    ensures OptionalStep(userData, payload, field).Failure? <==> Untransformable(userData, field)
    ensures OptionalStep(userData, payload, field).Failure? ==> OptionalStep(userData, payload, field).error == Js.TypeError
  {
  }

  /** The loop runs to the end exactly when no truthy phone or plate value is
      a non-string, and otherwise throws a TypeError. */
  lemma {:induction false} WithOptionalSucceedsIff(userData: Js.Props, payload: Js.Props, fields: seq<string>)
    ensures WithOptional(userData, payload, fields).Success? <==>
              forall i :: 0 <= i < |fields| ==> !Untransformable(userData, fields[i])
    ensures WithOptional(userData, payload, fields).Failure? ==> WithOptional(userData, payload, fields).error == Js.TypeError
    decreases |fields|
  {
    if |fields| > 0 {
      var init := fields[..|fields| - 1];
      var last := fields[|fields| - 1];
      assert forall i :: 0 <= i < |init| ==> init[i] == fields[i];
      WithOptionalSucceedsIff(userData, payload, init);
      var before := WithOptional(userData, payload, init);
      if before.Success? {
        OptionalStepThrows(userData, before.value, last);
      }
    }
  }

  /** Among the optional fields only emergencyContactPhone has "Phone" in its
      name, so it is the only one digit-stripped. */
  lemma OnlyEmergencyPhoneIsStripped()
    ensures forall i :: 0 <= i < |OptionalFields| ==>
              (Text.Contains(OptionalFields[i], "Phone") <==> OptionalFields[i] == "emergencyContactPhone")
  {
    NoPhoneInFirstTwelve();
    PhoneFieldsFromTwelve();
  }

  lemma NoPhoneInFirstTwelve()
    ensures forall i :: 0 <= i < 12 ==> !Text.Contains(OptionalFields[i], "Phone") && OptionalFields[i] != "emergencyContactPhone"
  {
    forall i | 0 <= i < 12
      ensures !Text.Contains(OptionalFields[i], "Phone") && OptionalFields[i] != "emergencyContactPhone"
    {
      if i == 3 {
        Text.MissingCharNotContained(OptionalFields[i], "Phone", 'o');
      } else {
        Text.MissingCharNotContained(OptionalFields[i], "Phone", 'P');
      }
    }
  }

  lemma PhoneFieldsFromTwelve()
    ensures forall i :: 12 <= i < |OptionalFields| ==>
              (Text.Contains(OptionalFields[i], "Phone") <==> OptionalFields[i] == "emergencyContactPhone")
  {
    forall i | 12 <= i < |OptionalFields|
      ensures Text.Contains(OptionalFields[i], "Phone") <==> OptionalFields[i] == "emergencyContactPhone"
    {
      var k := OptionalFields[i];
      if i == 16 {
        Text.ContainsAt(k, "Phone", 16);
      } else if i == 21 {
        Text.MissingCharNotContained(k, "Phone", 'h');
      } else {
        Text.MissingCharNotContained(k, "Phone", 'P');
      }
    }
  }

  // ---------------------------------------------------------------------------
  // Errors and the outcome

  /** How `api.post('/users', payload)` settles: with the axios response, or
      rejected with the response's `data` (undefined when there was no
      response) and the error's message. */
  datatype PostReply = Posted(response: Js.Value) | PostRejected(responseData: Js.Value, message: string)

  /** What reaches the catch block: an exception raised by the handler itself,
      or the rejection of the post. */
  datatype Caught = Raised(exception: Js.Exception) | Rejected(responseData: Js.Value, message: string)

  /** What the form ends up with: navigation to /users with the success notice
      and the new user, an error shown above the form (the message of a thrown
      `Error`, an engine error whose text is not modelled, or the backend's
      text), or a throw from inside the catch block itself. */
  datatype Outcome =
    | Created(notice: string, newUser: Js.Value)
    | ShowsError(text: Js.Value)
    | ShowsEngineError(error: Js.Exception)
    | HandlerThrows(error: Js.Exception)

  /** One line of the backend's error list: "• <field or 'Error'>: <message>". */
  function ErrorLine(entry: Js.Value): Result<string, Js.Exception> {
    var field :- Js.Prop(entry, "field");
    var message :- Js.Prop(entry, "message");
    Success("• " + Js.ToJsString(Js.Or(field, Js.Str("Error"))) + ": " + Js.ToJsString(message))
  }

  /** `errors.map(…)`: one line per entry, or the first entry's throw. */
  function ErrorLines(entries: seq<Js.Value>): (r: Result<seq<string>, Js.Exception>)
    ensures r.Success? ==> |r.value| == |entries|
  {
    if |entries| == 0 then Success([])
    else
      var first :- ErrorLine(entries[0]);
      var rest :- ErrorLines(entries[1..]);
      Success([first] + rest)
  }

  /** What the catch block shows for a truthy backend `data`: `errors`
      rendered one line per entry when truthy (an empty array gives the empty
      text), or else `message || JSON.stringify(data)`. `map` on an `errors`
      that is not an array throws. */
  function BackendText(data: Js.Value, stringify: Js.Value -> string): Result<Js.Value, Js.Exception> {
    var message :- Js.Prop(data, "message");
    var errors :- Js.Prop(data, "errors");
    if !Js.Truthy(errors) then Success(Js.Or(message, Js.Str(stringify(data))))
    else if !errors.Arr? then Failure(Js.TypeError)
    else
      var lines :- ErrorLines(errors.items);
      Success(Js.Str(Text.Join(lines, '\n')))
  }

  /** The text of an entry's line as the template literal builds it. */
  function EntryLine(field: string, message: string): string {
    "• " + (if field == "" then "Error" else field) + ": " + message
  }

  function EntryObject(field: string, message: string): Js.Value {
    Js.Obj([("field", Js.Str(field)), ("message", Js.Str(message))])
  }

  lemma ErrorLineOfEntry(field: string, message: string)
    ensures ErrorLine(EntryObject(field, message)) == Success(EntryLine(field, message))
  {
    var o := EntryObject(field, message);
    assert Js.Keys(o.props) == ["field", "message"];
    Js.LookupAt(o.props, 0, "field");
    Js.LookupAt(o.props, 1, "message");
  }

  lemma {:induction false} ErrorLinesOfEntries(entries: seq<(string, string)>)
    ensures ErrorLines(seq(|entries|, i requires 0 <= i < |entries| => EntryObject(entries[i].0, entries[i].1)))
            == Success(seq(|entries|, i requires 0 <= i < |entries| => EntryLine(entries[i].0, entries[i].1)))
    decreases |entries|
  {
    var objects := seq(|entries|, i requires 0 <= i < |entries| => EntryObject(entries[i].0, entries[i].1));
    var lines := seq(|entries|, i requires 0 <= i < |entries| => EntryLine(entries[i].0, entries[i].1));
    if |entries| > 0 {
      var tail := entries[1..];
      ErrorLinesOfEntries(tail);
      assert objects[1..] == seq(|tail|, i requires 0 <= i < |tail| => EntryObject(tail[i].0, tail[i].1));
      assert lines[1..] == seq(|tail|, i requires 0 <= i < |tail| => EntryLine(tail[i].0, tail[i].1));
      ErrorLineOfEntry(entries[0].0, entries[0].1);
      assert [lines[0]] + lines[1..] == lines;
    }
  }

  lemma EntryLinesHaveNoLineFeed(entries: seq<(string, string)>)
    requires forall i :: 0 <= i < |entries| ==> '\n' !in entries[i].0 && '\n' !in entries[i].1
    ensures forall i :: 0 <= i < |entries| ==> '\n' !in EntryLine(entries[i].0, entries[i].1)
  {
  }

  /** A backend error list whose entries each carry a line-feed-free field and
      message is shown one entry per line, in order, each line naming its
      field, or 'Error' when the field is empty. */
  lemma BackendErrorListOnePerLine(entries: seq<(string, string)>, message: Js.Value, stringify: Js.Value -> string)
    requires |entries| >= 1
    requires forall i :: 0 <= i < |entries| ==> '\n' !in entries[i].0 && '\n' !in entries[i].1
    ensures var objects := seq(|entries|, i requires 0 <= i < |entries| => EntryObject(entries[i].0, entries[i].1));
            var lines := seq(|entries|, i requires 0 <= i < |entries| => EntryLine(entries[i].0, entries[i].1));
            var data := Js.Obj([("message", message), ("errors", Js.Arr(objects))]);
            && BackendText(data, stringify) == Success(Js.Str(Text.Join(lines, '\n')))
            && Text.Split(Text.Join(lines, '\n'), '\n') == lines
  {
    var lines := seq(|entries|, i requires 0 <= i < |entries| => EntryLine(entries[i].0, entries[i].1));
    var objects := seq(|entries|, i requires 0 <= i < |entries| => EntryObject(entries[i].0, entries[i].1));
    var props := [("message", message), ("errors", Js.Arr(objects))];
    assert Js.Keys(props) == ["message", "errors"];
    Js.LookupAt(props, 0, "message");
    Js.LookupAt(props, 1, "errors");
    ErrorLinesOfEntries(entries);
    assert Js.Prop(Js.Obj(props), "errors") == Success(Js.Arr(objects));
    assert ErrorLines(objects) == Success(lines);
    assert BackendText(Js.Obj(props), stringify) == Success(Js.Str(Text.Join(lines, '\n')));
    EntryLinesHaveNoLineFeed(entries);
    assert forall i :: 0 <= i < |lines| ==> '\n' !in lines[i];
    Text.SplitJoin(lines, '\n');
  }

  /** The catch block: a thrown `Error` shows its message; a rejection with
      truthy response data shows the backend's text; any other rejection shows
      the error's message. */
  function Report(caught: Caught, stringify: Js.Value -> string): (o: Outcome)
    ensures !o.Created?
    ensures caught.Raised? && caught.exception.Error? ==> o == ShowsError(Js.Str(caught.exception.message))
    ensures caught.Raised? && !caught.exception.Error? ==> o == ShowsEngineError(caught.exception)
    ensures caught.Rejected? && !Js.Truthy(caught.responseData) ==> o == ShowsError(Js.Str(caught.message))
    ensures caught.Rejected? && Js.Truthy(caught.responseData) ==>
              match BackendText(caught.responseData, stringify)
              case Success(text) => o == ShowsError(text)
              case Failure(e) => o == HandlerThrows(e)
  {
    match caught
    case Raised(Error(m)) => ShowsError(Js.Str(m))
    case Raised(e) => ShowsEngineError(e)
    case Rejected(data, message) =>
      if Js.Truthy(data) then
        match BackendText(data, stringify)
        case Success(text) => ShowsError(text)
        case Failure(e) => HandlerThrows(e)
      else ShowsError(Js.Str(message))
  }

  /** The notice passed to /users on success. */
  function Notice(payload: Js.Props): string {
    "Usuario " + Js.ToJsString(Js.Lookup(payload, "documentNumber")) + " creado con éxito!"
  }

  /** `response.data.user`, which throws when `data` is null or undefined. */
  function NewUser(response: Js.Value): Result<Js.Value, Js.Exception> {
    var data :- Js.Prop(response, "data");
    Js.Prop(data, "user")
  }

  /** `handleSubmit`. `sent` is the payload posted to /users, `None` when the
      handler threw before posting. */
  method HandleSubmit(userData: Js.Props, toIso: Js.Value -> Result<string, Js.Exception>,
                      stringify: Js.Value -> string, reply: PostReply)
    returns (sent: Option<Js.Props>, outcome: Outcome)
    // A failed check raises its message and nothing is posted.
    ensures Validate(userData).Failure? ==>
              sent == None && outcome == Report(Raised(Validate(userData).error), stringify)
    // The payload is posted exactly when the checks pass and building it
    // does not throw; the posted payload is the base payload with the
    // optional fields added.
    ensures sent.Some? <==>
              Validate(userData).Success? && BasePayload(userData, toIso).Success? &&
              WithOptional(userData, BasePayload(userData, toIso).value, OptionalFields).Success?
    ensures sent.Some? ==> sent == Some(WithOptional(userData, BasePayload(userData, toIso).value, OptionalFields).value)
    ensures Validate(userData).Success? && BasePayload(userData, toIso).Failure? ==>
              outcome == Report(Raised(BasePayload(userData, toIso).error), stringify)
    ensures Validate(userData).Success? && BasePayload(userData, toIso).Success? &&
            WithOptional(userData, BasePayload(userData, toIso).value, OptionalFields).Failure? ==>
              outcome == Report(Raised(WithOptional(userData, BasePayload(userData, toIso).value, OptionalFields).error), stringify)
    ensures sent.Some? ==>
              match reply
              case Posted(response) =>
                if NewUser(response).Success? then outcome == Created(Notice(sent.value), NewUser(response).value)
                else outcome == Report(Raised(NewUser(response).error), stringify)
              case PostRejected(data, message) => outcome == Report(Rejected(data, message), stringify)
  {
    var checked := Validate(userData);
    if checked.Failure? {
      return None, Report(Raised(checked.error), stringify);
    }
    var base := BasePayload(userData, toIso);
    if base.Failure? {
      return None, Report(Raised(base.error), stringify);
    }
    var payload := AddOptionalFields(userData, base.value, OptionalFields);
    if payload.Failure? {
      return None, Report(Raised(payload.error), stringify);
    }
    sent := Some(payload.value);
    match reply {
      case Posted(response) =>
        var newUser := NewUser(response);
        if newUser.Success? {
          outcome := Created(Notice(payload.value), newUser.value);
        } else {
          outcome := Report(Raised(newUser.error), stringify);
        }
      case PostRejected(data, message) =>
        outcome := Report(Rejected(data, message), stringify);
    }
  }

  lemma DocumentNumberIsNotOptional()
    ensures "documentNumber" !in OptionalFields
  {
  }

  /** The notice names the document number the user typed: neither the base
      payload nor the optional fields change it. */
  lemma NoticeNamesDocumentNumber(userData: Js.Props, toIso: Js.Value -> Result<string, Js.Exception>)
    requires BasePayload(userData, toIso).Success?
    requires WithOptional(userData, BasePayload(userData, toIso).value, OptionalFields).Success?
    ensures Notice(WithOptional(userData, BasePayload(userData, toIso).value, OptionalFields).value)
            == "Usuario " + Js.ToJsString(Js.Lookup(userData, "documentNumber")) + " creado con éxito!"
  {
    var base := BasePayload(userData, toIso).value;
    WithOptionalEffect(userData, base, OptionalFields, "documentNumber");
    DocumentNumberIsNotOptional();
    var birthDate := toIso(Js.Lookup(userData, "birthDate")).value;
    BasePropsLookup(userData, birthDate, Js.Lookup(userData, "phone").s, Js.Lookup(userData, "email").s, "documentNumber");
    Js.LookupAt(BasicInfo(userData), 1, "documentNumber");
  }
}
