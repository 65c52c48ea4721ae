# Consola (BSKMT admin console) — a Dafny model of its request, auth and form logic

Consola is a React single-page console for the BSKMT motorcycle club. Its core
logic models:

- **Request signing**: every JSON POST sent through the typed client is signed.
  The client computes an HMAC-SHA-256 over `METHOD\npath\ntimestamp\nbody`,
  hex-encodes it and sends it in the `x-signature` header, next to the
  timestamp and the API key.
- **The HTTP wrapper**: `postJson` and `postFormData`, with the check of the
  base configuration and how the response is settled.
- **The axios client's interceptors**: attaching a bearer token; when the token
  has expired, trading the refresh token for new tokens; sending the browser
  to `/login` when the refresh or a request comes back 401.
- **The two authentication providers**: one keeps JWTs in `localStorage`, the
  other relies on a server session.
- **The form logic of the user creation page**: required-field checks, the
  payload build, optional fields and reporting backend errors.
- **The event creation and event edit pages**: state handlers, including the
  itinerary editors, which write into objects that the previous form state
  still holds.
- **The event list**: sorted by start date, with its status badge. As written
  the sort is called on the axios response object rather than its body (see
  "## Findings").
- **The pagination of the user table.**

The model is organised by the program's own files:

| module | file | models |
|---|---|---|
| `Wrappers` | wrappers.dfy | `Option` and `Result`, the latter used for a thrown exception or a rejected promise |
| `Js` | js.dfy | the JavaScript values the code handles: truthiness, `||`, `??`, `String(v)`, property reads that throw on undefined/null, object spread with override, array spread, `a[i] = v`, `filter` by index |
| `Text` | text.dfy | `parseInt`, `Number.prototype.toString()`, `split`/`join`, `includes`, `replace(/\D/g, '')`, ASCII `toUpperCase`/`toLowerCase`, `length` in UTF-16 code units |
| `Utf8` | utf8.dfy | `TextEncoder`: UTF-8 encoding of a string |
| `Hmac` | hmac.dfy | src/lib/security/hmac.ts and hmac.js: `utf8Buffer`, `hex`, `hmacSha256Hex` |
| `Signing` | signing.dfy | src/lib/security/signing.ts and signing.js: `signRequest` |
| `Http` | http.dfy | src/lib/http.ts |
| `Browser` | browser.dfy | `localStorage` and page navigation, as a `Window` object |
| `Tokens` | tokens.dfy | the two expiry checks of a decoded JWT |
| `ApiClient` | api_client.dfy | src/api/client.js: the request and response interceptors |
| `TokenAuth` | token_auth.dfy | src/contexts/AuthContext.jsx (token provider) |
| `SessionAuth` | session_auth.dfy | src/context/AuthContext.jsx (session provider) |
| `CreateUser` | create_user.dfy | `handleSubmit` of src/pages/users/CreateUser.jsx |
| `FormState` | form_state.dfy | the nested spreads of a dotted input name |
| `Itinerary` | itinerary.dfy | the itinerary days, activities and "includes" entries as shared heap objects |
| `CreateEvent` | create_event.dfy | the handlers of src/pages/events/CreateEvent.jsx |
| `UpdateEvent` | update_event.dfy | the load and handlers of src/pages/events/UpdateEvent.jsx |
| `EventList` | event_list.dfy | the load with its in-place sort, and the status badge, of src/pages/events/EventList.jsx |
| `UserList` | user_list.dfy | the pagination of src/components/users/UserList.jsx |

**How the browser and I/O are modelled:**
- JavaScript objects are key-ordered lists of properties (`Js.Props`). Spreads
  keep the key order JavaScript gives them.
- A handler that throws returns `Failure`.
- Everything the code awaits is an input to the model: the response of a
  fetch or an axios call, or its rejection.
- The clock, `JSON.stringify`, `JSON.parse`/`atob`, `jwtDecode`, URL
  resolution, date conversion and the HMAC primitive are parameters.
- Where the code changes state in place, the model is imperative:
  - `localStorage` and `window.location` are fields of `Browser.Window`.
  - The providers' React state is fields of their `AuthProvider` classes.
  - The itinerary's days and activities are objects that the previous and the
    next form state share, so an edit through one is seen through the other.
  - The event list is sorted in place in an `array`.
- The HMAC loop, the optional-field loop and the sort are `method`s with loop
  invariants. Each is proved against a specification function.

## Model

| member | source | states |
|---|---|---|
| Text.NatToDecimal | src/lib/security/signing.ts:4 | `toString()` of a whole number writes decimal digits with no leading zero |
| Text.ParseIntOfDecimal | src/pages/events/UpdateEvent.jsx:131 | `parseInt` reads back every integer written in decimal, negative ones included |
| Text.ParseIntOrZeroOfEmpty | src/pages/events/UpdateEvent.jsx:131 | `parseInt('')` is NaN, so `parseInt('') \|\| 0` is 0 |
| Text.Split | src/pages/events/CreateEvent.jsx:111 | `split` yields at least one part; no part holds the separator; a string without the separator is its only part |
| Text.SplitJoin | src/pages/users/CreateUser.jsx:235-237 | joining separator-free lines with `'\n'` and splitting the result gives the lines back |
| Text.JoinSplit | src/pages/events/CreateEvent.jsx:111 | joining the parts of a split gives the string back |
| Text.KeepDigits | src/pages/users/CreateUser.jsx:132 | `replace(/\D/g, '')` yields only digits, never lengthens and leaves an all-digit string as it is |
| Text.KeepDigitsOfChar | src/pages/users/CreateUser.jsx:132 | a single character is kept exactly when it is a digit |
| Text.KeepDigitsConcat | src/pages/users/CreateUser.jsx:132 | stripping a concatenation strips each part, so (with `KeepDigitsOfChar`) the phone keeps exactly its digits, in order; the same stripping is used at lines 154 and 205 |
| Text.CaseMappingLeavesOneCase | src/pages/users/CreateUser.jsx:208 | after `toUpperCase()` (here) no lower-case letter is left and after `toLowerCase()` (line 155) no upper-case letter; every character that is not a letter is left in place |
| Text.CaseMappingFolds | src/pages/users/CreateUser.jsx:155 | `toLowerCase()` (here) and `toUpperCase()` (line 208) are idempotent, and upper-casing a lower-cased string (or the reverse) is the same as mapping the original |
| Text.Utf16Length | src/pages/users/CreateUser.jsx:136 | a string's `length` counts UTF-16 code units: at least one and at most two per character |
| Text.Utf16LengthOfBmp | src/pages/users/CreateUser.jsx:136 | a string of Basic Multilingual Plane characters has one code unit per character |
| Text.Utf16LengthConcat | src/pages/users/CreateUser.jsx:136 | the code units of a concatenation are those of its parts |
| Js.Put | src/pages/events/CreateEvent.jsx:148-151 | `{...prev, [k]: v}` reads `v` at `k` and every other key as before; a new key goes last |
| Js.StoreAt | src/pages/events/CreateEvent.jsx:180 | `a[i] = v` on a copy: in range only element `i` changes; past the end the array grows to `i + 1` and the gap reads as undefined; a negative index leaves the elements alone |
| Js.RemoveAt | src/pages/events/CreateEvent.jsx:173 | `filter((_, i) => i !== index)` drops exactly element `index` when it is in range and nothing otherwise |
| Utf8.EncodeChar | src/lib/security/hmac.ts:6 | a character encodes as one to four bytes: one byte below 0x80, otherwise a lead byte followed by continuation bytes |
| Utf8.EncodeLength | src/lib/security/hmac.ts:6 | a string of n characters encodes as n to 4n bytes |
| Utf8.EncodeConcat | src/lib/security/hmac.ts:6 | encoding distributes over concatenation |
| Utf8.EncodeAscii | src/lib/security/hmac.ts:6 | an ASCII string encodes as its own character codes, one byte each |
| Hmac.HexDigit | src/lib/security/hmac.ts:15 | `toString(16)` of a value below 16 is a lowercase hex digit |
| Hmac.HexValue | src/lib/security/hmac.ts:15 | a lowercase hex digit is read back as the value that is written as that digit |
| Hmac.PadStart | src/lib/security/hmac.ts:15 | `padStart(2, '0')` fills on the left up to the width and keeps the string as its suffix |
| Hmac.ByteHexDigits | src/lib/security/hmac.ts:15 | a byte is written as its high nibble then its low nibble, with a leading '0' below 16 |
| Hmac.Hex | src/lib/security/hmac.ts:11-18 | the loop produces exactly the Base16 text of the bytes |
| Hmac.Base16Length | src/lib/security/hmac.js:8-15 | the hex text has two characters per byte |
| Hmac.Base16At | src/lib/security/hmac.js:8-15 | characters 2i and 2i+1 are the high and the low nibble of byte i |
| Hmac.AllLowerHexBase16 | src/lib/security/hmac.ts:11-18 | the hex text uses only the lowercase hex alphabet |
| Hmac.Base16Concat | src/lib/security/hmac.ts:11-18 | the hex text of a concatenation is the concatenation of the hex texts |
| Hmac.DecodeBase16 | src/lib/security/hmac.ts:11-18 | decoding the hex text gives the bytes back |
| Hmac.Base16OfDecode | src/lib/security/hmac.ts:11-18 | a text that decodes to some bytes is their hex text |
| Hmac.Base16Injective | src/lib/security/hmac.ts:11-18 | different byte strings have different hex texts |
| Hmac.SliceBuffer | src/lib/security/hmac.ts:8 | `ArrayBuffer.slice` in range is the sub-sequence and is never longer than the buffer |
| Hmac.ViewToBuffer | src/lib/security/hmac.ts:8 | slicing at a view's offset and length yields exactly the viewed bytes |
| Hmac.TextEncode | src/lib/security/hmac.ts:6 | the encoder yields a view over the whole of a fresh buffer, and the bytes it views are the UTF-8 encoding of the string |
| Hmac.Utf8Buffer | src/lib/security/hmac.ts:5-9 | `utf8Buffer(s)` is the UTF-8 encoding of `s` |
| Hmac.HmacSha256Hex | src/lib/security/hmac.ts:20-30 | the result decodes to the MAC of the UTF-8 secret and message; it is lowercase hex, 64 characters for a 32-byte MAC |
| Signing.Timestamp | src/lib/security/signing.ts:4 | the timestamp is the decimal floor of the milliseconds over 1000, with no line feed, spelt canonically: no sign at or after the epoch, a minus sign and no leading zero before it, and no leading zero except in "0" |
| Signing.SignRequest | src/lib/security/signing.ts:3-8 | returns the timestamp it signed; the signature decodes to the MAC, keyed with the API key, of `METHOD\npath\nts\nbody`; it is lowercase hex |
| Signing.SplitFourLines | src/lib/security/signing.ts:5 | four line-free fields joined by line feeds split back into the same four |
| Signing.PayloadFields | src/lib/security/signing.ts:5 | with a compact serialiser the payload splits into the upper-cased method, the path, the timestamp and the body text |
| Signing.ReturnedTimestampIsSigned | src/lib/security/signing.ts:4-7 | the timestamp returned is the third line of the signed payload |
| Signing.PostSignsAsPost | src/lib/security/signing.ts:5 | `post` and `POST` give the same signature |
| Signing.MethodCaseIrrelevant | src/lib/security/signing.ts:5 | methods that differ only in case give the same signature |
| Signing.FalsyBodySignsAsEmptyObject | src/lib/security/signing.ts:5 | any falsy body signs like `{}` |
| Http.FailureMessage | src/lib/http.ts:38-41 | the response text when it is non-empty, else "Request failed: <status>"; never empty |
| Http.Settle | src/lib/http.ts:38-44 | a rejected fetch rejects; a non-ok status throws the failure message; ok results are the JSON for a JSON content type and the text otherwise |
| Http.NonOkAlwaysThrows | src/lib/http.ts:38-41 | every non-ok response throws an Error with a non-empty message |
| Http.JsonHeaders | src/lib/http.ts:20-29 | Content-Type and x-api-key always; the timestamp and signature headers exactly when signing happened |
| Http.PostJson | src/lib/http.ts:15-45 | unconfigured base: throws and sends nothing. Otherwise it sends one POST with credentials `include` to the resolved URL. The two signing headers are present exactly when the API key is set, and they carry the signature of path plus query. The body is `JSON.stringify(body ?? {})`. The result is the settled response |
| Http.PostFormData | src/lib/http.ts:47-67 | the same configuration errors; the multipart POST carries only the x-api-key header and is settled in the same way |
| Http.SentBodyIsSignedBodyIff | src/lib/http.ts:34 | the body sent (`body ?? {}`) equals the body signed (`body \|\| {}`) exactly when the body is truthy or nullish |
| Browser.Window.GetItem | src/api/client.js:16 | `getItem` finds exactly the stored keys, with their values |
| Browser.Window.SetItem | src/api/client.js:31-32 | `setItem` stores the string form of the value and changes nothing else |
| Browser.Window.RemoveItem | src/api/client.js:38-39 | `removeItem` deletes the key and changes nothing else |
| Browser.Window.Navigate | src/api/client.js:40 | a navigation is appended and the store is untouched |
| Browser.Window.ClearCredentialsAndLeave | src/api/client.js:56-58 | both token keys are removed and the page goes to /login |
| Tokens.Exp | src/api/client.js:20-21 | reading `exp` throws exactly on an undefined or null decoding; on an object it is the numeric value of `exp` |
| Tokens.IsLiveInMilliseconds | src/contexts/AuthContext.jsx:17 | `exp > now/1000` is `exp * 1000 > now` |
| Tokens.ExpiredStaysExpired | src/api/client.js:21 | an expired token stays expired as time passes |
| Tokens.ChecksDisagreeOnlyAtTheBoundary | src/contexts/AuthContext.jsx:17 | the interceptor's and the provider's checks are never both true and disagree only when `exp * 1000` equals now; a missing `exp` passes neither |
| ApiClient.Bearer | src/api/client.js:28 | the header is "Bearer " followed by the token, and nothing else |
| ApiClient.InterceptRequest | src/api/client.js:15-49 | no token: unchanged. A failing decode rejects. A live token, or no refresh token, attaches the stored token. Otherwise the refresh token is sent as bearer: success stores both new tokens and attaches the new one; failure clears both keys, goes to /login and rejects |
| ApiClient.InterceptResponseError | src/api/client.js:52-62 | always rejects with the error; on 401 it clears both keys and goes to /login; nothing else changes |
| TokenAuth.PayloadSegment | src/contexts/AuthContext.jsx:16 | the second dot-separated part, "undefined" without a dot |
| TokenAuth.PayloadSegmentOfCompact | src/contexts/AuthContext.jsx:16 | for `header.payload.signature` it is the payload part |
| TokenAuth.IsTokenValid | src/contexts/AuthContext.jsx:13-21 | true exactly for a present token whose payload parses and whose `exp` lies after now; every throw gives false |
| TokenAuth.AuthProvider.Login | src/contexts/AuthContext.jsx:24-49 | a failed or empty login rethrows and changes nothing. Otherwise both tokens are stored and /users/me is called with the new bearer. Its user becomes the state and is returned, and the page goes to /dashboard. A failure there rethrows without navigating |
| TokenAuth.AuthProvider.Logout | src/contexts/AuthContext.jsx:52-57 | both keys removed, user null, page to /login |
| TokenAuth.AuthProvider.VerifyAuth | src/contexts/AuthContext.jsx:59-76 | without a valid token nothing is fetched. With one, /users/me is fetched with it: its user is set, or on failure the provider logs out. Loading ends in every case |
| SessionAuth.AuthProvider.CheckAuthStatus | src/context/AuthContext.jsx:25-37 | loading goes true then false; the user is the /auth/me response or null on failure |
| SessionAuth.AuthProvider.LoginUser | src/context/AuthContext.jsx:39-53 | success: `{success: true, data}`, after re-checking the session. Failure: `{success: false, error}`, carrying the message or the default text, with the state untouched |
| SessionAuth.AuthProvider.LogoutUser | src/context/AuthContext.jsx:55-68 | whatever the server says: user null, router push to /login, store untouched |
| CreateUser.MissingLabels | src/pages/users/CreateUser.jsx:117-124 | no more labels than fields |
| CreateUser.MissingLabelsConcat | src/pages/users/CreateUser.jsx:117-124 | the filter distributes over concatenated field lists |
| CreateUser.MissingLabelsInOrder | src/pages/users/CreateUser.jsx:102-124 | two missing fields are listed in the order of the field table |
| CreateUser.LabelAtPosition | src/pages/users/CreateUser.jsx:117-124 | a missing field's label is at the position given by the missing fields before it |
| CreateUser.NoLabelsIffNoneMissing | src/pages/users/CreateUser.jsx:117-126 | the list is empty exactly when no field is missing |
| CreateUser.Validate | src/pages/users/CreateUser.jsx:126-138 | the missing-fields message first, then the phone check (10–15 digits; a phone that is not a string throws a TypeError), then the password check; it passes exactly when all three do |
| CreateUser.StringPasswordLength | src/pages/users/CreateUser.jsx:136 | a string password is too short exactly when it has fewer than 8 UTF-16 code units; for Basic Multilingual Plane text, fewer than 8 characters |
| CreateUser.AstralPasswordPasses | src/pages/users/CreateUser.jsx:136 | four emoji, four characters but eight code units, pass the length check |
| CreateUser.BasePayloadThrows | src/pages/users/CreateUser.jsx:149-155 | the payload is built exactly when the birth date converts and the phone and email are strings; a failed conversion is its error |
| CreateUser.BasePropsLookup | src/pages/users/CreateUser.jsx:141-186 | each key reads from the first group of the literal that defines it |
| CreateUser.ContactNormalised | src/pages/users/CreateUser.jsx:144-159 | the phone is digits only, the email lower case, the country and role fall back to 'Colombia' and 'Membresia Friend' |
| CreateUser.FixedValues | src/pages/users/CreateUser.jsx:162-174 | the consents are true and the counters 0 |
| CreateUser.AddOptionalFields | src/pages/users/CreateUser.jsx:199-211 | the loop's result is the fold of the per-field step over the fields, stopping at the first throw |
| CreateUser.AddOptionalField | src/pages/users/CreateUser.jsx:200-210 | one turn: a truthy value is copied, digit-stripped for "Phone" fields and upper-cased for the plate |
| CreateUser.InterruptedLoop | src/pages/users/CreateUser.jsx:199-211 | once a turn throws, the later fields change nothing |
| CreateUser.OptionalStepEffect | src/pages/users/CreateUser.jsx:200-210 | after one turn only that field can differ, and it holds the normalised value |
| CreateUser.WithOptionalEffect | src/pages/users/CreateUser.jsx:199-211 | every listed field with a truthy value ends normalised and every other key keeps its value |
| CreateUser.OptionalStepThrows | src/pages/users/CreateUser.jsx:204-209 | a turn throws a TypeError exactly when a transformed field holds a truthy non-string |
| CreateUser.WithOptionalSucceedsIff | src/pages/users/CreateUser.jsx:199-211 | the loop completes exactly when no field is untransformable |
| CreateUser.OnlyEmergencyPhoneIsStripped | src/pages/users/CreateUser.jsx:189-206 | of the optional fields only `emergencyContactPhone` contains "Phone" |
| CreateUser.NoPhoneInFirstTwelve | src/pages/users/CreateUser.jsx:189-193 | the first twelve optional fields do not contain "Phone" |
| CreateUser.PhoneFieldsFromTwelve | src/pages/users/CreateUser.jsx:193-206 | among the later fields only `emergencyContactPhone` contains "Phone" |
| CreateUser.ErrorLines | src/pages/users/CreateUser.jsx:235-237 | one line per backend error entry |
| CreateUser.ErrorLineOfEntry | src/pages/users/CreateUser.jsx:236 | an entry gives "• field: message", "Error" standing in for an empty field |
| CreateUser.ErrorLinesOfEntries | src/pages/users/CreateUser.jsx:235-237 | the lines of a list of entries are their lines in order |
| CreateUser.EntryLinesHaveNoLineFeed | src/pages/users/CreateUser.jsx:236 | line-free entry texts give line-free lines |
| CreateUser.BackendErrorListOnePerLine | src/pages/users/CreateUser.jsx:230-238 | an errors list replaces the message; the joined text splits back into exactly one line per entry |
| CreateUser.Report | src/pages/users/CreateUser.jsx:226-241 | never a success. A thrown Error shows its message and any other thrown exception is shown as that engine error; a rejection without data shows its message. With data it shows the backend text, or the catch block itself throws |
| CreateUser.HandleSubmit | src/pages/users/CreateUser.jsx:95-246 | a failed check posts nothing and reports. The payload is posted exactly when the checks, the build and the optional fields succeed, and it is the fold of the optional fields over the base payload. A throw while building or while adding an optional field is reported. Otherwise the outcome is the notice with the new user, or the report |
| CreateUser.DocumentNumberIsNotOptional | src/pages/users/CreateUser.jsx:189-197 | the document number is not among the optional fields |
| CreateUser.NoticeNamesDocumentNumber | src/pages/users/CreateUser.jsx:221 | the success notice names the document number the user typed |
| FormState.SetIn | src/pages/events/CreateEvent.jsx:113-145 | the only error is a TypeError; the top-level keys are those of the outer spread |
| FormState.SetInReadBack | src/pages/events/CreateEvent.jsx:113-145 | reading the path back from the new state gives the value |
| FormState.SetInSucceeds | src/pages/events/CreateEvent.jsx:113-145 | along a path of objects the spreads never throw |
| FormState.SetInFailsIff | src/pages/events/CreateEvent.jsx:113-145 | the spreads throw exactly when a value read on the way to the leaf's parent is undefined or null |
| FormState.FailureHasNullish | src/pages/events/CreateEvent.jsx:113-145 | a throw implies such a nullish read |
| FormState.NullishFails | src/pages/events/CreateEvent.jsx:113-145 | such a nullish read implies a throw |
| FormState.AtStep | src/pages/events/CreateEvent.jsx:117-121 | a nested read is its first property read followed by the rest |
| FormState.SetInKeepsSiblings | src/pages/events/CreateEvent.jsx:113-145 | at every level every property beside the path reads as before |
| FormState.AtObject | src/pages/events/CreateEvent.jsx:117 | reading a path from an object begins with its own property |
| FormState.SetInTop | src/pages/events/CreateEvent.jsx:114-117 | the outer spread overrides only the first key of the path |
| Itinerary.SetActivityField | src/pages/events/CreateEvent.jsx:813 | the assignment changes the named property of the activity and no other |
| CreateEvent.DottedPath | src/pages/events/CreateEvent.jsx:111 | two to four keys, a prefix of the split name |
| CreateEvent.HandleChange | src/pages/events/CreateEvent.jsx:106-152 | an undotted name sets that key only, keeping the key order; the only error is a TypeError |
| CreateEvent.HandleChangeNested | src/pages/events/CreateEvent.jsx:110-146 | along objects the update succeeds, the leaf reads the value, and every sibling at every level reads as before |
| CreateEvent.HandleChangeThrows | src/pages/events/CreateEvent.jsx:110-146 | a dotted name throws exactly when a read on the way to the leaf's parent is undefined or null |
| CreateEvent.HandleChangeIgnoresTail | src/pages/events/CreateEvent.jsx:111 | a name with more than four segments acts as its first four when the fourth is non-empty |
| CreateEvent.DottedPathOfFour | src/pages/events/CreateEvent.jsx:111-113 | a name of four such segments addresses exactly those four keys |
| CreateEvent.SplitSegments | src/pages/events/CreateEvent.jsx:111 | the first three separator-free segments come first in the split |
| CreateEvent.HandleAddArrayItem | src/pages/events/CreateEvent.jsx:163-168 | succeeds exactly on an iterable list; the list gains the template at its end; other keys keep their values |
| CreateEvent.HandleAddSimpleArrayItem | src/pages/events/CreateEvent.jsx:185-190 | as above, with '' for an omitted default |
| CreateEvent.HandleRemoveArrayItem | src/pages/events/CreateEvent.jsx:170-175 | succeeds exactly on an array; an in-range index drops that element, any other leaves the list; other keys and the key order are kept |
| CreateEvent.NotAKeyReadsUndefined | src/pages/events/CreateEvent.jsx:173 | a key the state lacks reads as undefined |
| CreateEvent.HandleSimpleArrayChange | src/pages/events/CreateEvent.jsx:177-183 | succeeds exactly on an iterable list; only element `index` changes; other keys keep their values |
| CreateEvent.AddThenRemove | src/pages/events/CreateEvent.jsx:163-175 | removing the element just appended gives the list back |
| CreateEvent.HandleArrayChange | src/pages/events/CreateEvent.jsx:155-161 | the outer array is the same days; the field is written into the shared day object, whose other properties stay; no day at the index throws |
| CreateEvent.EditActivity | src/pages/events/CreateEvent.jsx:811-815 | the time or description is written into the activity object the old array still holds; the day gets a fresh copy of its array and keeps its number and other properties |
| CreateEvent.RemoveActivity | src/pages/events/CreateEvent.jsx:820-823 | the day gets a fresh filtered array without that activity and keeps its number and other properties |
| CreateEvent.AddActivity | src/pages/events/CreateEvent.jsx:844-847 | the day gets a fresh array with a new '09:00' activity at the end and keeps its number and other properties |
| CreateEvent.AddDay | src/pages/events/CreateEvent.jsx:857-860 | a new day numbered one past the count, with one '09:00' activity, is appended |
| CreateEvent.EditInclude | src/pages/events/CreateEvent.jsx:874-889 | the item or detail is written into the shared entry; the array copy holds the same entries |
| UpdateEvent.LoadForm | src/pages/events/UpdateEvent.jsx:28-56 | a nullish response throws a TypeError, and a failing date format throws its error, start date first. Otherwise the form has exactly the literal's keys, in order |
| UpdateEvent.LoadFormDefault | src/pages/events/UpdateEvent.jsx:37-51 | a defaulted field keeps a truthy value and otherwise takes its fallback |
| UpdateEvent.LoadFormCopies | src/pages/events/UpdateEvent.jsx:29-55 | the other fields are copied as they are, and the dates are the formatted strings |
| UpdateEvent.HandleChange | src/pages/events/UpdateEvent.jsx:67-73 | a checkbox stores `checked`, any other input its value; nothing else changes |
| UpdateEvent.HandleArrayChange | src/pages/events/UpdateEvent.jsx:75-85 | succeeds exactly on an iterable list. With a subfield, the element becomes a copy with that property set; without one, the value replaces it. Other elements and keys are kept |
| UpdateEvent.AppendedCopy | src/pages/events/UpdateEvent.jsx:90 | an object-typed value (null included) is appended as a shallow copy, anything else as itself |
| UpdateEvent.AddArrayItem | src/pages/events/UpdateEvent.jsx:87-92 | the list gains that copy at its end, with '' for an omitted value |
| UpdateEvent.RemoveArrayItemDeletesOne | src/pages/events/UpdateEvent.jsx:94-99 | an in-range index removes exactly that element, in order |
| UpdateEvent.HandleLocationChange | src/pages/events/UpdateEvent.jsx:101-109 | only `field` of `<type>Location` changes |
| UpdateEvent.HandleDiscountChange | src/pages/events/UpdateEvent.jsx:124-135 | throws exactly when the discounts are nullish. It stores `parseInt(value) \|\| 0` at the one entry, leaving other memberships, user types and keys alone |
| UpdateEvent.DiscountReadsTypedNumber | src/pages/events/UpdateEvent.jsx:131 | a typed integer is stored as itself, an emptied field as 0 |
| UpdateEvent.SetDayNumber | src/pages/events/UpdateEvent.jsx:615 | a fresh day with the parsed number (NaN when none), sharing the old activities array and copying the old day's other properties |
| UpdateEvent.EditActivity | src/pages/events/UpdateEvent.jsx:644-648 | the value is written into the shared activity object; the outer array is the same days |
| UpdateEvent.RemoveActivity | src/pages/events/UpdateEvent.jsx:628-632 | the shared day object gets a fresh array without that activity |
| UpdateEvent.AddActivity | src/pages/events/UpdateEvent.jsx:673-680 | the shared activities array gains a new '08:00' activity |
| UpdateEvent.AddDay | src/pages/events/UpdateEvent.jsx:689-694 | a new day numbered one past the count, with one '08:00' activity, is appended |
| EventList.SwapKeepsElements | src/pages/events/EventList.jsx:18 | swapping neighbours keeps the multiset of events |
| EventList.SortByStartDate | src/pages/events/EventList.jsx:18 | the array ends sorted by start date, is a permutation of what it held, and events with equal start dates keep their relative order (stable) |
| EventList.InsertAt | src/pages/events/EventList.jsx:18 | one insertion grows the sorted prefix by one, keeps the elements and keeps the order among equal start dates |
| EventList.InsertionStarts | src/pages/events/EventList.jsx:18 | a sorted prefix starts the insertion |
| EventList.InsertionSwaps | src/pages/events/EventList.jsx:18 | a swap keeps the insertion invariant |
| EventList.InsertionEnds | src/pages/events/EventList.jsx:18 | the insertion stops with the prefix sorted |
| EventList.SortEvents | src/pages/events/EventList.jsx:18 | calling `.sort` on an array sorts it in place (sorted, same elements, stable) and returns it; on any other value it throws a TypeError and reorders nothing |
| EventList.LoadEvents | src/pages/events/EventList.jsx:13-24 | the page as written: an awaited array is listed as itself, sorted, stable and with the same elements; any other awaited value, an axios response object included, shows a TypeError; a rejection shows its error; the list otherwise stays empty and the spinner always ends off |
| EventList.LoadEventsFromApi | src/pages/events/EventList.jsx:16-18 | with the axios client the page imports, every successful request ends with a TypeError shown and nothing listed |
| EventList.LoadEventsFromData | src/pages/events/EventList.jsx:16-24 | the intended `response.data.sort(…)`: an array body is listed sorted, stable and with the same elements; a non-array body shows a TypeError; a rejection shows its error; the spinner always ends off |
| EventList.SwapKeepsOrderPerKey | src/pages/events/EventList.jsx:18 | exchanging two neighbours with different start dates keeps the order within every group of equal start dates |
| EventList.WithKeyConcat | src/pages/events/EventList.jsx:18 | the events of one start date in a concatenation are those of each part, in order |
| EventList.StatusLabel | src/pages/events/EventList.jsx:72-74 | each label appears exactly for its status; any other status reads "Completado" |
| EventList.StatusColour | src/pages/events/EventList.jsx:66-71 | each colour appears exactly for its status; any other status is gray |
| EventList.LabelAndColourAgree | src/pages/events/EventList.jsx:66-74 | label and colour always come from the same branch; an undefined or differently cased status shows "Completado" |
| UserList.To | src/components/users/UserList.jsx:105 | `Math.min(page*limit, total)`: NaN exactly for a non-numeric total, else the smaller of the two |
| UserList.HandlePageChange | src/components/users/UserList.jsx:38-40 | only the page changes |
| UserList.FetchUsers | src/components/users/UserList.jsx:18-32 | the spinner ends off. Success sets the rows to `data \|\| []` and the total, keeping page and limit. A rejection, or destructuring a nullish response, shows the error and changes nothing else |
| UserList.InitialWindow | src/components/users/UserList.jsx:12-16 | the first render shows 1 to 0 of 0 with both buttons disabled |
| UserList.NextPageStartsWithinTotal | src/components/users/UserList.jsx:104-118 | when "Siguiente" is enabled the next page starts within the total, right after this page's last row |
| UserList.ClickKeepsPageInRange | src/components/users/UserList.jsx:109-118 | an enabled or disabled click keeps the page at least 1 and its first row within a positive total |
| UserList.ClicksKeepPageInRange | src/components/users/UserList.jsx:12-16 | from the initial state, any sequence of clicks keeps that range |
| UserList.ClicksFrom | src/components/users/UserList.jsx:38-40 | from any in-range state, any sequence of clicks keeps that range |

## Left out

- **HMAC-SHA-256 itself**: Web Crypto's `importKey` and `sign` are an opaque parameter `mac`. Only its 32-byte output is assumed (`Hmac.IsMac`), and only where the length of the signature is stated.
- **`JSON.stringify`, `JSON.parse`, `atob`, `jwtDecode` and `new Date(…).toISOString()`**: these are parameters. They are assumed compact (no raw line feed) only where a lemma says so.
- **`date-fns` formatting on the edit page** is a parameter.
- **Network, `fetch`, axios and `new URL(path, base)`**: they are inputs of the methods. A throwing URL constructor is modelled as a TypeError. Timeouts and the `await` scheduling are not modelled.
- **`Date.now()`** is a parameter in milliseconds.
- **Numbers** are integers plus NaN. `ToNumber` converts numbers, booleans and null; every string, numeric or not, reads as NaN, which the model assumes the code never relies on. `handleCoordinatesChange` (UpdateEvent.jsx:111-122) uses `parseFloat` and is not modelled, because floating point is outside the model.
- **`toUpperCase`/`toLowerCase`** are modelled on ASCII letters only, with no Unicode case mapping.
- **Strings are sequences of Unicode characters.** `length` and `Js.Prop(s, "length")` count UTF-16 code units, as JavaScript does. Other reads by index (`s[i]`, `Js.Prop` with a numeric key) and the object spread `{...s}` (`Js.Spread`) go by whole characters. For text outside the Basic Multilingual Plane both therefore differ from JavaScript, which gives each half of a surrogate pair its own index (`{..."😀"}` has the keys "0" and "1"; `Js.Spread` gives one entry). This reaches `FormState.SetIn` and `UpdateEvent.HandleArrayChange`, `HandleLocationChange` and `AppendedCopy` when they spread a string. Only the array spread `[...s]` (`Js.Iterate`) goes by code point in JavaScript, and there the model matches it. Lone surrogates are not representable.
- **Js.StoreAt**: past the end of an array, `a[i] = v` leaves holes that JavaScript's `filter` skips. The model stores undefined elements there, which `Js.RemoveAt` keeps. The pages never write past the end, since their indices come from `.map` over the same list.
- **Js.Put**: JavaScript lists integer-like keys ("0", "1", …) before the other keys of an object, in ascending order. The model keeps insertion order for every key, which agrees with JavaScript for the keys the forms write, none of which is integer-like.
- **Dates in the event list**: the start date's time value is an abstract integer key. An invalid date (NaN) is not modelled.
- **EventList.SortByStartDate**: the engine's sort algorithm is not specified by JavaScript; the model uses an insertion sort and proves what JavaScript requires of any engine's sort: sorted order, the same elements, and a stable order among equal start dates.
- **UpdateEvent.LoadForm** is generic over the awaited value and the date formatter. The edit page imports the same bare axios client as the list (src/utils/api.js), so `response` is the axios response object: its `name`, `startDate` and the other fields read undefined, `parseISO(undefined)` is an invalid date, and `format` throws. As written the form is therefore not filled, which the model reaches through those parameters. No corrected loader is modelled for this page.
- **The submit handlers of the event pages** are not modelled. They post the state (CreateEvent.jsx:192-205, UpdateEvent.jsx:137-145), and the posted body is the state itself.
- **UI-only effects** are not modelled: the `isSubmitting`, `error` and `loading` flags where they only feed rendering, `scrollTo`, `console.log`/`console.error`, the JSX rendering and React Router's routes.
- **The "includes", visits and other list deletions and additions on the creation page** are the generic list handlers (`CreateEvent.HandleAddArrayItem`, `CreateEvent.HandleRemoveArrayItem`). Removing a day is likewise not a separate operation.
- **Two representations of the itinerary**: it is modelled as heap objects for the editors that write into shared objects, and as plain values in the generic handlers. A property is proved about the one representation its handler uses, not both.
- **UserList.FetchUsers**: `total` is kept as the raw value the service returned, because the code does not convert it.
- **The thin wrappers**: `src/api/userService.js`, `src/utils/api.js`, `src/pages/users/UserList.jsx`, the dashboard request panel and the user form and profile components are outside the modelled core.
- **Concurrency**: two requests that expire at once each run their own refresh, as in the code. Interleavings of the awaits are not modelled.

## Findings

| source | as written | input that shows it | evidently intended | confidence | as-written member | corrected member |
|---|---|---|---|---|---|---|
| src/pages/events/EventList.jsx:18 | `response.sort(…)`, where `response` is what `api.get('/events')` of the bare axios instance in src/utils/api.js resolves to, an axios response object with no `sort` method | any successful request, e.g. a response whose `data` is the array of events: the call throws a TypeError, the page shows it and lists nothing | `response.data.sort(…)`, which lists the body sorted by start date | high, not executed | EventList.LoadEventsFromApi | EventList.LoadEventsFromData |
