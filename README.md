# Phone-number identity and certificate registry, modelled in Dafny

This project models the core of a small Flask service (`app.py`) that keeps
three Firestore collections:

- `users`, keyed by phone number: registered identities (name, mobile, creation time);
- `registration_pending`, keyed by phone number: registrations waiting for a one-time code;
- `users/<phone>/certificates`: the certificates a phone has uploaded, each under a store-assigned id.

Registration is a two-step state machine (`start_registration` writes a
pending record, `verify_registration_otp` promotes it to a user once the SMS
code is approved); login is a code check that reads the user back with all of
its certificates; certificates are added, listed, and looked up by
(type, identifier) under a normalising comparison with first-match semantics.

Each phone's certificates are a sequence in the order the store streams
them. The store streams a collection in the order of its random document
ids, so a new record can land anywhere in that sequence: `AddCertificate`
takes that place as the input `rank`, and every property of the lookup is
stated for every place (`Certificates.FirstMatchInsert`).

Files:

- `wrappers.dfy` — `Option` (a JSON value that is missing or null) and `Result` (a handler's reply or error).
- `normalize.dfy` — module `Normalize`: Python's `strip()`, ASCII `lower()` and `replace(" ", "")` as functions, the two comparison keys `NormType` and `NormIdent`, and what they ignore.
- `certificates.dfy` — module `Certificates`: the certificate record, the per-record match test, the first-match search `FirstMatch` that specifies the lookup, and fresh ids.
- `store.dfy` — module `App`: class `Store` whose fields are the three collections, one method per handler, the scan `ScanFirst`, and client methods that chain handlers.

The SMS provider enters as inputs: `approved: bool` is the verdict of a code
check, `status: string` the opaque status of a code send. The clock enters as
`now: string`. A request field read with `data.get(...)` is an
`Option<string>`; Python's `not x` test is `!Present(x)` (absent, null or
empty), `data.get(key)` is `Get`, `str(x or "")` is `Text`, and the four keys
read with `data[key]` are `HasRequired`. The add-certificate body is a `map<string, Option<string>>`: a missing
key is absent from the map, a JSON null is `None`.

Three behaviours of the code that the model keeps:

- Identifier normalisation removes only the ASCII space, not other whitespace (`Normalize.NormIdentKeepsTab`: a tab inside an identifier survives).
- `add_certificate` never checks that the phone is a registered user (`App.UploadForStranger`: the upload succeeds, yet listing that phone answers "User not found").
- `verify_login_otp` reads the user document but never checks that it exists; with an approved code and no user, taking `user["name"]` raises, which the model reports as `ServerError` rather than "not registered".

## Model

| member | source | states |
|---|---|---|
| `App.Store.StartRegistration` | app.py:47-69 | missing phone or name is an error, a registered phone is refused, and neither changes any table; otherwise the pending record for the phone is (over)written with the name, users and certificates unchanged, the phone moves to the pending phase, and the provider status is returned |
| `App.Store.VerifyRegistration` | app.py:76-108 | missing fields, then an unapproved code ("Invalid OTP", even with nothing pending), then no pending record are errors that change nothing; otherwise the pending name becomes the user (phone not previously a user), the pending record is deleted, certificates unchanged, and the name and phone are returned |
| `App.Store.StartLogin` | app.py:115-130 | succeeds exactly for a present, registered phone, returning the provider status; a missing phone and an unregistered phone are distinct errors; it writes nothing |
| `App.Store.VerifyLogin` | app.py:137-167 | missing fields and an unapproved code are errors; with approval it returns the user's name and every certificate of the phone in stream order with ids; an approved code for a phone with no user is a server error; it writes nothing |
| `App.Store.AddCertificate` | app.py:174-191 | no caller phone is Unauthorized and a missing required body key is a server error, both without a write; otherwise exactly one record is added under that phone, at the stream position the store gives it (`rank`, clamped to the end), with an id none of its earlier records has, the body's fields, `source = "user_upload"` and the given time; the phone's other records keep their relative order, every other phone's certificates and both identity tables are unchanged, and per-phone ids stay unique |
| `App.Store.GetCertificates` | app.py:198-214 | an unknown user is UserNotFound; otherwise the reply is every stored certificate of the phone in stream order with its id, an empty list when there are none |
| `App.Store.GetSingleDocument` | app.py:223-265 | an unknown user is UserNotFound before any scan; otherwise the reply is the certificate at the first stream position whose normalised type and identifier both equal the normalised request, or DocumentNotFound when there is none |
| `App.ScanFirst` | app.py:249-261 | the loop with early return finds exactly the first record in stream order that passes the test, or none when no record does |
| `App.RegistrationLifecycle` | app.py:52-108 | from an empty store: a second start overwrites the pending name, a denied code registers nothing, an approved code registers the latest name, an immediate second check fails with "No registration pending", and the phone then can log in but cannot register again |
| `App.UploadThenList` | app.py:181-209 | whatever places the store gives them, two uploads under a registered phone are both listed, each with its own contents, under different ids |
| `App.UploadForStranger` | app.py:175-201 | an upload for a phone that is not a user is accepted, and listing that phone still answers UserNotFound |
| `Certificates.FirstMatch` | app.py:249-265 | the result is the least position whose record passes the test (no earlier record passes), and it is absent exactly when no record passes |
| `Certificates.Matches` | app.py:252-257 | definition of the per-record test: both normalised fields of the record equal the request's keys; its contract adds that only a request already in normal form (a fixed point of both keys) can be matched |
| `Certificates.FirstMatchInsert` | app.py:181-261 | wherever a new record lands in the stream, the lookup's answer either stays what it was or becomes the new record, the latter only when it matches; a record that does not match changes no answer, a matching one guarantees an answer, a matching one placed first is the answer, and one placed last never displaces an earlier answer |
| `Certificates.SecondRecordFound` | app.py:181-261 | after one matching upload, a second upload is returned instead only when it matches as well; otherwise the first is still returned |
| `Certificates.MatcherIgnoresRequestFormatting` | app.py:242-257 | padding and letter case in the requested type, and a space in the requested identifier, select exactly the same records |
| `Certificates.FreshId` | app.py:181 | the id chosen for a new record is none of the ids already under the phone |
| `Certificates.InsertFreshKeepsUnique` | app.py:181 | a record with a fresh id, placed anywhere in the stream, keeps the ids under a phone pairwise distinct |
| `Certificates.InsertAddsOne` | app.py:181 | placing the new record adds exactly that record to the phone's certificates and removes none |
| `Certificates.PanExample` | app.py:242-257 | a request for "PAN" / "1234 5678" matches a record stored as "pan" / "12345678" and does not match one stored as "pan" / "1234567" |
| `Normalize.TrimStart` | app.py:242 | definition of the left half of `strip()`; no longer than its input, and `TrimStartSpec` states what it removes |
| `Normalize.TrimEnd` | app.py:242 | definition of the right half of `strip()`; no longer than its input, and `TrimEndSpec` states what it removes |
| `Normalize.Strip` | app.py:242 | the result of `strip()` is no longer than its input and has no whitespace at either end |
| `Normalize.Lower` | app.py:242 | definition of ASCII `lower()`; keeps the length, and `LowerSpec` states it character by character |
| `Normalize.RemoveSpaces` | app.py:244 | definition of `replace(" ", "")`; never longer than its input, and `RemoveSpacesSpec` and `RemoveSpacesAppend` state what it removes |
| `Normalize.NormType` | app.py:242-252 | definition of the type key `str(x or "").strip().lower()`; never longer than its input, with its shape, idempotence and invariance in `NormTypeShape`, `NormTypeIdempotent` and `NormTypeIgnoresCaseAndPadding` |
| `Normalize.NormIdent` | app.py:244-253 | definition of the identifier key `str(x or "").replace(" ", "").strip()`; never longer than its input, with its shape, idempotence and invariance in `NormIdentShape`, `NormIdentIdempotent` and `NormIdentIgnoresSpace` |
| `Normalize.TrimStartSpec` | app.py:242 | the left half of `strip()` removes the whitespace prefix up to the first non-whitespace character and keeps the rest as it is |
| `Normalize.TrimEndSpec` | app.py:242 | the right half of `strip()` removes the whitespace suffix after the last non-whitespace character and keeps the rest as it is |
| `Normalize.StripFound` | app.py:242 | `strip()` returns the infix between a leading and a trailing run of whitespace |
| `Normalize.StripUnique` | app.py:242 | any bare infix between a leading and a trailing whitespace run is what `strip()` returns, so the two descriptions coincide |
| `Normalize.StripBare` | app.py:242 | stripping a string with no whitespace at its ends returns it unchanged |
| `Normalize.StripPadded` | app.py:242 | whitespace added on either side does not change the result of `strip()` |
| `Normalize.LowerSpec` | app.py:242 | `lower()` maps each character on its own and keeps the length |
| `Normalize.LowerIdempotent` | app.py:242 | lower-casing twice is lower-casing once |
| `Normalize.LowerSlice` | app.py:242 | lower-casing commutes with slicing |
| `Normalize.LowerStripAt` | app.py:242 | lower-casing keeps every whitespace cut where it was |
| `Normalize.LowerStrip` | app.py:242 | `strip().lower()` equals `lower().strip()` |
| `Normalize.RemoveSpacesSpec` | app.py:244 | `replace(" ", "")` leaves no space and leaves a space-free string unchanged |
| `Normalize.RemoveSpacesAppend` | app.py:244 | removing spaces distributes over concatenation |
| `Normalize.NormTypeShape` | app.py:242 | a type key has no whitespace at its ends and no upper-case ASCII letter |
| `Normalize.NormIdentShape` | app.py:244 | an identifier key contains no space character at all and no whitespace at its ends |
| `Normalize.NormTypeIdempotent` | app.py:242 | normalising a type key again changes nothing |
| `Normalize.NormTypeIgnoresCaseAndPadding` | app.py:242 | the type key ignores surrounding whitespace and ASCII letter case |
| `Normalize.NormIdentIdempotent` | app.py:244 | normalising an identifier key again changes nothing |
| `Normalize.NormIdentIgnoresSpace` | app.py:243-244 | an ASCII space anywhere in an identifier does not change its key |
| `Normalize.RemoveSpacesExample` | app.py:243-244 | "1234 5678" loses its space and becomes "12345678" |
| `Normalize.NormIdentExample` | app.py:243-244 | the key of "1234 5678", and of "12345678", is "12345678" |
| `Normalize.NormTypeExample` | app.py:242 | "PAN", " Pan " and "pan" all have the type key "pan" |
| `Normalize.NormIdentKeepsTab` | app.py:244 | only the ASCII space is removed: "1234\t5678" keeps its tab |

## Left out

- HTTP plumbing: Flask routing, JSON parsing, CORS, status codes and the local runner; handlers return a `Result` whose error names the reply instead of a status code.
- A request whose body is not a JSON object (`request.json` is `None`, so `data.get` raises) is not modelled; request fields are strings or null.
- Non-string JSON values (numbers, booleans, objects) in request fields or stored records are not modelled; `str(...)` of such a value is not represented.
- Firebase initialisation from the environment and all Firestore I/O: the collections are the in-memory maps of `App.Store`; stream order is the order of each phone's sequence.
- The Twilio client: code sending and code checking become the `status` and `approved` inputs; provider errors and exceptions are not modelled.
- Timestamps from the clock are the `now` parameter.
- Firestore auto-ids: `Certificates.FreshId` is a deterministic stand-in; `App.Store.AddCertificate` promises only that the id is fresh under that phone, not which id it is.
- App.Store.AddCertificate: the new record's place in the stream is the input `rank`; the model does not derive it from where the random auto-id sorts, and does not keep a phone's records sorted by id.
- URL percent-decoding of the lookup's path segments: the segments arrive decoded.
- The diagnostic `print` calls and the catch-all handlers that answer 500.
- `Normalize.Lower`: lower-cases only the ASCII letters A-Z; Python's full Unicode case mapping is not modelled.
- `Normalize.IsSpace`: the whitespace `strip()` removes is the fixed set of characters Python's `str.isspace()` accepts, written out by code point.
- `get_user_details` (app.py:275-298): it reads optional fields (`dob`/`DOB`, `gender`/`Gender`, `CreatedAt`) that no modelled handler writes, so the typed user record has no place for them.
- Concurrent requests on one phone: every handler is one atomic step on the store.
