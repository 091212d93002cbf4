# Appointment store of the dental-clinic intake backend

The service takes booking requests (a name and a phone number) from the
clinic's site. It keeps them in an in-memory array that it mirrors to a JSON
file, and it lets the admin page list them, change their status and delete
them. This project models that array and the four JSON handlers that read
or change it in `server.js`:

- `POST /api/appointments` checks the fields, appends a record and answers 201.
- `GET /api/appointments` answers with the count and every record.
- `PATCH /api/appointments/:id` checks the status, finds the record and sets its status.
- `DELETE /api/appointments/:id` finds the record and splices it out.

Files:

- `js_strings.dfy` (module `JsStrings`) holds JavaScript's white-space set and `String.prototype.trim`. That set is shared by the regex class `\s` and by `trim`.
- `phone.dfy` (module `PhoneCheck`) holds the phone pattern `^[\+]?[0-9\s\-\(\)]{10,}$` as a predicate, with lemmas on the shape it accepts.
- `appointments.dfy` (module `Appointments`) holds the record, the request fields, the reply envelopes and the status strings "приём" and "отмена". It also has one function per handler. Each function maps the collection before a request to the collection and the reply after it.
- `appointment_lemmas.dfy` (module `AppointmentLemmas`) proves what the handlers promise.
- `store.dfy` (module `Server`) holds the class `AppointmentStore`. Its field is the array. Its methods change that field in place, as the handlers do, and are proved equal to the handler functions. `FindIndex` is the linear `findIndex` scan, written as a loop.

Inputs that the server takes from its environment become parameters:

- The creation id (`Date.now().toString()`) and the timestamp (`new Date().toISOString()`) are strings passed to `Create`.
- Whether the file write succeeded is a boolean `saved`.
- A request-body field is a `Field`: absent, a string, or some other value. For another value only its JavaScript truthiness and its `String(...)` conversion are given.

The model follows the code, including these behaviours a user of the form might not expect:

- Name and phone are checked for presence on the raw values, not after trimming. A name of blanks passes and is stored as the empty string.
- The phone is checked untrimmed and stored trimmed. A stored phone can therefore fail the pattern: `PhoneCheck.TrimmedPhoneMayFailTest`.
- The record is appended, or updated or removed, before the file write. A failed write answers 500 but does not undo the change: `AppointmentLemmas.FailedSaveKeepsChange`.
- Ids come from the clock and are not checked for uniqueness. Update and delete act on the first record with the id: `AppointmentLemmas.DeleteTwice`.
- A truthy non-string name or phone passes the presence check. If the phone, converted by `String`, also passes the pattern, `trim` throws and the handler's catch answers 500 with no change: `AppointmentLemmas.CreateNonStringFieldFails`. If the phone fails the pattern, the reply is the 400 phone message, as for a string.

## Model

| member | source | states |
|---|---|---|
| JsStrings.IsJsWhitespace | server.js:92-104 | the white-space set shared by the pattern's `\s` and by `trim`: the ECMAScript WhiteSpace and LineTerminator code points; its use is stated by `PhoneCheck.ShapeAccepted`, `JsStrings.TrimIsInfix` and `JsStrings.TrimUnique` |
| JsStrings.SkipForward | server.js:103-104 | the forward scan of `trim` stops at the first position that is not white space, or at the end, and everything it passes is white space |
| JsStrings.SkipBackward | server.js:103-104 | the backward scan of `trim` stops just after the last character that is not white space, or at its lower bound, and everything it passes is white space |
| JsStrings.Trim | server.js:103-104 | `trim` returns a string no longer than its input, and neither end of that string is white space |
| JsStrings.TrimIsInfix | server.js:103-104 | what `trim` returns is an infix of the input, and everything cut off on either side is white space |
| JsStrings.TrimUnique | server.js:103-104 | for any blank prefix, then a string with no white space at either end, then a blank suffix, `trim` returns exactly the middle part |
| JsStrings.TrimIdempotent | server.js:103-104 | trimming a trimmed string changes nothing |
| PhoneCheck.IsPhoneClassChar | server.js:92 | the class `[0-9\s\-\(\)]`: a digit, white space, a hyphen or a parenthesis; a plus is not in it, which `PhoneCheck.AcceptedHasShape` relies on |
| PhoneCheck.PhoneRegexTest | server.js:92-93 | `phoneRegex.test` on the anchored pattern, trying a leading plus first; `PhoneCheck.ShapeAccepted` and `PhoneCheck.AcceptedHasShape` prove it accepts exactly an optional plus and ten or more class characters |
| PhoneCheck.ShapeAccepted | server.js:92-93 | an optional plus followed by ten or more digits, white space, hyphens or parentheses passes the phone test |
| PhoneCheck.AcceptedHasShape | server.js:92-93 | every phone that passes has that shape, with the plus present exactly when the phone starts with one |
| PhoneCheck.PhoneExamples | server.js:92-93 | "123" fails the phone test and "+7 (900) 123-45-67" passes |
| PhoneCheck.TrimmedPhoneMayFailTest | server.js:92-104 | a plus followed by ten spaces passes the test on the raw phone, but is stored as "+", which would fail it |
| PhoneCheck.TrimmedAcceptedPhone | server.js:92-104 | the stored (trimmed) form of an accepted phone holds only class characters, except a plus, which can only come first |
| Appointments.FirstIndex | server.js:157 | `findIndex` gives -1 exactly when no record has the id; otherwise it gives a position holding the id, with no earlier position holding it |
| Appointments.Truthy | server.js:84 | JavaScript truthiness of a body field: absent and the empty string are falsy; `AppointmentLemmas.CreateRefusesMissingFields` states that falsiness is exactly what gives the fill-in 400 |
| Appointments.ToJsString | server.js:93 | the string `test` converts its argument to; `AppointmentLemmas.CreateNonStringFieldFails` states what happens to a non-string whose conversion passes |
| Appointments.NewAppointment | server.js:101-107 | the new record has the clock's id and timestamp and status "приём"; its name and phone have no white space at either end and are no longer than the inputs |
| Appointments.CreateOutcome | server.js:79-134 | the intake handler; its properties are stated by `AppointmentLemmas.CreateRefusesMissingFields`, `CreateAcceptsExactlyMatchingPhones`, `CreateAppendsOneRecord`, `CreateNonStringFieldFails`, `CreateKeepsStatusesAllowed` and `FailedSaveKeepsChange` |
| Appointments.IsAllowedStatus | server.js:150-151 | the status check; `AppointmentLemmas.AllowedStatusExactly` states it lets through exactly the strings "приём" and "отмена" |
| Appointments.UpdateStatusOutcome | server.js:146-168 | the status handler; its properties are stated by `AppointmentLemmas.UpdateRefusesUnknownStatus`, `UpdateUnknownIdNotFound`, `UpdateChangesOnlyStatus`, `UpdateIdempotent`, `UpdateKeepsStatusesAllowed` and `FailedSaveKeepsChange` |
| Appointments.DeleteOutcome | server.js:171-185 | the delete handler; its properties are stated by `AppointmentLemmas.DeleteRemovesFirstMatch`, `DeleteUnknownIdNotFound`, `DeleteLowersIdCount`, `DeleteTwice`, `DeleteKeepsStatusesAllowed` and `FailedSaveKeepsChange` |
| AppointmentLemmas.AllowedStatusExactly | server.js:150-151 | a status passes the check exactly when it is the string "приём" or the string "отмена" |
| AppointmentLemmas.CreateRefusesMissingFields | server.js:84-89 | a missing or empty name or phone is exactly what gives 400 with the "fill in all fields" message and an unchanged collection |
| AppointmentLemmas.CreateAcceptsExactlyMatchingPhones | server.js:91-98 | with both string fields present, a failing phone is exactly what gives 400 with the phone message, leaving the collection unchanged; a passing phone is exactly what grows it by one |
| AppointmentLemmas.CreateAppendsOneRecord | server.js:101-125 | an accepted intake appends exactly one record at the end with the given id and timestamp, trimmed name and phone and status "приём"; earlier records are unchanged; the reply is 201 echoing id, name and phone, or 500 if the write failed |
| AppointmentLemmas.CreateNonStringFieldFails | server.js:101-104 | a truthy non-string name or phone that gets past the checks gives 500 and no change |
| AppointmentLemmas.UpdateRefusesUnknownStatus | server.js:150-156 | a status other than "приём" or "отмена" gives 400 and no change for any id, present or not |
| AppointmentLemmas.UpdateUnknownIdNotFound | server.js:157-160 | an allowed status with an id no record carries gives 404 and no change |
| AppointmentLemmas.UpdateChangesOnlyStatus | server.js:157-163 | an update sets the status of the first record with the id; the length, every other record and every other field of that record stay as they were; the reply carries the updated record, or is 500 if the write failed |
| AppointmentLemmas.UpdateIdempotent | server.js:146-168 | applying the same status update twice leaves the collection as one update does |
| AppointmentLemmas.DeleteRemovesFirstMatch | server.js:174-180 | a delete removes exactly the first record with the id: the records before it stay in place, the ones after it move up by one, and the multiset loses just that record |
| AppointmentLemmas.DeleteUnknownIdNotFound | server.js:174-177 | a delete of an id no record carries gives 404 and no change |
| AppointmentLemmas.DeleteLowersIdCount | server.js:174-178 | a delete of a present id lowers the number of records with that id by exactly one |
| AppointmentLemmas.DeleteTwice | server.js:171-185 | after one successful delete, a second delete of the same id gives 404 exactly when the id was carried by one record only |
| AppointmentLemmas.CreateKeepsStatusesAllowed | server.js:100-110 | if every record holds "приём" or "отмена", so does every record after an intake |
| AppointmentLemmas.UpdateKeepsStatusesAllowed | server.js:150-161 | if every record holds "приём" or "отмена", so does every record after a status update |
| AppointmentLemmas.DeleteKeepsStatusesAllowed | server.js:174-178 | if every record holds "приём" or "отмена", so does every record after a delete |
| AppointmentLemmas.FailedSaveKeepsChange | server.js:110-111 | the collection after intake, update or delete does not depend on whether the file write succeeds, and a failed write never gives a success code |
| Server.AppointmentStore.constructor | server.js:76 | the store starts with the records loaded at start-up |
| Server.AppointmentStore.FindIndex | server.js:157 | the linear scan returns the position that `Appointments.FirstIndex` characterises, -1 when absent |
| Server.AppointmentStore.Create | server.js:79-134 | the in-place append leaves the collection and gives the reply that `Appointments.CreateOutcome` describes |
| Server.AppointmentStore.List | server.js:137-142 | the reply is 200 with a count equal to the number of records and every record in insertion order |
| Server.AppointmentStore.UpdateStatus | server.js:146-168 | the in-place status write leaves the collection and gives the reply that `Appointments.UpdateStatusOutcome` describes |
| Server.AppointmentStore.Delete | server.js:171-185 | the in-place splice leaves the collection and gives the reply that `Appointments.DeleteOutcome` describes |
| Server.CreateThenList | server.js:101-142 | after an accepted intake, the listing answers 200 with the old records in order followed by the new record, field for field, and a count one higher, whether or not the write succeeded |
| Server.BookCancelDelete | server.js:79-185 | against a store without the id, the sequence book, cancel, list, delete, delete again answers 201, 200, 200, 200, 404 and leaves the store as it was |

## Left out

- Loading and saving the JSON file (`loadAppointments`, `saveAppointments`) is file I/O and JSON text. Only the outcome of a save is modelled, as the `saved` flag. The loaded records are taken to be well-formed appointments. So the save/load round trip and the fallback to an empty list on a missing or corrupt file are not modelled.
- Clock readings for ids and timestamps are parameters. No uniqueness of ids is assumed.
- Request logging, the CORS origin callback, the body parsers, the error middleware, the `/api/*` 404 fallback, the admin page routes, static file serving and `app.listen` are Express wiring. The CORS callback allows every origin in the end.
- The health endpoint only reports the clock and the configured host and port.
- `console` logging in the handlers is left out.
- The regular expression is modelled as a predicate for this one pattern, not through a general regex engine. Characters are Unicode scalar values. Every character the pattern accepts is a single UTF-16 unit, so lengths agree with JavaScript's for accepted phones.
- Concurrency is left out. Node runs each handler to completion before the next, and the model treats each handler as one atomic step.
