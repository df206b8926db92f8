# Smile & Glow admin back end: credential and one-time-code lifecycle

This project models the back end of a clinic website. The admin side keeps one
document per administrator in an admin collection. A document holds the email,
which is the key, a bcrypt hash of the password, an optional pending one-time
code (`otp`) and the code's expiry (`otpExpires`). Two independent versions of
the admin handlers work on that collection:

- **The app's own handlers** (`Backend/server.js`, module `ServerAuth`):
  - register; login, which issues a seven-day session token;
  - forgot-password, which stores a ten-minute code and mails it;
  - verify-otp, which checks the code and resets the password;
  - the `verifyToken` gate in front of the protected appointment routes.
- **The admin router** (`Backend/routes/adminRoutes.js`, module `AdminRouter`):
  - register, with an explicit duplicate check;
  - login, with no token;
  - generate-otp, a five-minute code returned in the reply;
  - verify-otp, which compares the code before it tests expiry and clears by
    setting both fields to null;
  - forgot-password, which resets the password with no code at all.

The app's handlers also run the appointment collection (module
`ServerAppointments`). A public create stores a booking as sent. Behind the
gate, a listing comes back newest first, and a delete by id reports success
whether or not the id existed.

Each version is a class whose field is the collection (`Router`, `AdminApi`,
`AppointmentApi`). Its methods are the handlers. The admin handlers look up a
document, assign its fields one by one and store it back. Each method of
`Router` and `AdminApi` is proved equal to a step function that gives the
reply tag and the new collection. The lemmas are stated over those step
functions: the invariant each handler keeps, one-shot use of a code, retry
after a wrong code, the expiry boundary and the order of the checks. The
methods of `AppointmentApi` have no step functions; their contracts state
the reply and the new collection directly, in terms of the collection
functions `Lookup`, `Without` and `NewestFirst`.

Module `AdminSchema` (`Backend/models/Admin.js`) gives the document type.
It also gives the collection invariant: no empty email, a code and its expiry
set and cleared together, and a pending code always six digits. It also
defines `Insert`, the save that the unique index and the required validator
can refuse.

The other modules:

- `JsValues` models the JavaScript built-ins the handlers rely on: `!x`,
  comparing a date with a number, `Math.floor(100000 + Math.random() * 900000)`,
  `Number.prototype.toString` and `String.prototype.split`.
- `Bcrypt` models hashing and comparison.

Inputs from outside become parameters: the clock `now` in milliseconds, the
`Math.random()` result, the bcrypt salt, whether the mail transport accepted
the message, the ObjectId the driver would generate for a new booking, the
`_id` and `createdAt` a booking request may carry itself (the body's `_id`
replaces the generated one), and the library's token check `jwtVerify`.

Behaviours of the code that the model keeps as written:

- server.js register has no duplicate check. A taken email makes the save
  throw, so the answer is 500, not "already exists".
- After a successful verify, server.js answers "OTP expired" to the same code,
  because no code is pending. The router answers "Invalid OTP", because its
  null no longer equals the code.
- The router's forgot-password resets the password with no code.
- Deleting an appointment reports success for an id that is absent. An id
  that cannot be cast to an ObjectId makes the query throw, and the answer
  is 500.

## Model

| member | source | states |
|---|---|---|
| AdminSchema.NewAccount | Backend/models/Admin.js:3-8 | a new document holds only email and password; `otp` and `otpExpires` are absent |
| AdminSchema.Insert | Backend/models/Admin.js:4-5 | a save succeeds exactly when the email is non-empty (required) and not yet taken (unique); it then adds exactly that one document and leaves every other document as it was |
| AdminSchema.InsertTwiceFails | Backend/models/Admin.js:4 | a second insert of the same email fails, whatever the document |
| AdminSchema.InsertKeepsValid | Backend/models/Admin.js:3-8 | inserting a freshly registered document keeps the collection invariant |
| AdminSchema.ValidDocumentFields | Backend/models/Admin.js:4-7 | the collection invariant (`StoreValid`, built on `OtpConsistent`) means: no document has an empty email, and a code is either pending, as six digits with a date, or cleared with its expiry, to undefined or to null |
| AdminSchema.UpdateKeepsValid | Backend/models/Admin.js:6-7 | replacing one document by one whose code fields are consistent keeps the invariant |
| JsValues.DrawCode | Backend/server.js:144 | `Math.floor(100000 + Math.random() * 900000)` lies in [100000, 999999] |
| JsValues.DecimalString | Backend/server.js:144 | `toString` of a number gives digits only, with no leading zero when the number is positive |
| JsValues.DecimalRoundTrip | Backend/server.js:144 | reading back the digits that `toString` wrote gives the number |
| JsValues.DecimalStringInjective | Backend/routes/adminRoutes.js:51 | distinct drawn numbers give distinct codes |
| JsValues.DecimalLength | Backend/server.js:144 | a k-digit number is written with k characters |
| JsValues.IssuedCode | Backend/server.js:144 | the code `Math.floor(100000 + Math.random() * 900000).toString()` gives (the same expression as adminRoutes.js line 51) is six digits with no leading zero and reads back as the drawn number, in [100000, 999999] |
| JsValues.ExpiryIsExclusive | Backend/server.js:174 | `ExpiredBy` is `otpExpires < now` (and the router's `now > otpExpires`, adminRoutes.js line 75): it holds for a date exactly when now is later, is false for an absent date, and compares a null date as 0 |
| JsValues.FalsyValues | Backend/server.js:174 | `Falsy` is `!x` (also the `!token` test of server.js line 70): a string is falsy exactly when empty, a number exactly when zero, and undefined and null are falsy |
| JsValues.TimeValue | Backend/routes/adminRoutes.js:75 | a date field converts to NaN in a comparison exactly when it is absent |
| JsValues.Split | Backend/server.js:69 | `split(" ")` yields at least one piece and no piece contains a space |
| JsValues.SplitJoin | Backend/server.js:69 | joining the pieces of `split` with the separator gives back the header |
| JsValues.SplitAfterPiece | Backend/server.js:69 | a space-free prefix followed by a space is split off as one whole piece |
| JsValues.SplitWhole | Backend/server.js:69 | a string without spaces is a single piece |
| Bcrypt.Hash | Backend/server.js:100 | a hash made from a password matches that password and uses work factor 10 |
| Bcrypt.Key | Backend/server.js:120 | bcrypt's key schedule is 72 characters long, filled with the password followed by a NUL, repeated: it agrees with the password at each of its first 72 places, and holds a NUL right after a shorter password |
| Bcrypt.KeyDeterminesPassword | Backend/server.js:120 | a NUL-free password of at most 72 characters is the only such password with its key |
| Bcrypt.EmbeddedNulCollides | Backend/routes/adminRoutes.js:34 | "a" and "a\0a" fill the key schedule alike, so each matches the other's hash |
| Bcrypt.OnlyItsPasswordMatches | Backend/server.js:120 | a hash matches exactly the passwords with the key of its own; among NUL-free passwords of at most 72 characters, its own password and no other; hashes with different salts differ, yet both match |
| Bcrypt.LongPasswordsCollide | Backend/routes/adminRoutes.js:34 | a password of 72 characters or more, extended by anything, still matches the hash of the original |
| ServerAuth.BearerToken | Backend/server.js:69 | the token is undefined or a string with no space in it |
| ServerAuth.VerifyToken | Backend/server.js:68-79 | refused as not authorized exactly when the header is absent or its second space-separated piece is missing or empty; otherwise admitted with the claims the token check decoded, or refused as an invalid token |
| ServerAuth.BearerTokenIsSecondWord | Backend/server.js:69 | for "scheme token rest" the token is exactly the word after the first space |
| ServerAuth.WellFormedHeaderGate | Backend/server.js:69-78 | a well-formed header is admitted exactly when the token check accepts its token, and carries the decoded claims |
| ServerAuth.MalformedHeadersRefused | Backend/server.js:69-70 | a header with no space, or with two spaces after the scheme, is refused as not authorized |
| ServerAuth.RegisterStep | Backend/server.js:97-108 | the account is created exactly when the email is non-empty and new, with a matching hash and no code; otherwise the answer is 500 and nothing changes |
| ServerAuth.LoginReply | Backend/server.js:113-132 | a token is issued exactly when the email exists and the password matches; it names the email and expires 7 days after issue; otherwise the answer is invalid credentials |
| ServerAuth.ForgotPasswordStep | Backend/server.js:137-162 | unknown email: not found, nothing changes; otherwise the issued code and `now + 600000` are stored, the password and every other document stay, and a failed mail still leaves the code stored |
| ServerAuth.VerifyOtpStep | Backend/server.js:167-190 | "OTP expired" exactly when no code is pending or it has lapsed; "Invalid OTP" only after that test passes and the code differs; a pending, unexpired code equal to the one sent succeeds; failures change nothing; success stores the new password's hash and unsets both code fields |
| ServerAuth.HandlersKeepStoreValid | Backend/server.js:97-184 | register, forgot-password and verify-otp keep the collection invariant |
| ServerAuth.RegisterThenLogin | Backend/server.js:97-128 | after registering, login with the same password issues a token; a second registration of the email fails and changes nothing |
| ServerAuth.MailedCodeResetsOnce | Backend/server.js:144-184 | a mailed code resets the password once within ten minutes, the last instant included; the new password then logs in, and the same code afterwards answers "OTP expired" |
| ServerAuth.WrongAttemptThenRightCode | Backend/server.js:177-178 | a wrong code changes nothing, so the right code still succeeds later in the window; "000000" is never the right code |
| ServerAuth.ExpiryCheckedFirst | Backend/server.js:174-178 | after the window every attempt, right or wrong, answers "OTP expired" and changes nothing |
| ServerAuth.NoPendingCodeIsExpired | Backend/server.js:174-175 | with no code pending (absent, unset or null) every attempt answers "OTP expired" |
| ServerAuth.AdminApi.Register | Backend/server.js:97-108 | the handler keeps the invariant and yields the reply and collection of RegisterStep |
| ServerAuth.AdminApi.Login | Backend/server.js:113-132 | reads only; a token is issued exactly when the password matches the stored hash |
| ServerAuth.AdminApi.ForgotPassword | Backend/server.js:137-162 | the handler assigns the code, then the expiry, saves, and only then depends on the mail; it yields ForgotPasswordStep |
| ServerAuth.AdminApi.VerifyOtp | Backend/server.js:167-190 | the handler yields VerifyOtpStep and keeps the invariant |
| AdminRouter.RegisterStep | Backend/routes/adminRoutes.js:6-24 | a taken email answers "Admin already exists" and changes nothing; a new non-empty email adds exactly one account with a matching hash and no code; an empty email fails the save |
| AdminRouter.LoginReply | Backend/routes/adminRoutes.js:27-41 | "Admin not found" exactly for an unknown email; success exactly when the password matches; otherwise "Wrong password"; nothing is written |
| AdminRouter.GenerateOtpStep | Backend/routes/adminRoutes.js:44-63 | unknown email: not found, nothing changes; otherwise the issued code and `now + 300000` replace any earlier code, the password and every other document stay, and the code is returned |
| AdminRouter.VerifyOtpStep | Backend/routes/adminRoutes.js:66-86 | "Invalid OTP" exactly when the stored and sent codes differ, even past expiry; "OTP expired" exactly when they are equal and the expiry has passed; equal codes with the expiry not passed succeed; failures change nothing; success sets both fields to null and keeps the password |
| AdminRouter.ForgotPasswordStep | Backend/routes/adminRoutes.js:89-105 | any existing account gets the new password with no code asked for; the code fields and every other document stay |
| AdminRouter.RoutesKeepStoreValid | Backend/routes/adminRoutes.js:11-99 | every route keeps the collection invariant |
| AdminRouter.RegisterThenLogin | Backend/routes/adminRoutes.js:11-37 | after registering, login with the same password succeeds; registering the email again answers "already exists" and changes nothing |
| AdminRouter.GeneratedCodeVerifiesOnce | Backend/routes/adminRoutes.js:54-82 | a generated code verifies once within five minutes, the last instant included, and leaves the password alone; reusing it answers "Invalid OTP" |
| AdminRouter.WrongAttemptThenRightCode | Backend/routes/adminRoutes.js:73-74 | a wrong code changes nothing, so the right code still verifies later in the window |
| AdminRouter.ExpiredCodeReplies | Backend/routes/adminRoutes.js:73-76 | past the window the right code answers "OTP expired" with nothing changed, and a wrong code still answers "Invalid OTP" |
| AdminRouter.NeverIssuedCodeVerifiesOnce | Backend/routes/adminRoutes.js:73-80 | a document that never had a code, verified with no code sent, is verified once; the same request afterwards answers "Invalid OTP" |
| AdminRouter.NumericCodeNeverMatches | Backend/models/Admin.js:6 | codes compare as strings: a code sent as a JSON number never matches |
| AdminRouter.ResetWithoutCode | Backend/routes/adminRoutes.js:93-99 | after forgot-password the new password logs in, and another password is refused exactly when bcrypt's key for it differs from the new one's |
| AdminRouter.Router.Register | Backend/routes/adminRoutes.js:6-24 | the route keeps the invariant and yields RegisterStep |
| AdminRouter.Router.Login | Backend/routes/adminRoutes.js:27-41 | reads only; success exactly when the password matches |
| AdminRouter.Router.GenerateOtp | Backend/routes/adminRoutes.js:44-63 | the route assigns the code and expiry, saves, keeps the invariant and yields GenerateOtpStep |
| AdminRouter.Router.VerifyOtp | Backend/routes/adminRoutes.js:66-86 | the route tests the code, then the expiry, nulls both fields and yields VerifyOtpStep |
| AdminRouter.Router.ForgotPassword | Backend/routes/adminRoutes.js:89-105 | the route overwrites the password and yields ForgotPasswordStep |
| ServerAppointments.CastObjectId | Backend/server.js:209 | an id casts exactly when it is 24 hex digits, to a canonical id whose every digit is the sent digit lower-cased; a canonical id casts to itself |
| ServerAppointments.InsertNewest | Backend/server.js:197 | inserting into a newest-first sequence keeps it newest first and adds exactly that record |
| ServerAppointments.NewestFirst | Backend/server.js:197 | the arrangement is ordered by `createdAt` descending and is a permutation of the collection |
| ServerAppointments.Lookup | Backend/server.js:209 | a document is found exactly when some document has the id, and it is that one |
| ServerAppointments.Without | Backend/server.js:209 | a delete removes exactly the document found, one at most, and changes nothing when none is found |
| ServerAppointments.WithoutKeepsValid | Backend/server.js:209 | with unique ids a delete keeps the ids unique and leaves no document with that id |
| ServerAppointments.NewSubmissionListedFirst | Backend/server.js:197 | a booking created later than every stored one comes first in any newest-first listing |
| ServerAppointments.AppointmentApi.Create | Backend/server.js:84-92 | with no deduplication, a booking is appended under the body's `_id` if it carries one, else the generated id, with both timestamps set to the body's `createdAt` if it carries one, else now; only a body `_id` that cannot be cast, or an id already taken, fails the save, and then nothing changes |
| ServerAppointments.BackdatedSubmissionNotFirst | Backend/server.js:86 | a booking whose own `createdAt` is earlier than some stored booking's is not first in a newest-first listing |
| ServerAppointments.AppointmentApi.List | Backend/server.js:195-202 | listed exactly when the gate admits; the listing is newest first and a permutation of the collection; otherwise the gate's refusal |
| ServerAppointments.AppointmentApi.Delete | Backend/server.js:207-214 | behind the gate, a castable id reports success with the removed document or null and removes at most that one; an id that cannot be cast answers 500 and changes nothing |

## Left out

- Persistence: database connection, CORS and body parsing, the nodemailer
  transporter's configuration and mail contents, and `app.listen`. The mail
  outcome is a boolean parameter.
- Database and hashing failures other than the save refusals modelled. A lookup
  that throws, or a hash of an absent password, would answer 500 and change nothing.
- Body fields that are absent or of the wrong type: email and passwords are
  strings. The code sent to verify-otp may be absent, null, a string or an
  integer. Booleans, objects, arrays and fractional numbers are not modelled.
  Each is `!==` to every value a document can hold, so a code of those kinds
  behaves like any other code that does not match.
- An email given as `undefined`, which mongoose drops from the `findOne`
  filter, so the filter would match any document.
- The document's `_id`: the session token names the admin by email.
- JWT signing, signature and expiry checking: a token check function
  `jwtVerify` is a parameter.
- bcrypt's internals: a digest records its salt and the password it was made
  from, and comparison is equality of the 72-character keys.
- Bcrypt.Key: bcrypt fills its key schedule from the UTF-8 bytes of the
  password; the model uses its characters. The two agree for ASCII passwords,
  NUL included. A password with multi-byte characters fills the schedule
  sooner in bcrypt than in the model, so more passwords collide in bcrypt
  than in the model.
- IEEE double rounding in `Math.floor(100000 + Math.random() * 900000)`: the
  arithmetic is over reals.
- ServerAppointments.CastObjectId: only 24-hex-digit strings cast. Older BSON
  driver versions also accept any 12-character string as raw bytes.
- Booking field coercion and validation, and the Appointment schema's strict
  dropping of unknown fields: every booking field is an optional string.
- ServerAppointments.AppointmentApi.Create: a body `createdAt` is taken as
  already converted to milliseconds. One that cannot be cast to a date fails
  the save with 500, and that failure is not modelled. A body `_id` is taken
  as a string; other types are not modelled. A body `updatedAt` is not an
  input, because a new document's `updatedAt` is always set to its
  `createdAt`.
- ServerAppointments.AppointmentApi.List: the order among bookings created at
  the same millisecond is whatever the database returns. The contract states
  only the newest-first order and the permutation.
- HTTP status codes and JSON shapes beyond the reply tag.
- Concurrent requests on one account (last write wins): each handler is one
  atomic step.
- The front-end script (DOM wiring, counters, the booking form's fetch): it
  has no server-side state.
