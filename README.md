# Event booking server — a Dafny model

This project models the server side of an event-booking application. The
application exists in two variants, and both are modelled.

- **The SQLite variant** (`server/src/...`, an Express app over
  better-sqlite3). It has:
  - a one-time-code (OTP) login with hashed codes, a five-minute expiry
    and an attempt counter;
  - a bearer-token guard with an exact role check;
  - a paginated public catalogue;
  - booking requests;
  - an admin router for events, photos and booking statuses.
- **The MySQL variant** (`auth.js`, `events.js`, `booking.js`, over
  mysql2). It has:
  - an OTP login that marks codes as used instead of deleting them;
  - a catalogue with composed filters;
  - admin event management and photo upload;
  - booking requests with a four-status workflow.

The database of each variant is a class (`SqliteDb.Database`,
`MysqlDb.MysqlDatabase`). Its fields are the tables, held as sequences of
rows, together with the auto-increment counters. Each route handler is a
method that changes those fields. Its `ensures` clause equates the new
tables and the reply with a pure step function of the old tables
(`VerifyOtpStep`, `CreateBookingStep`, ...). The lemmas beside each step
function state what the route promises:

- error order and status codes;
- exactly which rows change, with the rest untouched;
- round trips such as "request a code, then send it back, and you are
  logged in";
- soundness and completeness of the listings;
- the table invariants, which are increasing ids below the counters and,
  in SQLite, unique mobile numbers.

The photo-upload loops are `for` loops whose invariant ties the table to
the function listing the rows inserted so far. Code generation is a loop
that proves the code's length and alphabet.

Things outside the program are parameters:

- SHA-256 is a function `sha256`; a lemma that needs injectivity states it
  as a precondition;
- `jwt.sign` is `sign`, and `jwt.verify` is `verify`;
- express-validator's `isMobilePhone`, `isDecimal` and `isDate` are
  `isMobile`, `isDecimal` and `isDate`;
- MySQL's reading of a numeric string is `decimal`;
- clock readings are integer parameters;
- random numbers are nondeterministic choices (`:|`).

JavaScript values are `Js.Value`: `Undefined`, `Null`, a text or an
integer. The model spells out the coercions the handlers rely on:

- truthiness, `||`, `??`, `String(v)` and `parseInt`;
- SQLite's INTEGER affinity (`SqliteDb.IntegerCell`);
- MySQL's text and integer conversions (`MysqlDb.IntColumn`,
  `MysqlDb.TextColumn`);
- mysql2's refusal of a bound `undefined`, which every MySQL handler turns
  into a 500.

Some behaviour of the code is worth stating outright:

- In the SQLite admin router, a booking can be set to any of the three
  statuses from any status, `PENDING` included; no transition is refused
  (`SqliteAdmin.AnyStatusReachable`).
- The same holds for the four MySQL statuses (`MysqlBooking.AnyStatusReachable`).
- The code-request sweep deletes every expired code, not only those of the
  requesting number. It caps nothing per number, although a comment
  speaks of keeping "the last 5 requests" (`SqliteAuth.UnexpiredCodesAccumulate`).
- The MySQL booking request does not check that the event exists.
  The MySQL event update, delete and photo upload do not check it either.

## Model

| member | source | states |
|---|---|---|
| AccessGuard.BearerToken | server/src/middleware/auth.js:4-5 | a token exists exactly when the header starts with `Bearer `, and the header is then `Bearer ` followed by the token |
| AccessGuard.AuthRequired | server/src/middleware/auth.js:3-14 | `authRequired`: the header's Bearer token, verified, becomes the user; stated by `AccessGuard.AuthRequiredPasses` |
| AccessGuard.RequireRole | server/src/middleware/auth.js:16-22 | `requireRole(role)`: 401 without a user, 403 on another role; stated by `AccessGuard.RequireRoleExact` |
| AccessGuard.AdminGate | server/src/routes/admin.js:33 | `authRequired` then `requireRole('ADMIN')`; stated by `AccessGuard.AdminGateAdmitsOnlyAdmins` |
| AccessGuard.AuthRequiredPasses | server/src/middleware/auth.js:3-14 | the guard calls `next` exactly when the header is `Bearer ` plus a non-empty token that verifies; `req.user` is then that token's payload; every refusal is a 401: "Invalid token" when a non-empty bearer token fails verification, "Unauthorized" when there is no non-empty bearer token |
| AccessGuard.EmptyBearerRejected | server/src/middleware/auth.js:5-6 | the header `Bearer ` alone yields an empty token and a 401 "Unauthorized" |
| AccessGuard.NonBearerRejected | server/src/middleware/auth.js:4-6 | a missing header, or one not starting with `Bearer `, gives 401 "Unauthorized" |
| AccessGuard.RequireRoleExact | server/src/middleware/auth.js:16-22 | passes exactly when the role claim equals the required role; no user gives 401 and any other role gives 403 |
| AccessGuard.UserTokenForbiddenOnAdminRoutes | server/src/routes/admin.js:33 | a verified USER token is refused with 403 by the admin chain, and an ADMIN token does not satisfy `requireRole('USER')`: there is no role hierarchy |
| AccessGuard.AdminGateAdmitsOnlyAdmins | server/src/routes/admin.js:33 | the admin chain admits exactly the verified tokens whose role claim is `ADMIN`, and passes on their payload |
| Js.NatToString | server/src/utils/otp.js:14 | `String(n)` of a natural number is a non-empty run of digits with no leading zero |
| Js.DigitsValueOfNatToString | server/src/routes/events.js:9-10 | the digits `String(n)` prints denote `n` |
| Js.DigitPrefix | server/src/routes/events.js:9 | the digit run `parseInt` reads is the longest prefix made of digits |
| Js.TrimStart | server/src/routes/events.js:9 | the white space `parseInt` skips is a prefix, and what remains does not start with white space |
| Js.ParseInt | server/src/routes/events.js:9 | `parseInt(s, 10)`: white space, an optional sign and the longest digit run; stated by `Js.ParseIntOfDigits`, `Js.ParseIntOfNegated` and `Js.ParseIntOfIntToString` |
| Js.ParseIntOfDigits | server/src/routes/events.js:9 | `parseInt` of a run of digits is its value |
| Js.ParseIntOfNegated | server/src/routes/events.js:9 | `parseInt` of `-` and digits is the negated value |
| Js.ParseIntOfIntToString | server/src/routes/admin.js:58 | `parseInt(String(i), 10) == i` for every integer |
| Js.ParseIntOfUndefined | server/src/routes/events.js:8-9 | `parseInt` of a missing parameter is NaN |
| Js.IntToStringLeadingZero | server/src/utils/otp.js:14 | a printed integer starts with `0` only when it is `0` |
| Js.AsciiLower | server/src/routes/events.js:19 | the case folding of LIKE keeps the length of the text |
| Js.ContainsAt | server/src/routes/events.js:19-20 | a needle occurring at any position satisfies `LIKE '%needle%'` |
| OtpUtil.GenerateNumericOtp | server/src/utils/otp.js:3-11 | the code has exactly `length` characters (6 by default), each one of `0123456789` |
| OtpUtil.HashOtpOfNumber | server/src/utils/otp.js:13-15 | the hash depends on `String(code)` only: the number 123456 and the text "123456" hash alike |
| OtpUtil.NumberNeverMatchesLeadingZero | server/src/utils/otp.js:13-15 | with an injective digest, a code sent as a JSON number never matches a stored code that starts with `0` |
| OtpUtil.NowSeconds | server/src/utils/otp.js:17-19 | the seconds clock is the millisecond clock divided by 1000, rounded down |
| Uploads.MulterAcceptsExactly | server/src/routes/admin.js:24-31 | the files get through exactly when there are at most ten, all have an `image/` mime type and none exceeds 5 MB |
| Uploads.MulterCheck | server/src/routes/admin.js:24-31 | multer's limits and file filter over the files in order; stated by `Uploads.MulterAcceptsExactly` and `Uploads.NonImageRejected` |
| Uploads.NonImageRejected | server/src/routes/admin.js:27-28 | a non-image among the first ten fails the request with the filter's message unless an earlier file already failed it |
| Uploads.Basename | server/src/routes/admin.js:95 | `path.basename` is a suffix of the path and contains no `/` |
| Uploads.BasenameOfJoin | server/src/routes/admin.js:95 | the base name of a file stored in a directory is the name it was stored under |
| Uploads.Extname | events.js:16 | `path.extname` is empty or a `.` followed by text with no other `.`, and contains no `/` |
| SqliteDb.TrimSqlSpace | server/src/db.js:42 | the white space SQLite skips around a number is removed from both ends, and text with none there is kept as it is |
| SqliteDb.IntegerText | server/src/db.js:15 | only non-empty text can be read as an integer; the skipping of surrounding white space is stated by `SqliteDb.IntegerCellTrimsSpace` |
| SqliteDb.IntegerCellTrimsSpace | server/src/db.js:42 | text with white space around an integer, such as `" 5"` or `"5 "`, is stored and compared as that integer |
| SqliteDb.IntegerCell | server/src/db.js:45-46 | an INTEGER column holds an integer exactly when it was given one or text in integer form, white space around it allowed; integers and non-text values are stored as given |
| SqliteDb.IntegerCellOfPrinted | server/src/db.js:45-46 | an integer printed by JavaScript is read back by an INTEGER column as that integer |
| SqliteDb.IntegerCellIdempotent | server/src/db.js:45-46 | storing a stored value again stores the same value |
| SqliteDb.Database.constructor | server/src/db.js:13-76 | a new database has every table empty and satisfies the table invariants |
| SqliteAuth.LatestCode | server/src/routes/auth.js:36-38 | the row found is the last one for the number, and there is none exactly when no row has that number |
| SqliteAuth.UserByMobile | server/src/routes/auth.js:50 | the user found is the first one with that number, and there is none exactly when no user has it |
| SqliteAuth.UserById | server/src/routes/auth.js:67 | the user found has the id the INTEGER column reads from `req.user.id`; there is none exactly when no user has it |
| SqliteAuth.ProfileIndex | server/src/routes/auth.js:68-70 | the profile found is the first whose `user_id` equals the caller id as the column reads it |
| SqliteAuth.EnsureUser | server/src/routes/auth.js:50-57 | the user with the number, or a new USER with an empty profile; stated by `SqliteAuth.EnsureUserFacts` |
| SqliteAuth.RequestOtpStep | server/src/routes/auth.js:15-30 | `POST /request-otp` on the tables; stated by `SqliteAuth.RequestOtpOutcome` and `SqliteAuth.RequestOtpKeepsValid` |
| SqliteAuth.VerifyOtpStep | server/src/routes/auth.js:32-64 | `POST /verify-otp` on the tables; stated by `SqliteAuth.VerifyCheckOrder`, `SqliteAuth.VerifyOtpSuccess` and `SqliteAuth.VerifyOtpKeepsValid` |
| SqliteAuth.MeOf | server/src/routes/auth.js:66-72 | `GET /me`: the caller's user and profile; stated by `SqliteAuth.NewUserSeesEmptyProfile` |
| SqliteAuth.UpdateProfileStep | server/src/routes/auth.js:74-82 | `PUT /me/profile` on the tables; stated by `SqliteAuth.ProfileUpdateOnlyCaller` and `SqliteAuth.UpdateProfileKeepsValid` |
| SqliteAuth.RequestOtp | server/src/routes/auth.js:15-30 | succeeds exactly when the number is truthy; a failure is 400 "Mobile is required" and leaves the tables unchanged; the returned code is six digits, and the new tables are `RequestOtpStep` of the old |
| SqliteAuth.VerifyOtp | server/src/routes/auth.js:32-64 | the new tables and the reply are `VerifyOtpStep` of the old tables |
| SqliteAuth.UpsertUser | server/src/routes/auth.js:49-56 | the tables and the user are those of `EnsureUser`: the existing user, or a new USER with an empty profile |
| SqliteAuth.UpdateProfile | server/src/routes/auth.js:74-82 | the new tables and the reply are `UpdateProfileStep` of the old tables |
| SqliteAuth.IssuedTokenAdmitted | server/src/routes/auth.js:9-13 | a token issued at login passes `authRequired` and carries the user's `{ id, mobile, role }` |
| SqliteAuth.SweepKeepsUnexpired | server/src/routes/auth.js:24 | the sweep keeps a code exactly when its expiry is not before now, for every number |
| SqliteAuth.RequestOtpOutcome | server/src/routes/auth.js:17-29 | without a number, a 400 and no change; otherwise the swept table gains one row with the next id, the hash of the code, expiry `issuedAt + 300` and no attempts, and nothing else changes |
| SqliteAuth.RequestOtpKeepsValid | server/src/routes/auth.js:24-26 | requesting a code keeps the table invariants |
| SqliteAuth.UnexpiredCodesAccumulate | server/src/routes/auth.js:23-26 | when no code has expired, a new request keeps every older code: nothing caps the rows per number |
| SqliteAuth.VerifyCheckOrder | server/src/routes/auth.js:34-44 | checks run in order: a falsy mobile or otp gives 400 "Mobile and OTP required" with nothing changed; then no row gives 400 "not found"; then `expires_at < now` gives 400 "OTP expired"; then `attempt_count >= 5` gives 429 whatever the code; only then is the hash compared, and success happens exactly when it matches; the refusals change nothing |
| SqliteAuth.WrongCodeBumpsOnlyLatest | server/src/routes/auth.js:44-47 | "Invalid OTP" adds exactly one to the latest row's counter and changes no other row or table |
| SqliteAuth.BumpKeepsLatest | server/src/routes/auth.js:45 | after a wrong guess the same row is still the latest for the number, one attempt further on |
| SqliteAuth.WrongGuessesCount | server/src/routes/auth.js:40-47 | `n` wrong guesses in a row, within the limit, are each refused as invalid and leave the counter at its old value plus `n` |
| SqliteAuth.VerifyAllKeepsValid | server/src/routes/auth.js:32-64 | any run of verify requests keeps the table invariants |
| SqliteAuth.OneWrongGuess | server/src/routes/auth.js:43-47 | one wrong guess on the latest live row is a 400 whose only effect is the counter bump |
| SqliteAuth.SixthAttemptLockedOut | server/src/routes/auth.js:41-47 | five wrong codes on a fresh code are refused as invalid, and the sixth request gets a 429 whatever it sends, the right code included |
| SqliteAuth.EnsureUserFacts | server/src/routes/auth.js:50-57 | a known number yields its user and no change; an unknown one appends a USER with the next id and an empty profile; either way the user is then found by number |
| SqliteAuth.UserByMobileAppend | server/src/routes/auth.js:52-53 | the user just inserted is the one the read-back finds |
| SqliteAuth.VerifyOtpSuccess | server/src/routes/auth.js:49-63 | a successful verification upserts the user, deletes the matched row, and answers with the token and the user |
| SqliteAuth.VerifyOtpKeepsValid | server/src/routes/auth.js:32-64 | verifying keeps the table invariants, unique mobile numbers included |
| SqliteAuth.BumpKeepsValid | server/src/routes/auth.js:45 | the counter bump keeps the table invariants |
| SqliteAuth.LoginKeepsValid | server/src/routes/auth.js:50-60 | the upsert followed by the code deletion keeps the table invariants |
| SqliteAuth.RequestThenVerify | server/src/routes/auth.js:15-64 | sending back a new code before it expires logs in; the codes table is then as the sweep left it, and a user with that number exists |
| SqliteAuth.LatestOfAppended | server/src/routes/auth.js:25-26 | the row just inserted is the latest for its number |
| SqliteAuth.DeleteAppended | server/src/routes/auth.js:60 | deleting the newest row by its id gives back the table before the insert |
| SqliteAuth.GoodCodeLogsIn | server/src/routes/auth.js:43-63 | the right code on the latest live row under the limit logs in |
| SqliteAuth.ReplayAfterLoginNotFound | server/src/routes/auth.js:60 | a code is single-use: after login the same request finds no row and gets 400 "OTP not found", when the number had no other code |
| SqliteAuth.LoginUpsertsUser | server/src/routes/auth.js:50-57 | a first login creates exactly one USER with the next id and one empty profile; a later login for the number creates nothing and answers with the stored user |
| SqliteAuth.NewUserSeesEmptyProfile | server/src/routes/auth.js:66-72 | the user a first login creates sees itself and an empty profile in `GET /me` |
| SqliteAuth.FreshUserFound | server/src/routes/auth.js:67 | a user appended under an id above the others is found by that id |
| SqliteAuth.FreshProfileFound | server/src/routes/auth.js:55-56 | the empty profile appended at registration is found by its user's id |
| SqliteAuth.ProfileUpdateOnlyCaller | server/src/routes/auth.js:76-77 | the update rewrites only the caller's profile row, storing `''` for each falsy field; no other row or table changes |
| SqliteAuth.UpdateProfileKeepsValid | server/src/routes/auth.js:76-77 | the profile update keeps the table invariants |
| SqliteEvents.Summaries | server/src/routes/events.js:25 | one summary per row, in order, with the selected columns |
| SqliteEvents.ParamInt | server/src/routes/events.js:9-10 | `parseInt(v) \|\| fallback` is the fallback when the text does not parse, the parsed number when it is not 0, and never 0 unless the fallback is |
| SqliteEvents.PageNumber | server/src/routes/events.js:10 | the page number is never zero |
| SqliteEvents.PageLimit | server/src/routes/events.js:9 | the corrected page size, `Math.min(…, 50)` raised to at least 1: it lies in [1, 50] (the source's size is `PageLimitAsWritten`) |
| SqliteEvents.ListRowsAsWritten | server/src/routes/events.js:7-27 | the source's listing, `LIMIT ? OFFSET ?` over the matches newest first: at most the table's rows, and at most the page size when that is positive |
| SqliteEvents.ListRows | server/src/routes/events.js:7-27 | the corrected listing, with the clamped page size: at most that many rows |
| SqliteEvents.ListEvents | server/src/routes/events.js:7-30 | `GET /` over the corrected listing: one summary per listed row, in order, at most 50 |
| SqliteEvents.EventDetail | server/src/routes/events.js:32-41 | `GET /:id`: a failure is 404 "Event not found"; a success has a parsed id, the summary of a stored event with that id, and that event's photos |
| SqliteEvents.EventIndex | server/src/routes/events.js:34-39 | the event found has the requested id, and there is none exactly when no event has it |
| SqliteEvents.PhotosOf | server/src/routes/events.js:40 | the photo list has at most as many entries as the photos table |
| SqliteEvents.EventByBodyId | server/src/routes/events.js:47 | the event found has the id the INTEGER column reads from the body's `eventId`; there is none exactly when no event has it |
| SqliteEvents.CreateBooking | server/src/routes/events.js:44-54 | the new tables and the reply are `CreateBookingStep` of the old tables |
| SqliteEvents.CreateBookingStep | server/src/routes/events.js:44-54 | `POST /bookings` on the tables; stated by `SqliteEvents.CreateBookingOutcome` and `SqliteEvents.CreateBookingKeepsValid` |
| SqliteEvents.PageLimitBounds | server/src/routes/events.js:8-9 | the corrected page size lies in [1, 50]; it is 20 when the parameter is missing, unparsable or zero, the number itself when it is in [1, 50], and 50 when it is larger; the source's size equals it whenever that is positive |
| SqliteEvents.PageLimitAsWrittenPassesNegatives | server/src/routes/events.js:9 | the page size as written never exceeds 50, but a negative parameter passes through |
| SqliteEvents.PageNumberOf | server/src/routes/events.js:8-10 | a missing page or page 0 is page 1, and page `k` is page `k` for every other integer |
| SqliteEvents.MatchingMember | server/src/routes/events.js:12-25 | an event is among the matches exactly when it is in the table and passes the filters |
| SqliteEvents.ListedEventsMatch | server/src/routes/events.js:14-21 | every event listed, by the source's listing or the corrected one, is in the table, has exactly the requested category, and contains the search text in its title, company name or location |
| SqliteEvents.ListNewestFirstAndBounded | server/src/routes/events.js:9-25 | both listings have strictly decreasing ids; the corrected page holds at most the page size and so at most 50 events, and the source's page does too whenever its size is positive |
| SqliteEvents.AsWrittenAgreesOnPositiveSizes | server/src/routes/events.js:9-27 | the source's page size is never 0, and whenever it is positive the source's listing is the corrected one |
| SqliteEvents.PageIsBlock | server/src/routes/events.js:10-25 | page `k` is the `k`-th block of page-size matching events, newest first, for the corrected listing, and for the source's whenever its page size is positive |
| SqliteEvents.Block | server/src/routes/events.js:25 | a block holds at most `limit` rows |
| SqliteEvents.BlockOfWindow | server/src/routes/events.js:10-25 | `LIMIT limit OFFSET (k - 1) * limit` is block `k` |
| SqliteEvents.NoFilterListsAll | server/src/routes/events.js:12 | without a category or a search text every event matches, newest first |
| SqliteEvents.NegativePageSizeListsEverything | server/src/routes/events.js:9-10 | as written, a negative page size with no filter lists the whole table, more than 50 events when the table holds more |
| SqliteEvents.ClampedListAtMostFifty | server/src/routes/events.js:9 | with the page size clamped, no query returns more than 50 events |
| SqliteEvents.DetailFindsEvent | server/src/routes/events.js:32-41 | the detail of any stored event, requested by its printed id, succeeds with that event's columns |
| SqliteEvents.DetailNotFound | server/src/routes/events.js:33-39 | the detail fails exactly when the id does not parse or names no event, and then it is 404 "Event not found" |
| SqliteEvents.DetailPhotosBelongToEvent | server/src/routes/events.js:40 | every photo in the detail is a stored photo of that event |
| SqliteEvents.CreateBookingOutcome | server/src/routes/events.js:45-53 | no event id gives 400; an unknown event gives 404; a token without an id gives the NOT NULL 500; all three change nothing; the booking succeeds exactly otherwise, with a 201 and exactly one PENDING booking appended for the caller and the requested event as the INTEGER column reads it, notes defaulting to `''` |
| SqliteEvents.CreateBookingSucceedsExactly | server/src/routes/events.js:45-53 | a booking is made exactly when the body's event id is truthy and names a stored event and the token carries an id |
| SqliteEvents.BookingOwnedByCaller | server/src/routes/events.js:51 | a created booking carries the caller's id |
| SqliteEvents.CreateBookingKeepsValid | server/src/routes/events.js:49-51 | creating a booking keeps the table invariants |
| SqliteAdmin.SafeName | server/src/routes/admin.js:19 | the sanitised name has the original's length, and every character is in `[a-zA-Z0-9.\-_]` |
| SqliteAdmin.SafeNamePointwise | server/src/routes/admin.js:19 | each character is kept when allowed and replaced by `_` otherwise |
| SqliteAdmin.SafeNameFixedExactlyOnSafe | server/src/routes/admin.js:19 | a name is unchanged exactly when all its characters are allowed, so sanitising twice equals sanitising once |
| SqliteAdmin.IntToStringSafe | server/src/routes/admin.js:18 | the printed clock and random number contain only allowed characters |
| SqliteAdmin.StoredFileNameSafe | server/src/routes/admin.js:17-95 | a stored file name contains only allowed characters, so never a `/`, and `path.basename` of its path gives it back |
| SqliteAdmin.StoredPaths | server/src/routes/admin.js:15-20 | one path per file: the upload directory, `/`, then the stored name |
| SqliteAdmin.EventsRevised | server/src/routes/admin.js:62-75 | the update keeps the number of events |
| SqliteAdmin.EventsWithout | server/src/routes/admin.js:84 | the delete never adds events |
| SqliteAdmin.CreateEventStep | server/src/routes/admin.js:35-55 | `POST /events` on the tables; stated by `SqliteAdmin.CreateEventOutcome` and `SqliteAdmin.CreateEventKeepsValid` |
| SqliteAdmin.UpdateEventStep | server/src/routes/admin.js:57-78 | `PUT /events/:id` on the tables; stated by `SqliteAdmin.UpdateEventOutcome` and `SqliteAdmin.UpdateEventKeepsValid` |
| SqliteAdmin.DeleteEventStep | server/src/routes/admin.js:80-86 | `DELETE /events/:id` on the tables; stated by `SqliteAdmin.DeleteEventOutcome` and `SqliteAdmin.DeleteEventKeepsValid` |
| SqliteAdmin.InsertPhotos | server/src/routes/admin.js:93-96 | the photo rows the upload loop inserts; stated by `SqliteAdmin.InsertPhotosFacts` and `SqliteAdmin.InsertPhotosNext` |
| SqliteAdmin.UploadPhotosStep | server/src/routes/admin.js:88-99 | `POST /events/:id/photos` on the tables; stated by `SqliteAdmin.UploadPhotosOutcome` and `SqliteAdmin.UploadPhotosKeepsValid` |
| SqliteAdmin.UpdateBookingStatusStep | server/src/routes/admin.js:114-126 | `PUT /bookings/:id/status` on the tables; stated by `SqliteAdmin.UpdateBookingStatusOutcome` and `SqliteAdmin.UpdateBookingStatusKeepsValid` |
| SqliteAdmin.CreateEvent | server/src/routes/admin.js:35-55 | the new tables and the reply are `CreateEventStep` of the old tables |
| SqliteAdmin.UpdateEvent | server/src/routes/admin.js:57-78 | the new tables and the reply are `UpdateEventStep` of the old tables |
| SqliteAdmin.DeleteEvent | server/src/routes/admin.js:80-86 | the new tables and the reply are `DeleteEventStep` of the old tables |
| SqliteAdmin.InsertPhotoRows | server/src/routes/admin.js:93-96 | the loop leaves the tables as `InsertPhotos` of the old tables: one row per file, in order |
| SqliteAdmin.InsertPhotoRow | server/src/routes/admin.js:94-95 | one insert appends the row `/uploads/<basename>` for the event under the next id |
| SqliteAdmin.UploadPhotos | server/src/routes/admin.js:88-99 | the new tables and the reply are `UploadPhotosStep` of the old tables |
| SqliteAdmin.UserWithId | server/src/routes/admin.js:106 | the join finds a user with the booking's `user_id`, and none exactly when there is none |
| SqliteAdmin.EventWithId | server/src/routes/admin.js:107 | the join finds an event with the booking's `event_id`, and none exactly when there is none |
| SqliteAdmin.AdminBookings | server/src/routes/admin.js:101-112 | one row per joinable booking, newest first, each built from its booking, user and event |
| SqliteAdmin.BookingIndex | server/src/routes/admin.js:120-121 | the booking found has the requested id, and there is none exactly when no booking has it |
| SqliteAdmin.StatusChanged | server/src/routes/admin.js:122-123 | the status update keeps the number of bookings |
| SqliteAdmin.UpdateBookingStatus | server/src/routes/admin.js:114-126 | the new tables and the reply are `UpdateBookingStatusStep` of the old tables |
| SqliteAdmin.CreateEventOutcome | server/src/routes/admin.js:37-54 | a 400 exactly when category or title is falsy, with no change; otherwise a 201 and one row appended under a fresh id, owned by the caller; each budget is NULL when falsy and its INTEGER reading otherwise, each of company name, contact number, location and description `''` when falsy and its text otherwise |
| SqliteAdmin.CreateEventKeepsValid | server/src/routes/admin.js:38-52 | creating an event keeps the table invariants |
| SqliteAdmin.UpdateEventOutcome | server/src/routes/admin.js:58-77 | a 404 exactly when the id does not parse or names no event; otherwise only that event changes; id, owner and creation time stay; category and title take a truthy new value and keep the stored one otherwise; budgets and the four texts take a non-nullish new value and keep the stored one otherwise, budgets as the INTEGER column reads them; `updated_at` becomes now |
| SqliteAdmin.UpdateEventKeepsValid | server/src/routes/admin.js:62-75 | updating an event keeps the table invariants |
| SqliteAdmin.DeleteEventOutcome | server/src/routes/admin.js:81-85 | a 404 exactly when the id names no event; otherwise exactly that event is gone and, in this model without foreign-key enforcement, its photos and bookings remain |
| SqliteAdmin.DeleteEventKeepsValid | server/src/routes/admin.js:84 | deleting an event keeps the table invariants |
| SqliteAdmin.DeletedEventBookingsHidden | server/src/routes/admin.js:84-107 | in this model without foreign-key enforcement, after an event is deleted its bookings stay in the table but drop out of the admin booking list |
| SqliteAdmin.InsertPhotosFacts | server/src/routes/admin.js:93-96 | the loop appends one photo per path, in order, under consecutive fresh ids, each with `/uploads/` and the base name; nothing else changes |
| SqliteAdmin.InsertPhotosNext | server/src/routes/admin.js:93-96 | one more turn of the loop appends the next file's row |
| SqliteAdmin.InsertPhotosKeepsValid | server/src/routes/admin.js:93-96 | the photo inserts keep the table invariants |
| SqliteAdmin.UploadPhotosOutcome | server/src/routes/admin.js:88-98 | a file multer refuses fails the request before the event lookup, with no change; an unknown event is then a 404; when multer passes and the event exists the upload succeeds, each file adding one row `/uploads/<stored name>` for the event, and the reply lists the event's photos |
| SqliteAdmin.UploadPhotosKeepsValid | server/src/routes/admin.js:88-98 | the upload keeps the table invariants |
| SqliteAdmin.AdminBookingsSound | server/src/routes/admin.js:101-110 | every listed row comes from a stored booking whose user and event exist, and carries that user's mobile and that event's title |
| SqliteAdmin.AdminBookingsComplete | server/src/routes/admin.js:105-107 | every booking whose user and event exist is listed |
| SqliteAdmin.AdminBookingsNewestFirst | server/src/routes/admin.js:108 | the list is in strictly decreasing booking id |
| SqliteAdmin.UpdateBookingStatusOutcome | server/src/routes/admin.js:115-125 | a status other than PENDING, APPROVED or REJECTED is a 400 whatever the id, checked before the lookup; an unknown booking is then a 404; otherwise only that booking changes, getting the status and `updated_at = now` |
| SqliteAdmin.AnyStatusReachable | server/src/routes/admin.js:117-123 | any stored booking can be set to any of the three statuses, whatever its current one |
| SqliteAdmin.UpdateBookingStatusKeepsValid | server/src/routes/admin.js:122-123 | the status update keeps the table invariants |
| MysqlDb.IntColumn | booking.js:24-25 | an integer column keeps integers and nullish values, and stores text as the integer it starts with |
| MysqlDb.TextColumn | events.js:118-121 | a text column never holds an integer, and stores every non-integer value as given |
| MysqlDb.MysqlDatabase.constructor | database.js:6-16 | a new pool sees every table empty and satisfies the table invariants |
| MysqlAuth.SendOtp | auth.js:11-38 | the code is six digits; the new tables and the reply are `SendOtpStep` of the old tables |
| MysqlAuth.SendOtpStep | auth.js:11-38 | `POST /send-otp` on the tables; stated by `MysqlAuth.SendOtpOutcome` and `MysqlAuth.SendOtpKeepsValid` |
| MysqlAuth.NumeralLength | auth.js:21 | a number between 10^k and 10^(k+1) prints with k + 1 digits, so the six-digit draw gives a six-character code |
| MysqlAuth.SendOtpOutcome | auth.js:15-33 | an invalid number is a 400 with no change; a number never sent is the 500 of the undefined bind; otherwise a success, and exactly one unverified row is added with the number as the text column stores it, the code, creation at now and expiry now + 300000 ms |
| MysqlAuth.SendOtpKeepsValid | auth.js:25-28 | sending a code keeps the table invariants |
| MysqlAuth.MatchingOtp | auth.js:54-57 | the row found is unverified, unexpired and matches the number and code, and no other match is newer; none exactly when nothing matches |
| MysqlAuth.MarkVerified | auth.js:64-67 | marking a row keeps the number of codes |
| MysqlAuth.AccountByMobile | auth.js:70 | the account found has the number, and none exactly when none has it |
| MysqlAuth.VerifiedAccounts | auth.js:82 | marking accounts keeps the number of accounts |
| MysqlAuth.VerifyOtp | auth.js:41-107 | the new tables and the reply are `VerifyOtpStep` of the old tables |
| MysqlAuth.VerifyOtpStep | auth.js:41-107 | `POST /verify-otp` on the tables; stated by `MysqlAuth.VerifyOtpRefusals`, `MysqlAuth.VerifyOtpUsesNewest`, `MysqlAuth.VerifyOtpToken` and `MysqlAuth.VerifyOtpKeepsValid` |
| MysqlAuth.SignIn | auth.js:69-102 | the sign-in after a matching code; stated by `MysqlAuth.VerifyOtpRegisters`, `MysqlAuth.VerifyOtpMarksKnown` and `MysqlAuth.VerifyOtpToken` |
| MysqlAuth.SignInAccount | auth.js:69-102 | the account half of login leaves the tables and the reply as `SignIn` of the old tables |
| MysqlAuth.VerifyOtpRefusals | auth.js:43-102 | a code whose length is not 6 gives 400; a number that passes the validator but was never sent gives 500 "Login failed"; a code that no unexpired, unused row matches gives 400; none changes anything; and the verification logs in exactly when the input passes and some unexpired, unused row matches the number and the code |
| MysqlAuth.SendThenVerify | auth.js:11-102 | a code just sent for a number, presented for that number before its five minutes are up, logs in |
| MysqlAuth.VerifyOtpUsesNewest | auth.js:55-67 | a successful verification marks only the newest matching row as verified |
| MysqlAuth.VerifyOtpSingleUse | auth.js:64-67 | when one row matched, the same code sent again, at any later time, is "Invalid or expired OTP" |
| MysqlAuth.VerifyOtpToken | auth.js:87-91 | the token signs the user's id and role for 24 hours; login touches no event, photo or booking |
| MysqlAuth.VerifyOtpRegisters | auth.js:73-79 | an unknown number becomes a new verified account with role 'User' under the next id |
| MysqlAuth.VerifyOtpMarksKnown | auth.js:80-84 | a known number adds no account, marks every account with that number as verified, and answers with the first of them |
| MysqlAuth.VerifyOtpKeepsValid | auth.js:41-107 | verifying keeps the table invariants |
| MysqlAuth.MarkVerifiedKeepsIds | auth.js:64-67 | marking a code keeps ids increasing and below the counter |
| MysqlAuth.VerifiedAccountsKeepIds | auth.js:82 | marking accounts keeps ids increasing and below the counter |
| MysqlAuth.AccountById | auth.js:112-115 | the account found has the caller's id, and none exactly when none has it |
| MysqlAuth.GetProfile | auth.js:110-122 | `GET /profile`; stated by `MysqlAuth.GetProfileOwn` |
| MysqlAuth.GetProfileOwn | auth.js:110-117 | for an integer caller id, the profile is that account, or empty exactly when no account has the id |
| MysqlAuth.ProfileUpdated | auth.js:138-141 | the update keeps the number of accounts |
| MysqlAuth.UpdateProfile | auth.js:125-148 | the new tables and the reply are `UpdateProfileStep` of the old tables |
| MysqlAuth.UpdateProfileStep | auth.js:125-148 | `PUT /profile` on the tables; stated by `MysqlAuth.UpdateProfileOutcome` and `MysqlAuth.UpdateProfileKeepsValid` |
| MysqlAuth.UpdateProfileOutcome | auth.js:126-143 | a present name or location under two characters, or a gender other than Male, Female or Other, is a 400; an omitted field or a missing caller id is a 500; otherwise a success, and only the caller's account gets the three fields |
| MysqlAuth.UpdateProfileKeepsValid | auth.js:138-141 | the profile update keeps the table invariants |
| MysqlEvents.Conditions | events.js:45-60 | at most four clauses are appended |
| MysqlEvents.FeaturedImage | events.js:39 | the featured image is the url of a photo of the event, and is absent exactly when the event has none |
| MysqlEvents.ListEvents | events.js:37-65 | one listing per selected event, in order, each carrying its featured image |
| MysqlEvents.EventById | events.js:77-80 | the event found has the id the path parameter reads as, and none exactly when none has it |
| MysqlEvents.GetEvent | events.js:73-94 | `GET /:id`; stated by `MysqlEvents.GetEventOutcome` |
| MysqlEvents.SelectedIffMatches | events.js:41-60 | the composed `WHERE 1=1 AND ...` clauses hold exactly when the event satisfies each filter given |
| MysqlEvents.SelectedSnoc | events.js:45-60 | each appended clause adds one more condition the row must satisfy |
| MysqlEvents.ListEventsSound | events.js:45-64 | every listed event is in the table, has the given type, contains the location text, and has budgets within the given bounds |
| MysqlEvents.ListEventsComplete | events.js:45-64 | every event that matches the filters is listed |
| MysqlEvents.ListEventsNewestFirst | events.js:39-62 | the listing is by creation time, newest first, and each featured image is a photo of that event |
| MysqlEvents.NoFiltersListsAll | events.js:41 | with no filter every event is listed, each once |
| MysqlEvents.GetEventOutcome | events.js:77-89 | a 404 exactly when no event has the id; otherwise the reply is that event with exactly its photos |
| MysqlEvents.CreateEvent | events.js:97-132 | the new tables and the reply are `CreateEventStep` of the old tables |
| MysqlEvents.CreateEventStep | events.js:97-132 | `POST /` on the tables; stated by `MysqlEvents.CreateEventOutcome` and `MysqlEvents.CreateEventKeepsValid` |
| MysqlEvents.InsertEvent | events.js:117-127 | the INSERT of a validated event; stated by `MysqlEvents.CreateEventOutcome` |
| MysqlEvents.InsertEventRow | events.js:117-127 | the insert leaves the tables and the reply as `InsertEvent` of the old tables |
| MysqlEvents.CreateEventOutcome | events.js:98-127 | a failing validator is a 400; an omitted field or caller id is a 500; neither changes anything; otherwise a 201 and one row under the next id, owned by the caller, with a known event type and every field as its column stores it |
| MysqlEvents.CreateEventKeepsValid | events.js:117-122 | creating an event keeps the table invariants |
| MysqlEvents.EventsRewritten | events.js:143-148 | the update keeps the number of events |
| MysqlEvents.UpdateEvent | events.js:135-155 | the new tables and the reply are `UpdateEventStep` of the old tables |
| MysqlEvents.UpdateEventStep | events.js:135-155 | `PUT /:id` on the tables; stated by `MysqlEvents.UpdateEventOutcome` and `MysqlEvents.UpdateEventKeepsValid` |
| MysqlEvents.UpdateEventOutcome | events.js:137-150 | an omitted field is exactly the 500; otherwise the reply is the success whether or not the event exists; the rows with that id get the new title, event type, company name, contact number, location, budgets and description, and keep id, owner and creation time; nothing else changes |
| MysqlEvents.UpdateEventKeepsValid | events.js:143-148 | the update keeps the table invariants |
| MysqlEvents.DeleteEvent | events.js:158-167 | the new tables and the reply are `DeleteEventStep` of the old tables |
| MysqlEvents.DeleteEventStep | events.js:158-167 | `DELETE /:id` on the tables; stated by `MysqlEvents.DeleteEventOutcome`, `MysqlEvents.DeleteEventKeepsValid` and `MysqlEvents.DeletedEventNotFound` |
| MysqlEvents.DeleteEventOutcome | events.js:160-162 | the delete always reports success; the events left are exactly the others; no other table changes |
| MysqlEvents.DeleteEventKeepsValid | events.js:161 | the delete keeps the table invariants |
| MysqlEvents.DeletedEventNotFound | events.js:78-161 | after a delete, the detail of that id is a 404 |
| MysqlEvents.SavedFiles | events.js:15-17 | one saved file per upload, named by its clock reading and extension |
| MysqlEvents.NewPhotoRows | events.js:179-184 | one row per saved file, in order, under consecutive ids |
| MysqlEvents.NewPhotoRowsNext | events.js:179-184 | one more saved file appends one more row |
| MysqlEvents.InsertEventPhotosNext | events.js:179-184 | one more turn of the loop inserts the next file's row |
| MysqlEvents.InsertEventPhotosKeepsValid | events.js:179-184 | the photo inserts keep the table invariants |
| MysqlEvents.InsertPhotoRows | events.js:179-184 | the loop leaves the tables as `InsertEventPhotos` of the old tables |
| MysqlEvents.UploadEventPhotos | events.js:170-191 | the new tables and the reply are `UploadEventPhotosStep` of the old tables |
| MysqlEvents.UploadEventPhotosStep | events.js:170-191 | `POST /:id/photos` on the tables; stated by `MysqlEvents.UploadEventPhotosOutcome` and `MysqlEvents.UploadEventPhotosKeepsValid` |
| MysqlEvents.InsertEventPhotos | events.js:179-184 | the photo rows the upload loop inserts; stated by `MysqlEvents.InsertEventPhotosNext` and `MysqlEvents.InsertEventPhotosKeepsValid` |
| MysqlEvents.UploadEventPhotosOutcome | events.js:170-186 | multer's refusal is a 500 and no files is a 400, both with no change; otherwise the upload succeeds and the `k`-th file adds the row `/uploads/events/<time><ext>` with its original name, for the id the path names, whether or not that event exists |
| MysqlEvents.InsertedPhotoRows | events.js:179-184 | the rows an upload appends: one per file, in order, with fresh ids; nothing else changes |
| MysqlEvents.UploadEventPhotosKeepsValid | events.js:170-186 | the upload keeps the table invariants |
| MysqlEvents.SameMillisecondSameUrl | events.js:15-182 | two files with the same extension, stored in the same millisecond, get rows pointing at the same url |
| MysqlBooking.CreateRequest | booking.js:9-36 | the new tables and the reply are `CreateRequestStep` of the old tables, the corrected binding of the optional fields, behind `isInt()`'s test of sign and digits, leading zeros allowed |
| MysqlBooking.CreateRequestStepAsWritten | booking.js:9-36 | `POST /` as written, binding the optional fields as they come; stated by `MysqlBooking.OmittedPackageFailsAsWritten` |
| MysqlBooking.CreateRequestStep | booking.js:9-36 | `POST /` with an omitted optional field bound as NULL; stated by `MysqlBooking.CreateRequestOutcome`, `MysqlBooking.CreateRequestAgreesWhenComplete` and `MysqlBooking.LeadingZerosAccepted` |
| MysqlBooking.LeadingZerosAccepted | booking.js:10-26 | an event id written with leading zeros passes the validator and books the event with that value |
| MysqlBooking.IntToStringIsIntText | booking.js:10 | every integer sent as a JSON number passes `isInt()` |
| MysqlBooking.OmittedPackageFailsAsWritten | booking.js:11-26 | as written, a valid request without `package_id` fails with 500 and stores nothing |
| MysqlBooking.CreateRequestAgreesWhenComplete | booking.js:21-26 | when both optional fields are given, the corrected handler behaves exactly as written |
| MysqlBooking.CreateRequestOutcome | booking.js:9-31 | a failing validator (event id and package id as optionally signed digits, leading zeros allowed) is a 400 with no change; then a 500 "Failed to create booking request" with no change exactly when the caller id or the date is missing; otherwise a 201 and exactly one Pending row for the caller and the event, with the package, date and message as their columns store them, an omitted package or message as NULL |
| MysqlBooking.CreateRequestKeepsValid | booking.js:23-26 | creating a request keeps the table invariants |
| MysqlBooking.EventOfRequest | booking.js:44 | the join finds an event with the request's `event_id`, and none exactly when there is none |
| MysqlBooking.AccountOfRequest | booking.js:63 | the join finds a user with the request's `user_id`, and none exactly when there is none |
| MysqlBooking.UserBookings | booking.js:39-55 | `GET /`: the caller's requests joined with their events; stated by `MysqlBooking.UserBookingsSound`, `MysqlBooking.UserBookingsComplete` and `MysqlBooking.UserBookingsNeedCaller` |
| MysqlBooking.AdminBookings | booking.js:58-74 | `GET /admin`: every request joined with its user and event; stated by `MysqlBooking.AdminBookingsSound` and `MysqlBooking.AdminBookingsComplete` |
| MysqlBooking.UserBookingsSound | booking.js:41-48 | the user listing holds only the caller's stored requests, each joined with the event it names, newest first |
| MysqlBooking.UserRowSound | booking.js:42-46 | a joined row carries its own request, which is the caller's, and the title and company of an event it names |
| MysqlBooking.UserBookingsComplete | booking.js:43-46 | every request of the caller whose event exists is listed |
| MysqlBooking.UserRowOfRequest | booking.js:44-46 | a request of the caller whose event exists yields a joined row |
| MysqlBooking.UserBookingsNeedCaller | booking.js:46-53 | without a caller id the listing fails with 500 |
| MysqlBooking.CreatedRequestListed | booking.js:23-48 | a request just made on an existing event shows in its maker's listing |
| MysqlBooking.AdminBookingsSound | booking.js:60-67 | every admin row is a stored request joined with an existing user (name, mobile) and event (title), newest first |
| MysqlBooking.AdminBookingsComplete | booking.js:62-65 | every request whose user and event exist is listed |
| MysqlBooking.RequestsWithStatus | booking.js:89 | the status update keeps the number of requests |
| MysqlBooking.UpdateStatus | booking.js:77-96 | the new tables and the reply are `UpdateStatusStep` of the old tables |
| MysqlBooking.UpdateStatusStep | booking.js:77-96 | `PUT /:id` on the tables; stated by `MysqlBooking.UpdateStatusOutcome` and `MysqlBooking.UpdateStatusKeepsValid` |
| MysqlBooking.UpdateStatusOutcome | booking.js:78-91 | a status outside Pending, Confirmed, Rejected and Cancelled is exactly the 400 without change; otherwise the reply is the success whether or not the request exists, and only the status of the request with that id changes |
| MysqlBooking.AnyStatusReachable | booking.js:78-89 | any of the four statuses can be set on any stored request, whatever its current one |
| MysqlBooking.UpdateStatusKeepsValid | booking.js:89 | the status update keeps the table invariants |

## Left out

- Concurrency. The model is sequential, so races between requests do not
  arise. These include last-write-wins status updates and the
  non-atomic attempt counter.
- Disk I/O of the uploads. Files are not written, so files left on disk
  after a failed request are not modelled. Static serving is also left out.
  A file is its original name, mime type and size.
- `path.join` normalisation of the upload directory. The stored path is
  the directory, `/` and the stored name.
- JSON parsing and Express routing. Booleans, arrays, objects and
  non-integral numbers in request bodies are not modelled. A field is
  `Undefined`, `Null`, a text or an integer.
- JavaScript number precision. Integers are unbounded, so `Date.now()` and
  ids never lose precision.
- The token lifetime. `jwt.verify` is a parameter, so expiry of a two-hour
  or 24-hour token is up to that parameter. Only the lifetime passed to
  `sign` is stated.
- The SMS delivery of the MySQL variant (`sendOTP`, which only logs). The
  code is returned from `MysqlAuth.SendOtp` instead.
- The MySQL `generateOTP`: floating-point arithmetic on `Math.random`,
  modelled as a choice of an integer in [100000, 999999].
- The MySQL `authenticateToken` / `requireAdmin` middleware is not part of
  this model. Its source file is not available. The MySQL handlers take the
  caller id it leaves as a parameter. The case of an undefined caller id
  matters: the token is signed with `{ userId, role }` (auth.js:87-91), while
  every authenticated handler reads `req.user.user_id` (auth.js:114 and 140,
  events.js:121, booking.js:25 and 48). Unless that middleware renames the
  field, every such route answers 500, which is what
  `MysqlBooking.UserBookingsNeedCaller`, `MysqlAuth.UpdateProfileOutcome`,
  `MysqlEvents.CreateEventOutcome` and `MysqlBooking.CreateRequestOutcome`
  state for an undefined caller id.
- The MySQL schema is not part of this model. Column defaults are taken
  as `is_verified` FALSE, `role` 'User' and status 'Pending'. Foreign-key
  effects, such as cascades on delete, are not modelled.
- The `updated_at` column of the MySQL tables is not modelled.
- The packages of the MySQL variant are left out: `packages.js`, the
  packages of `GET /:id` and the `LEFT JOIN packages` columns of the
  booking listings. A booking's `package_id` is stored as given.
- `users.js`, `server/src/routes/bookings.js`, `server/server.js` and the
  client files are not part of this model.
- SQL details:
  - `LIKE` wildcards (`%`, `_`) inside the search text;
  - non-ASCII case folding and accent-insensitive MySQL collations;
  - PAD SPACE comparison;
  - MySQL strict mode.
  Text comparison folds ASCII letters only.
- Ties in `ORDER BY created_at DESC`. The model breaks them by a fixed
  stable order that the database does not promise.
- `MysqlEvents.FeaturedImage`: the subquery has `LIMIT 1` without
  `ORDER BY`, which MySQL may answer with any photo of the event. The model
  takes the first in table order.
- `MysqlEvents.CreateInputMessage`: express-validator reports every failing
  field. The model keeps only the first message the reply would show,
  "Title is required" or "Invalid value", and not the full `errors` array.
  The same holds for the other 400 replies of the MySQL variant.
- UTF-16 strings. A Dafny `char` is a Unicode scalar value, so text with a
  lone surrogate cannot be represented, and a character outside the Basic
  Multilingual Plane is one `char` where JavaScript holds two code units.
  The `isLength` checks count such a character once, as `|s|` does.
- SafeName: a character outside the Basic Multilingual Plane becomes one
  `_`, where the source's regular expression, which works on code units,
  writes two.
- SQLite storage classes. better-sqlite3 binds a JavaScript number as a
  REAL, so a number sent for a TEXT column (`mobile`, `title`, `notes`) is
  stored there as text such as "5551234.0". The model stores the number's
  decimal text (`ToJsString`).
- DeleteEventStep, DeleteEventOutcome, DeletedEventBookingsHidden: the
  SQLite schema declares foreign keys from `event_photos` and `bookings` to
  `events` (server/src/db.js:62 and 73-74), and better-sqlite3 enables
  their enforcement by default, so deleting an event that still has photos
  or bookings may fail with "FOREIGN KEY constraint failed" and delete
  nothing. The model does not enforce the SQLite foreign keys (here, nor on
  the booking, event and profile inserts): a delete always removes the
  event, and its photos and bookings stay behind.
- IntegerCell: SQLite's INTEGER affinity also turns text in real form with
  an integral value ("5.0", "3.0e+5") into an integer; the model keeps such
  text as text and converts only text in integer form.
- IntColumn: MySQL reads text meeting an INT column by its numeric value.
  It rounds "1.5" to 2 when storing it, and compares it as the double 1.5,
  which matches no row. The model takes the leading integer for both
  ("1.5" reads as 1), so `PUT /1.5` on the booking router changes request 1
  in the model only.
- PageLimitBounds: the range [1, 50] is proved for the corrected page size
  `PageLimit`. The source's size `PageLimitAsWritten` equals it whenever it
  is positive (`SqliteEvents.AsWrittenAgreesOnPositiveSizes`), is never 0,
  and stays negative for a negative parameter, which is the first finding.
- ListNewestFirstAndBounded: the bound of 50 is proved for the corrected
  listing and for the source's listing with a positive page size only; with
  a negative one the source lists every match (first finding). The order
  holds for both.
- PageIsBlock: the block shape is proved for the corrected listing and for
  the source's listing with a positive page size; with a negative one the
  source's page is every match from the offset on.
- `SqliteEvents.ListEvents`, `SqliteEvents.ListRows` and
  `SqliteEvents.PageLimit` are the corrected listing; the source's listing
  is `SqliteEvents.ListRowsAsWritten`, which agrees with it on every
  positive page size.
- Express's error-handler body for a multer failure is left out. Only the
  status (500) and the message are modelled.
- `SqliteAuth.MeOf` (`GET /me`) has no contract of its own. It is used by
  `SqliteAuth.NewUserSeesEmptyProfile`.
- `MysqlAuth.GetProfile` (`GET /profile`) is stated for integer caller ids
  only (`MysqlAuth.GetProfileOwn`). Text ids go through the same
  `IntColumn` reading.

## Findings

| source | as written | input that shows it | evidently intended | confidence | as-written member | corrected member |
|---|---|---|---|---|---|---|
| server/src/routes/events.js:9-10 | `Math.min(parseInt(pageSize, 10) \|\| 20, 50)` lets a negative page size through, and SQLite reads a negative `LIMIT` as no limit | `GET /events?pageSize=-1` on a table with more than 50 events lists every event | at most 50 events per page | not executed | SqliteEvents.NegativePageSizeListsEverything | SqliteEvents.ClampedListAtMostFifty |
| booking.js:11-26 | `package_id` and `message` are optional for the validator but bound as they come, and mysql2 refuses an undefined parameter | `POST /api/bookings` with body `{ "event_id": 1, "booking_date": "2025-01-01", "message": "" }` answers 500 and stores nothing | an omitted optional field is stored as NULL | not executed | MysqlBooking.OmittedPackageFailsAsWritten | MysqlBooking.CreateRequestOutcome |
