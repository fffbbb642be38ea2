# Booking engine of the appointment backend, in Dafny

This project models the booking engine of the appointment-booking backend:
the slot generator and the reservation step of the scheduler service, the
appointment lifecycle (status update, reschedule, listing and paging), the
business configuration service, the hourly reminder job, the CSV export
and missing-date guard of the appointment controller, the Joi request
rules, and the account and refresh-token logic of the auth service.

The Mongo collections become immutable sequences threaded through pure
functions (`Store = seq<Appointment>`, `Users`, `Tokens`). Every operation
returns a `Result`, whose failure is one of three kinds:
- an `AppError(message, status)`;
- an exception the runtime would throw (`Thrown(message)`);
- `Diverges`, for the slot loop that never ends when the step is not
  positive.

Clocks, random bytes and password hashing are parameters. So are the
weekday of the requested date, whether it is today, and the current minute.

Modules, one per source concern:

| module | file |
|---|---|
| `Wrappers` | `Option`, `Result`, `Failure` |
| `Text` | decimal rendering, `Number(str)` on digit strings, `split` and `join` with their round trip, string comparison |
| `TimeOfDay` | `timeToMinutes` / `minutesToTime` |
| `AppointmentModel`, `BusinessModel`, `StaffModel` | the three Mongoose schemas |
| `Accounts` | the user collection as the services read it |
| `Scheduler`, `SchedulerFacts` | `generateSlots`, `attemptLockSlot` and their properties |
| `AppointmentQueries` | `getAllAppointments`, `getUserAppointments` |
| `AppointmentService`, `AppointmentServiceFacts` | `updateAppointmentStatus`, `rescheduleAppointment` and their properties |
| `BusinessService` | `getSettings`, `updateSettings` |
| `Reminders` | the reminder job |
| `Validation`, `ValidationFacts` | the request schemas and `validate` |
| `Auth`, `AuthFacts` | `register`, `login`, `refresh`, `revokeToken`, `updateProfile`, `changePassword` |
| `AppointmentController` | `getSlots` and `exportAppointments` |

The quirks of the code are modelled as written and stated as lemmas:
- staff overrides read a field the staff schema does not have;
- the grid and the reservation disagree on which statuses block a slot;
- the status-transition table is computed but not enforced;
- "Approved" passes the request validator but is not a status;
- CSV name, email and staff fields are wrapped in double quotes, but a double quote inside them is not doubled, and the unquoted fields are written as they are.

## Model

| member | source | states |
|---|---|---|
| TimeOfDay.MinutesRoundTrip | backend/src/services/schedulerService.js:7-17 | Parsing the rendering of any minute count gives that count back. |
| TimeOfDay.MinutesToTimeShape | backend/src/services/schedulerService.js:13-17 | Below 1440, the rendering is five characters: two digits, ':', two digits, with hours below 24 and minutes below 60. |
| TimeOfDay.ClockTimeRoundTrip | backend/src/services/schedulerService.js:7-17 | Every canonical "HH:MM" parses to a minute count below 1440 that renders back to the same string. |
| TimeOfDay.ParseClock | backend/src/services/schedulerService.js:7-10 | A canonical "HH:MM" parses to hours * 60 + minutes, read digit by digit. |
| AppointmentModel.ParseStatus | backend/src/models/Appointment.js:28-32 | A name the enum accepts spells exactly the status it denotes. |
| AppointmentModel.StatusNameRoundTrip | backend/src/models/Appointment.js:28-32 | Each of the seven statuses is accepted under its own name. |
| AppointmentModel.Create | backend/src/models/Appointment.js:3-56 | A record is created iff date and timeSlot are non-empty. It is Pending, not reminded, has no email logs, and carries exactly the given user, staff, date, time, duration and audit log. |
| AppointmentModel.NewEmailLog | backend/src/models/Appointment.js:39-44 | A new email-log entry has status "Sent" and the given kind, recipient and time. |
| AppointmentModel.Find | backend/src/services/appointmentService.js:52 | `findById` gives a position holding the id, and nothing iff no record has it. |
| BusinessModel.NewOpeningHours | backend/src/models/Business.js:21-30 | Each absent field of an opening-hours entry defaults: 09:00, 17:00, open. Supplied fields are kept. |
| BusinessModel.Create | backend/src/models/Business.js:3-35 | Creation fails iff the name is the empty string. Absent fields default to "My Business", "UTC", 30, 5 and empty lists. |
| BusinessModel.Assign | backend/src/services/businessService.js:16-18 | `Object.assign` then save: every supplied field is overwritten and every other field is kept. Fails iff the name becomes empty. |
| BusinessModel.FirstForDay | backend/src/services/schedulerService.js:32 | `find` yields an entry for the weekday that no earlier entry matches, and nothing iff no entry has that day. |
| BusinessModel.FirstForDayAt | backend/src/services/schedulerService.js:32 | The first entry with the weekday is the one found. |
| StaffModel.NewAvailability | backend/src/models/Staff.js:12-24 | An availability entry is available unless explicitly marked false. Its start and end are free and optional. |
| StaffModel.NewStaff | backend/src/models/Staff.js:3-29 | A new staff profile is active. |
| StaffModel.ProfileOf | backend/src/models/Staff.js:4-9 | With the user reference unique, there is at most one profile per user, and it is the one found. |
| StaffModel.FindStaff | backend/src/services/schedulerService.js:35 | `findById` on staff finds a profile with that id, and nothing iff none has it. |
| StaffModel.AvailabilityFor | backend/src/services/schedulerService.js:37 | The staff's entry for the weekday, or nothing iff the staff has none for it. |
| Scheduler.StaffOverride | backend/src/services/schedulerService.js:34-43 | A staff entry replaces the business hours iff a staff id is given, the staff exists, has a non-empty availability list and has an entry for the weekday. |
| Scheduler.ResolveWindow | backend/src/services/schedulerService.js:32-43 | The window is the staff override when there is one. Otherwise it is the first business entry for the weekday (no earlier entry has that day), and there is no window iff no entry has that weekday. |
| Scheduler.OpenBounds | backend/src/services/schedulerService.js:45-48 | Bounds exist only for an open business entry whose two times parse, and are those minute counts. A missing window, a staff window, a closed entry or an unparsable time gives none. |
| Scheduler.Grid | backend/src/services/schedulerService.js:74 | The slot starts are start + i * step, each ending by `end`, and the next start would not. |
| Scheduler.SlotsFor | backend/src/services/schedulerService.js:67-98 | With a positive step there is one slot per grid point, in order. Each is rendered "HH:MM" and is Past (today and t <= now) before Booked (a blocking record with that exact time string), else available. The loop diverges iff a first slot fits and the step is not positive. |
| Scheduler.GenerateSlots | backend/src/services/schedulerService.js:19-99 | No config throws "Business settings not configured". A holiday, or no open bounds, gives no slots. Otherwise the result is the slots of the open bounds with the configured duration and buffer. |
| Scheduler.Reserve | backend/src/services/schedulerService.js:101-147 | Fails with "Slot already reserved." when a Pending or Confirmed record has the same date, time and (when a staff id is given) staff. It succeeds iff there is no such record and date and time are non-empty. On success it appends exactly one Pending, 30-minute record with a fresh id and one "Created" audit entry. |
| SchedulerFacts.GridExactly | backend/src/services/schedulerService.js:74 | A time is emitted iff it is start + k * step for some k >= 0 and its slot ends by `end`. |
| SchedulerFacts.GridAscending | backend/src/services/schedulerService.js:74 | Emitted times are strictly ascending. |
| SchedulerFacts.GridCount | backend/src/services/schedulerService.js:74 | The grid has n points exactly when the n-th slot fits and the (n+1)-th does not. |
| SchedulerFacts.FreeDaySlot | backend/src/services/schedulerService.js:74-95 | With no bookings and a date that is not today, every emitted slot is available. |
| SchedulerFacts.ReservePreservesNoDoubleBooking | backend/src/services/schedulerService.js:109-140 | A successful reservation keeps "no two Pending/Confirmed records share date, time and staff". |
| SchedulerFacts.ReserveTwiceFails | backend/src/services/schedulerService.js:109-120 | Repeating the same reservation, by any user, fails with "Slot already reserved.". |
| SchedulerFacts.ReservedSlotShowsBooked | backend/src/services/schedulerService.js:85-95 | After reserving a time, the generator marks that slot Booked, or Past if it has passed. |
| SchedulerFacts.AvailableMeansReservable | backend/src/services/schedulerService.js:109-120 | A slot the generator shows as available can be reserved. |
| SchedulerFacts.BookedYetReservable | backend/src/services/schedulerService.js:53 | A slot held only by a Rejected, Rescheduled, NoShow or Completed record shows Booked, yet a reservation for it succeeds. |
| SchedulerFacts.NoStaffIdBlocksEveryone | backend/src/services/schedulerService.js:54 | Without a staff id, a live booking with any staff marks the slot Booked and makes a reservation fail. |
| SchedulerFacts.StaffOverrideClosesDay | backend/src/services/schedulerService.js:36-45 | Any day a staff member overrides yields no slots, whatever the override says. |
| SchedulerFacts.SeedMonday | backend/seed.js:36-46 | Seed Monday 09:00-17:00, 30-minute slots, no buffer: 16 available slots from 09:00 to 16:30. |
| SchedulerFacts.SeedSaturday | backend/seed.js:42-46 | Seed Saturday 10:00-14:00: eight slots. |
| SchedulerFacts.SeedSunday | backend/seed.js:43 | Seed Sunday is closed: no slots. |
| AppointmentQueries.SortBy | backend/src/services/appointmentService.js:37 | The result is sorted on (date, timeSlot) in the requested direction and is a permutation of the input. |
| AppointmentQueries.Filter | backend/src/services/appointmentService.js:18-33 | A record is kept iff it is in the store and matches: status and date when given non-empty, and user among the searched users when given. Each matching record occurs as often as in the store, and no other record occurs. |
| AppointmentQueries.PageCount | backend/src/services/appointmentService.js:47 | `pages` is the ceiling of total / limit: the pages before the last do not cover the total, and all of them do. |
| AppointmentQueries.Window | backend/src/services/appointmentService.js:38-39 | `skip` then `limit`: at most `limit` items, and item i is the record at position skip + i. |
| AppointmentQueries.GetAllAppointments | backend/src/services/appointmentService.js:14-48 | `total` counts the matches and `page` echoes the request. The items are at most `limit` matching records, sorted newest first. They are the window at (page - 1) * limit of all matches sorted that way, and `pages` is the ceiling of total / limit. |
| AppointmentQueries.PageHolds | backend/src/services/appointmentService.js:16 | Item i of page p is the sorted match at position (p - 1) * limit + i, for every such position. |
| AppointmentQueries.PageNumberIrrelevant | backend/src/services/appointmentService.js:18-33 | The page number does not change which records match. |
| AppointmentQueries.GetUserAppointments | backend/src/services/appointmentService.js:9-11 | Exactly the user's records, each as often as in the store, oldest first by (date, timeSlot). |
| AppointmentService.UpdateStatus | backend/src/services/appointmentService.js:51-80 | An unknown id is a 404. A NoShow or Rejected record makes the table lookup throw. Otherwise the update succeeds iff the name is a status. On success the status is the new one, exactly one "Status changed to X" / "Admin update" entry is appended, and nothing else changes. |
| AppointmentService.Reschedule | backend/src/services/appointmentService.js:82-107 | Checks in order: 404 not found, 403 not the owner, 400 finalized (Cancelled, Completed, Rejected). Then it fails exactly as the new reservation with the original's staff fails. On success the store grows by the new Pending record, and the original becomes Rescheduled with "Rescheduled to D at T" appended and nothing else changed. |
| AppointmentServiceFacts.AnyTargetAccepted | backend/src/services/appointmentService.js:55-71 | From any status the table knows, every target status is accepted and applied. |
| AppointmentServiceFacts.ConfirmedBackToPending | backend/src/services/appointmentService.js:56-69 | Pending is not a listed successor of Confirmed, yet the update to Pending succeeds. |
| AppointmentServiceFacts.UpdateStatusPreservesNoDoubleBooking | backend/src/services/appointmentService.js:71-78 | A status update that does not newly make the record Pending or Confirmed keeps the no-double-booking invariant. |
| AppointmentServiceFacts.ReopeningCanDoubleBook | backend/src/services/appointmentService.js:64-78 | A concrete store where reopening a Cancelled record to Pending double-books a slot. |
| AppointmentServiceFacts.ReschedulePreservesNoDoubleBooking | backend/src/services/appointmentService.js:94-104 | A successful reschedule keeps the no-double-booking invariant. |
| AppointmentServiceFacts.RescheduleInPlaceFails | backend/src/services/appointmentService.js:95 | Rescheduling a live appointment to its own date and time always conflicts with itself. |
| AppointmentServiceFacts.RescheduleKeepsUniqueIds | backend/src/services/appointmentService.js:95 | The record a reschedule adds has an id no other record has. |
| AppointmentServiceFacts.RescheduleAgain | backend/src/services/appointmentService.js:90-95 | Rescheduled is not final, so the same original can be rescheduled again, and that succeeds iff the new slot is free and non-empty. |
| BusinessService.GetSettings | backend/src/services/businessService.js:3-10 | A stored config is returned unchanged. Without one, a config named "Default Business" with schema defaults and no hours or holidays is created. |
| BusinessService.UpdateSettings | backend/src/services/businessService.js:12-21 | Succeeds iff the name is not set to "". Without a config, the supplied fields overwrite the schema defaults. With one, they overwrite that config and nothing else changes. |
| BusinessService.GetSettingsIdempotent | backend/src/services/businessService.js:3-10 | Asking again after the first call returns the same config. |
| BusinessService.UpdateNothingKeeps | backend/src/services/businessService.js:16-18 | Updating with no fields leaves the config as it was. |
| BusinessService.UpdateThenGet | backend/src/services/businessService.js:12-21 | Reading after an update returns the updated config. |
| BusinessService.NoHoursNoSlots | backend/src/services/schedulerService.js:32-45 | A config without opening hours gives no slots for any day, staff or date. |
| BusinessService.DefaultConfigClosed | backend/src/services/businessService.js:7 | The default config gives no slots for any date. |
| Reminders.AfterRun | backend/src/services/cronService.js:34-46 | A selected appointment whose user has an email gets the flag set and exactly one (Reminder, email, "Sent") log entry, and nothing else changes. Any other appointment is unchanged. |
| Reminders.RunReminderJob | backend/src/services/cronService.js:25-49 | One run treats every appointment as above and keeps the store's order and length. |
| Reminders.RunIdempotent | backend/src/services/cronService.js:28-39 | A second run with the same date changes nothing. |
| Reminders.OnlySelectedChange | backend/src/services/cronService.js:25-35 | Only Confirmed, not yet reminded appointments for tomorrow, with a user email, ever change. |
| Reminders.DeliveryIgnored | backend/src/services/cronService.js:36-44 | The outcome does not depend on whether the email was delivered. |
| Reminders.StillSelected | backend/src/services/cronService.js:25-46 | After a run, an appointment is still selected iff it was selected and its user has no email. |
| Reminders.RunPreservesNoDoubleBooking | backend/src/services/cronService.js:39-46 | A run keeps the no-double-booking invariant. |
| Accounts.FindByEmail | backend/src/services/authService.js:30 | `findOne({ email })` finds a user with that email, and nothing iff none has it. |
| Accounts.FindUser | backend/src/services/authService.js:111 | `findById` finds a user with that id, and nothing iff none has it. |
| Accounts.NameOf | backend/src/controllers/appointmentController.js:73 | The populated user's name, and nothing iff the user is missing. |
| Accounts.EmailOf | backend/src/controllers/appointmentController.js:73 | The populated user's email, and nothing iff the user is missing. |
| Auth.Issue | backend/src/services/authService.js:14-25 | A new unrevoked token for the user is appended, expiring seven days after issue. |
| Auth.FindToken | backend/src/services/authService.js:83 | `findOne({ token })` yields the first token with that string, and nothing iff none has it. |
| Auth.Register | backend/src/services/authService.js:27-56 | Fails with 400 "User already exists" iff the email is taken, and succeeds iff the email is free. Then it appends one user with a fresh id and the role given, or "user" when none is given, and issues one token. |
| Auth.Login | backend/src/services/authService.js:58-78 | Succeeds iff the email is known and the password matches, issuing one token. Otherwise 401 "Invalid email or password". |
| Auth.Refresh | backend/src/services/authService.js:80-100 | A missing token is a 400. An unknown, revoked or expired token is a 403. A token of a missing user is a 404. It succeeds iff the token is usable and its user exists. On success the presented token is revoked, one new token is appended and nothing else changes. |
| Auth.RevokeToken | backend/src/services/authService.js:102-104 | The first token with the string is revoked, and nothing else changes. |
| Auth.UpdateProfile | backend/src/services/authService.js:110-136 | An unknown user is a 404. It fails with 400 "Email already in use" iff a new, different email is taken. Empty or absent values keep the old ones, and only that user changes. |
| Auth.ChangePassword | backend/src/services/authService.js:138-153 | An unknown user is a 404, a wrong password a 401. On success only that user's hash changes and every token of that user is revoked. |
| Auth.RevokeAll | backend/src/services/authService.js:150 | Exactly the user's tokens are revoked. |
| AuthFacts.RefreshTwiceFails | backend/src/services/authService.js:85-94 | A token that refreshed once can never refresh again. |
| AuthFacts.RefreshedTokenUsable | backend/src/services/authService.js:92-99 | The token a refresh issues is usable until seven days pass. |
| AuthFacts.RevokeThenRefreshFails | backend/src/services/authService.js:83-104 | A revoked token cannot refresh. |
| AuthFacts.ChangePasswordEndsSessions | backend/src/services/authService.js:150 | After a password change, none of the user's earlier tokens can refresh. |
| AuthFacts.RegisterPreservesUniqueEmails | backend/src/services/authService.js:30-43 | Registration keeps emails unique. |
| AuthFacts.RegisterTwiceFails | backend/src/services/authService.js:30-33 | Registering the same email twice fails the second time with "User already exists". |
| AuthFacts.UpdateProfilePreservesUniqueEmails | backend/src/services/authService.js:117-125 | Profile updates keep emails unique. |
| Validation.KeyErrors | backend/src/middleware/validationMiddleware.js:13-39 | One key passes iff one of these holds: it is absent and optional; it is in the allow-list; or it is non-empty, long enough, a valid email when required and of date shape when required. Outside an allow-list the first message is "must be one of [...]", and an empty value adds "is not allowed to be empty" after it. Under other rules an empty value gets only "is not allowed to be empty". |
| Validation.Errors | backend/src/middleware/validationMiddleware.js:5 | No messages iff every key's rules pass. |
| Validation.Validate | backend/src/middleware/validationMiddleware.js:4-11 | The body passes unchanged iff every rule passes. Otherwise one 400 error carries all messages joined by ", ". |
| ValidationFacts.DatePatternPositions | backend/src/middleware/validationMiddleware.js:25 | A date matches the pattern iff it has ten characters, '-' at positions 4 and 7 and digits elsewhere. |
| ValidationFacts.ImpossibleDateAccepted | backend/src/middleware/validationMiddleware.js:24-27 | "2024-13-45" is accepted as a booking date whenever a time slot is given. |
| ValidationFacts.ApprovedPassesButNeverApplies | backend/src/middleware/validationMiddleware.js:28-30 | "Approved" passes the status-update rule, but the update it leads to always fails. |
| ValidationFacts.AdminSelfRegistration | backend/src/middleware/validationMiddleware.js:14-19 | A registration asking for the admin role passes validation. |
| ValidationFacts.EmptyRegistrationMessages | backend/src/middleware/validationMiddleware.js:13-19 | An empty registration reports name, email and password as required, in that order. |
| ValidationFacts.EmptyStatusMessages | backend/src/middleware/validationMiddleware.js:28-30 | An empty status gets two messages in this order: the allow-list message, then the emptiness message. |
| ValidationFacts.ShortNewPassword | backend/src/middleware/validationMiddleware.js:35-38 | A new password shorter than six characters gets exactly the minimum-length message. |
| AppointmentController.GetSlots | backend/src/controllers/appointmentController.js:8-18 | A missing or empty date is a 400 "Date is required", and only then. Otherwise the result is the generator's. |
| AppointmentController.CsvLines | backend/src/controllers/appointmentController.js:71-75 | The header line, then one row per appointment in listing order. |
| AppointmentController.ExportCsv | backend/src/controllers/appointmentController.js:65-80 | The file starts with the header line. When no record matches the filters, it is the header alone. |
| AppointmentController.HeaderAvoids | backend/src/controllers/appointmentController.js:71 | The header holds no newline or other non-letter, non-comma character. |
| AppointmentController.ExportLines | backend/src/controllers/appointmentController.js:68-75 | When no name, email, date or time holds a newline, the file splits into the header and one row per listed appointment. Listing uses the request's filters and page with limit 10000. |
| AppointmentController.RowFieldsRecovered | backend/src/controllers/appointmentController.js:73 | Without commas in the texts, a row splits back into its eight fields. |
| AppointmentController.CommaInNameShiftsColumns | backend/src/controllers/appointmentController.js:73 | Split on every comma, ignoring quotes, a row whose user name holds one comma gives nine pieces: the quoted name is cut in two and every later column moves one to the right. A quote-aware CSV reader keeps the quoted name whole. |
| AppointmentController.QuoteInNameNotEscaped | backend/src/controllers/appointmentController.js:73 | The name column is the name between two double quotes, with inner quotes not doubled. A name holding one double quote therefore gives content that is not valid quoted-field content under section 2 of RFC 4180. |
| AppointmentController.LoneQuoteNotEscaped | backend/src/controllers/appointmentController.js:73 | Text holding exactly one double quote is never correctly escaped quoted-field content under section 2 of RFC 4180. |

## Left out

- Mongo sessions, transactions and concurrency: a reservation is one atomic step. The two writes of a reschedule are not modelled as able to fail between them.
- JavaScript `Date`: the weekday of the requested date, whether it is today, the current minute, tomorrow's date string and every timestamp are inputs.
- Scheduler.GenerateSlots: a holiday matches by string equality of the stored holiday date and the requested date. The source compares `toDateString()` of both parsed dates.
- bcrypt, JWT and `crypto.randomBytes`: the stored hash, the password comparison's answer (`matches`) and the new token string are parameters. Access tokens are not modelled.
- Auth.Login: only its pass/fail outcome and the token it issues are modelled.
- Auth.Refresh: the presented token is modelled as a string, or as absent. The refresh route has no body validator, so the source passes any JSON value on to `RefreshToken.findOne({ token })`. An object holding a query operator, such as `{"$ne": null}`, matches the first stored token of any user. That behaviour is not modelled.
- Auth.RevokeToken: `findOneAndUpdate` updates the first token with the string. With no such token the store is unchanged, as modelled. The token is modelled as a string. The revoke route has no validator either, and the source's behaviour for an object value is not modelled: an operator object revokes the first stored token of any user.
- AppointmentQueries.GetAllAppointments: requires page and limit of at least 1. The source's behaviour for page 0 (a negative skip, which Mongo rejects) and limit 0 (no limit) is not modelled.
- AppointmentController.ExportCsv: requires a page of at least 1, for the same reason.
- AppointmentQueries.Filter: the `search` name regex is an input, the set of user ids it resolved to. Regex matching is not modelled.
- The `locked` / `lockedUntil` fields and the `'locked'` literal of the reservation query: not valid statuses and never written.
- `createAppointment`: it only forwards to the reservation step, which is modelled.
- Joi internals: the email syntax check is the `isEmail` input. Unknown keys are not modelled, and the values of validated bodies are strings only.
- Mongoose re-validation on save of fields other than `status`: the model assumes stored records are valid.
- Ids: Mongo ObjectIds are natural numbers, a new id is one more than the largest in use, and the CSV renders an id in decimal.
- Durations and buffers: `slotDuration`, `bufferTime` and an appointment's `duration` are whole minutes (`int`). The schema types them as `Number`, and a fraction such as a 22.5-minute slot makes the source render times like "09:22.5". Fractional minutes are not modelled.
- AppointmentQueries.SortBy: records with equal (date, timeSlot) come out in one fixed order, the insertion sort's. Mongo leaves the order of such ties unspecified, so the model promises only sortedness and the permutation, which hold for any tie order.
- `Number(str)` in `timeToMinutes`: only strings of decimal digits are numbers (the empty string counts as 0). Signs, spaces, fractions and exponents are read as `NaN`.
- Email delivery, templates and the cron schedule itself are I/O. The reminder job's `delivered` parameter records which sends succeeded, and the job ignores it.
- The notification emails sent by the controllers after a booking, reschedule or status change are I/O.
- adminService, userService, staffService and the other controllers are reporting or thin CRUD over the same collections.
- Routes, the server, security middleware and the frontend are wiring and UI.
