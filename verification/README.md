# Vehicle rental booking: availability, pricing and store updates

This project is a Dafny model of the core of a small vehicle-rental web application. Users search for vehicles, book one over an inclusive range of calendar days, and cancel their own bookings. Administrators delete vehicles, override booking statuses and view per-status counts. The model covers:

- **Pricing** (`Utils.BookingPrice`): the day count includes both end points; the rate is multiplied by the day count and then discounted.
- **Date-based availability** (`Utils.IsVehicleAvailable`): a vehicle is free when it has no pending or confirmed booking matching the three-case overlap test the query writes out.
- **Administrator bootstrap** (`App.Store.InitializeAdmin`, specified by `Utils.WithAdmin`): an "insert if absent" on the user table.
- **Form validators** (`Forms`): the registration, vehicle, booking, search and booking-status forms. Each is a record of submitted fields with a validity predicate.
- **Search** (`Routes.SearchVehicles`): the filter composition of the vehicle list page.
- **Status counts** (`Routes.AdminStatusReport`): the per-status counts on the reports page.
- **Handlers that change the store** (`App.Store`): booking, cancelling, deleting a vehicle, and the administrator's status override. Each is a method on a class holding the user, vehicle and booking tables as sequences, plus the next-id counters.

Dates are integer day numbers and money is `real`. The store's tables are sequences in table order. Every handler first runs its guards (not found, not permitted, invalid form, unavailable). A refused request changes nothing; an accepted one makes exactly its one change. Each method's postcondition states this.

The handlers' postconditions are strong enough to follow a session step by step. In `App.RebookAfterCancellation` and `App.CancelThenRebook`, a seven-day booking at a rate of 100 costs 630. A second user has searched an overlapping range and submits a booking form without dates. The searched range is used and the request is refused. After the owner cancels, the same request goes through at 600. These two methods use only the handlers' contracts.

Modules, leaf first: `Wrappers` (Option), `Models` (entities and the user table's uniqueness constraints), `Utils` (utils.py), `Forms` (forms.py), `Routes` (the pure parts of routes.py), and `App` (the store and its handlers).

## Where the code does not do what its comments and validators suggest

The model follows the code.

- **Month discount.** The comment at utils.py:20 promises 20% off for bookings of a month or more. The test `days >= 7` (utils.py:16) comes first, so the `days >= 30` branch (utils.py:19-21) is dead. Every booking of 7 days or more pays 90% (`Utils.Tier`, `Utils.MonthDiscountNeverApplied`). At a rate of 100, a 30-day booking costs 2700, not 2400 (`Utils.PriceExamples`).
- **Zero daily rate.** The daily-rate field's `NumberRange(min=0)` (forms.py:45) admits 0. Its `DataRequired()` runs first and rejects a zero number, so an accepted vehicle form has a strictly positive rate (`Forms.VehicleFormRatePositive`).
- **Zero price ceiling.** The search form's `NumberRange(min=0)` (forms.py:74) accepts a ceiling of 0. The handler applies the ceiling only when the submitted value is truthy (routes.py:88), so a ceiling of 0 filters nothing (`Routes.ZeroMaxPriceIgnored`).
- **Search dates replace booking dates.** The booking handler copies the session's searched range over the form's dates on every request, after the form is read and before it is validated (routes.py:139-144). After a search with both dates, the dates a user types into the booking form are ignored when they parse; a date that fails to parse still rejects the form (`Routes.SearchDatesOverrideBooking`, `Routes.MalformedDateRejected`, `App.Store.BookVehicle`).
- **A rejected search filters nothing.** A search form that fails validation, for example one with a negative price ceiling (forms.py:74) or a malformed date, skips every filter (routes.py:77). The page then lists every vehicle flagged available, including vehicles of other types and vehicles booked over the requested range (`Routes.InvalidSearchListsFlagged`).
- **Reversed search range.** The search form does not compare its two dates. For a reversed range, the three-case overlap test disagrees with the standard interval test (`Utils.ReversedRangeOverlapDisagrees`). For ordered ranges the two agree (`Utils.OverlapCasesIsIntervalOverlap`).
- **Double booking.** The invariant that no two active bookings of a vehicle overlap (`App.NoDoubleBooking`) is preserved by booking, cancelling and deleting. The administrator's status override can break it by reopening a cancelled booking (`App.AdminReopenCanDoubleBook`), so it is not part of the store's `Valid()`.

## Model

| member | source | states |
|---|---|---|
| `Utils.Tier` | utils.py:15-21 | the month tier is never selected; no discount exactly when the booking is shorter than 7 days |
| `Utils.BookingPrice` | utils.py:7-24 | for an ordered range and a non-negative rate, the price lies between 0 and rate × days (discounts never raise it) |
| `Utils.ShortBookingFullPrice` | utils.py:10-16 | a booking of 1–6 days covers at least one day and costs exactly rate × days |
| `Utils.LongBookingTenPercentOff` | utils.py:16-18 | every booking of 7 days or more, 30+ included, costs rate × days × 0.9 |
| `Utils.MonthDiscountNeverApplied` | utils.py:19-21 | a booking of 30 days or more at a positive rate is never charged rate × days × 0.8 |
| `Utils.PriceExamples` | utils.py:7-24 | at rate 100: 1 day → 100, 6 days → 600, 7 days → 630, 30 days → 2700 |
| `Utils.OverlapCasesIsIntervalOverlap` | utils.py:36-40 | for ordered ranges, the three overlap cases hold iff `bs ≤ e ∧ s ≤ be` |
| `Utils.OverlapCasesSymmetric` | utils.py:36-40 | for ordered ranges, the three-case test gives the same answer with the two ranges swapped |
| `Utils.ReversedRangeOverlapDisagrees` | routes.py:104-113 | with a reversed requested range, the three-case test reports a clash the interval test does not |
| `Utils.ConflictingBookings` | utils.py:32-42 | the query returns only bookings of this vehicle that are active and overlapping; it returns none iff no booking conflicts |
| `Utils.IsVehicleAvailable` | utils.py:27-45 | available iff no booking has the vehicle's id, a pending/confirmed status and one of the three overlap cases |
| `Utils.NoBookingsAllAvailable` | utils.py:44-45 | with no bookings every vehicle is available over every range |
| `Utils.IrrelevantBookingIgnored` | utils.py:34-35 | adding a booking of another vehicle, or a cancelled/completed one, never changes availability |
| `Utils.AvailableIffNoActiveOverlap` | utils.py:32-45 | over well-formed ranges, available iff no active booking of the vehicle shares a day with the range |
| `Utils.WithAdmin` | utils.py:52-65 | only appends; unchanged when the admin email or the username "admin" is already stored; otherwise exactly one row is appended, with the fresh id, username "admin", the admin email and the administrator flag set |
| `Utils.WithAdminIdempotent` | utils.py:52-53 | a second bootstrap leaves the user table as the first one left it |
| `Utils.WithAdminKeepsUsersUnique` | utils.py:54-65 | with a fresh id the bootstrap keeps ids, usernames and emails unique, so at most one admin-email account exists |
| `Forms.ParseStatus` | forms.py:80-82 | an accepted status string is the name of the status it selects |
| `Forms.StatusNameRoundTrip` | forms.py:80-82 | each of the four statuses is selectable under its own name |
| `Forms.ParseVehicleType` | forms.py:40-42 | an accepted vehicle-type string is the name of the type it selects |
| `Forms.VehicleTypeNameRoundTrip` | forms.py:40-42 | each of the five types is selectable under its own name |
| `Forms.RegistrationFormValid` | forms.py:7-25 | a predicate; no contract: the username is 3–20 characters, every required field is non-blank, the password has at least 6 characters and is confirmed, and neither the username nor the email is already stored |
| `Forms.VehicleFormValid` | forms.py:35-49 | a predicate; no contract: each field's required, length, range and choice validators, with a required number also rejecting zero |
| `Forms.EndDateValid` | forms.py:63-66 | a predicate; no contract: the end date is refused only when both dates are present and the end is before the start |
| `Forms.BookingFormValid` | forms.py:52-66 | a predicate; no contract: both dates present and neither submitted date text malformed, card number 13–19 characters, expiry 5, CVV 3–4, holder present, notes at most 500 unless blank, and the end-date check |
| `Forms.SearchFormValid` | forms.py:69-76 | a predicate; no contract: the type is empty or a listed choice, no non-blank date text is malformed, a given price ceiling is at least 0 and a given capacity at least 1; the dates are not compared |
| `Forms.BookingStatusFormValid` | forms.py:79-84 | a predicate; no contract: the status is one of the four choices and the notes are at most 500 characters unless blank |
| `Forms.RegistrationKeepsUsersUnique` | forms.py:17-25 | a user added from an accepted registration form keeps usernames and emails unique; the username is 3–20 characters |
| `Forms.VehicleFormRatePositive` | forms.py:45 | an accepted vehicle form has a daily rate > 0, so even a one-day price is positive |
| `Forms.BookingFormDates` | forms.py:63-66 | the end-date validator rejects iff end < start, so equal dates are accepted; an accepted form covers ≥ 1 day and its price at a non-negative rate is ≥ 0 |
| `Routes.IndexOfId` | routes.py:130 | the lookup by primary key finds the first row with that id, or reports none iff no row has it |
| `Routes.Filter` | routes.py:75 | a query filter keeps exactly the rows satisfying its condition |
| `Routes.UnavailableVehicleIds` | routes.py:104-115 | a vehicle id is on the exclusion list iff the per-vehicle availability test fails for that vehicle |
| `Routes.SearchVehicles` | routes.py:70-119 | every listed vehicle is a stored vehicle flagged available |
| `Routes.SearchMembership` | routes.py:84-117 | for an accepted form, a vehicle is listed iff it is flagged available and meets the type, positive price ceiling, minimum capacity and (with both dates) per-vehicle availability criteria |
| `Routes.EmptySearchListsFlagged` | routes.py:75 | with no criteria the result is exactly the flagged-available vehicles in table order |
| `Routes.InvalidSearchListsFlagged` | routes.py:75-77 | a form that fails validation lists exactly the vehicles flagged available, in table order, whatever criteria it gave |
| `Routes.ZeroMaxPriceIgnored` | routes.py:88-89 | a maximum rate of 0 gives the same list as no maximum rate |
| `Routes.SessionAfterSearch` | routes.py:95-101 | the session changes only on an accepted search giving both dates, and then holds exactly those dates |
| `Routes.WithSessionDates` | routes.py:139-142 | a session range replaces both dates of the booking form; every other field is the submitted one; with no session range the form is unchanged |
| `Routes.SearchDatesOverrideBooking` | routes.py:139-144 | after an accepted search with both dates, two booking forms that differ only in their parsed dates are validated as the same form, over the searched range |
| `Routes.MalformedDateRejected` | routes.py:136-144 | a submitted date text that did not parse rejects the booking form even after the session range replaces the dates |
| `Routes.LastFour` | routes.py:158 | the slice is the string's last 4 characters, or the whole string when it is shorter |
| `Routes.MaskCardNumber` | routes.py:158 | a function; no contract of its own: the fixed mask followed by the last four characters (its properties are `Routes.MaskKeepsOnlyLastFour`) |
| `Routes.PaymentFromForm` | routes.py:157-161 | a function; no contract of its own: the masked number, the holder and the expiry date; the CVV is not kept |
| `Routes.MaskKeepsOnlyLastFour` | routes.py:157-161 | for an accepted form the stored number is 19 characters: the fixed mask then the card's last four; at least 9 card characters are never stored |
| `Routes.CountStatus` | routes.py:363-366 | a count never exceeds the number of bookings, and is zero iff no booking has that status |
| `Routes.StatusCountsCoverAll` | routes.py:363-366 | the four status counts add up to the number of bookings |
| `Routes.CountAfterUpdate` | routes.py:204 | changing one booking's status moves it from the old status's count to the new one's |
| `Routes.AdminStatusReport` | routes.py:350-366 | the report exists iff the user is an administrator; each of its four fields is the count of bookings in its own status, and together they account for every booking |
| `App.HasBookingFor` | routes.py:302 | a predicate; no contract: some booking, in any status, references the vehicle |
| `App.NoDoubleBooking` | routes.py:148-151 | a predicate; no contract: no two pending or confirmed bookings of one vehicle share a day; preserved by booking, cancelling and deleting, but not part of `App.Store.Valid` |
| `App.ClashingRequestRejected` | routes.py:148-151 | a request overlapping an active booking of the same vehicle fails the availability test, so the second of two overlapping requests is refused |
| `App.AvailableAppendKeepsNoDoubleBooking` | routes.py:149-176 | appending a booking that passed the availability test keeps active bookings of each vehicle pairwise non-overlapping |
| `App.DeactivateKeepsNoDoubleBooking` | routes.py:204 | moving a booking to cancelled/completed keeps active bookings non-overlapping |
| `App.AdminReopenCanDoubleBook` | routes.py:339 | setting a cancelled booking back to pending can create two overlapping active bookings |
| `App.AppendBookingKeepsInvariant` | routes.py:164-176 | a booking appended under the next id, with an ordered range, a non-negative price and existing vehicle and user, keeps the store consistent |
| `App.RemoveAt` | routes.py:306 | the table loses one row: the rows before it keep their positions and the rows after it move up by one |
| `App.RemoveVehicleKeepsOthers` | routes.py:306 | removing one vehicle row keeps the table consistent and keeps exactly the vehicles with other ids |
| `App.RemoveVehicleKeepsReferences` | routes.py:302-307 | a vehicle id other than the deleted one is still found afterwards |
| `App.Store.Valid` | routes.py:164-173 | a predicate; no contract: user ids, usernames and emails are unique and below the next id; vehicle ids are unique with non-negative rates; each booking has a unique id below the next one, an ordered range, a non-negative price, and a stored vehicle and user |
| `App.Store.constructor` | routes.py:164-173 | a store opened on tables that satisfy the invariant is valid and holds exactly those tables and counters |
| `App.Store.InitializeAdmin` | utils.py:48-66 | users become `WithAdmin(old users, next id)`; nothing else changes; success iff the admin email then exists; a no-op when it already existed |
| `App.Store.BookVehicle` | routes.py:127-179 | the session's searched range, when present, replaces the submitted dates; then not found, not offered, invalid form, or dates unavailable (checked in that order) leave the store unchanged; otherwise exactly one booking is appended (pending, priced by `BookingPrice`, the current user's id and the vehicle's id, masked payment); the store stays valid and no double booking appears |
| `App.Store.CancelBooking` | routes.py:189-208 | unknown id, non-owner, or a status other than pending/confirmed change nothing; otherwise only that booking's status becomes cancelled; no double booking appears |
| `App.Store.DeleteVehicle` | routes.py:292-310 | a non-administrator, unknown id, or a vehicle with any booking changes nothing; otherwise only that vehicle is removed |
| `App.Store.ManageBooking` | routes.py:328-344 | a non-administrator, unknown id or invalid form changes nothing; otherwise only that booking's status and notes become the submitted values, whatever its prior status |
| `App.SampleFormsValid` | forms.py:52-66 | two concrete booking forms, with ordered dates and in-range card fields, pass every validator |
| `App.RebookAfterCancellation` | routes.py:127-179 | a method; no contract: from the handlers' contracts alone, a 7-day booking at rate 100 costs 630, and another user's request over an overlapping searched range, submitted without dates, is refused |
| `App.CancelThenRebook` | routes.py:189-208 | a method; no contract: continuing that session, once the owner cancels, the same request succeeds and is priced at 600 |

## Left out

- Rounding to cents (utils.py:24) and floating point. Prices are exact reals before rounding.
- Date parsing and formatting (routes.py:96-97, 141-142). Dates are day numbers. A date that is None was not submitted. A submitted date text that does not parse is represented only by a flag on the form (`startDateMalformed`, `endDateMalformed`, `dateMalformed`), which the form's validity predicate rejects.
- The search page's query-string path (routes.py:77, 82). Its values are unparsed strings; only the submitted-form path is modelled. The session's searched range (routes.py:100-101) is modelled as a value passed to the booking handler, not as per-browser state.
- Rendering, redirects, flash messages, login and logout, and the error pages. Handlers return an `Outcome` in their place; the logged-in user is a parameter that must be a stored user.
- Password hashing and checking (a foreign library). Users carry no password.
- App.Store.InitializeAdmin: when another account already holds the username "admin", the source's commit (utils.py:65) fails on the username's unique constraint and raises an uncaught error. The model returns `DuplicateUser` and leaves the user table unchanged instead.
- Forms.RegistrationFormValid: does not model the email-syntax validator (a foreign library), so it accepts any non-blank email.
- Forms.IsBlankChar: treats only space, tab, line feed, carriage return, vertical tab and form feed as blank. The required-field check strips every character Python's `str.strip()` strips, which also includes the separators `\x1c`–`\x1f` and the non-ASCII whitespace.
- Payment information is stored as a record rather than a JSON string.
- CSRF validation and the hidden vehicle-id field of the booking form. The handler sets that field itself.
- The monthly booking count, monthly revenue and most-booked vehicles on the reports page (routes.py:356-377). They depend on the clock and on SQL aggregation. The dashboard's pending/confirmed counts (routes.py:221-222) are `Routes.CountStatus`.
- The race between the availability check and the insert (routes.py:149-176). Requests are sequential.
- Handlers outside the booking core: registration, login, index, vehicle detail, my bookings, listing pages, and adding and editing vehicles. Their only model is the validity predicates of the forms they use.
- models.py is not part of this model. The entities carry the fields the handlers read and write. The model assumes that models.py declares usernames and emails unique and gives each vehicle a `bookings` relationship (`App.HasBookingFor`).
- App.Store.Valid: assumes stored vehicles have a non-negative daily rate. Vehicles enter through the vehicle form, which guarantees it, but adding vehicles is not modelled.
- make_zip.py (file-system packaging).
