# Slotwise booking core in Dafny

This project models the rules of the Slotwise booking app (a React and TypeScript
front end over a Supabase database). It covers five parts of the app:

- **Slot generation** (`booking.dfy`, module `Booking`).
  - The booking page reads an establishment's opening windows for the selected weekday.
  - It reads the appointments that start on the selected day.
  - It walks every window in 30-minute steps and keeps each start at which the service
    fits before closing and which conflicts with no appointment.
  - `CalculateAvailableSlots` and `ScanRule` keep the source's loops, a `for` over the
    windows and a `while` over the steps of one window. They are proved equal to the
    function `AvailableSlots`, and the properties are proved about that function.
- **Booking** (`Booking.AppointmentLedger`). Confirming a start appends one appointment
  row to the appointments table. The row's end is the start plus the service's duration,
  and its status is "Confirmado".
- **Opening windows** (`availability.dfy`, module `Availability`).
  - The administration page offers 48 half-hour labels.
  - It refuses a window whose start label does not sort before its end label.
  - It stores and deletes windows in `AvailabilityStore`.
  - It names weekdays and groups windows into one card per weekday.
- **Durations and links** (`duration.dfy`, module `Duration`).
  - `formatDuration` writes minutes as "45min", "2h" or "1h 30min". The model proves
    that this text reads back, so no two durations share a text.
  - The public page links a service to `/agendar/<id>`. Assuming that path reaches the
    booking page, the booking page's `parseInt` of the `:serviceId` segment gives the id back.
- **Access** (`access.dfy`, module `Access`).
  - The route guard decides between the spinner, a redirect to `/login`, a redirect to
    `/`, and the page itself.
  - The home page sends a signed-in user to the page of their role and status.
  - The model proves that the two agree. The home page sends a session to a protected
    page exactly when that page's guard admits the same session.

Shared pieces:

- `decimal.dfy` holds decimal text as JavaScript writes and reads it (`toString`,
  `parseInt`), and the order of the string `<`. The model orders characters by code
  point, which is JavaScript's UTF-16 code-unit order below U+10000.
- `clock.dfy` reads a stored "HH:MM" time by splitting it on ':'.
- `tables.dfy` holds the three table rows the core touches.

Modelling choices:

- Instants are whole minutes on the establishment's local clock.
- `dayStart` is the minute at which the selected day begins. `dayOfWeek` is its weekday.
  The caller supplies both.
- The database tables are sequences. A read is a selection over its sequence, and an
  insert or delete changes the store object's `rows` field.

## Model

| member | source | states |
|---|---|---|
| Booking.CalculateAvailableSlots | src/pages/BookingPage.tsx:103-192 | The loop over the day's windows returns exactly `AvailableSlots` of the day's rules and busy set: every window's free starts, in window order. No window for the weekday gives no slots. |
| Booking.ScanRule | src/pages/BookingPage.tsx:146-179 | The while loop over one window appends exactly that window's free starts, in order, to the slots pushed so far. It runs `(end - start - duration) / 30 + 1` times when the service fits, and not at all otherwise or when a bound does not read as a time. |
| Booking.DayRules | src/pages/BookingPage.tsx:113-117 | A window is selected exactly when it belongs to the establishment and has the selected weekday. |
| Booking.DayAppointments | src/pages/BookingPage.tsx:129-137 | The busy set holds the interval of every row of the establishment whose start lies within the selected day, and nothing else. Status plays no part. |
| Booking.OverlapImpliesConflict | src/pages/BookingPage.tsx:166-170 | Half-open overlap of slot and appointment always counts as a conflict. |
| Booking.ConflictIsOverlap | src/pages/BookingPage.tsx:166-170 | For a slot and an appointment of positive length, the three-clause test holds exactly when the two half-open intervals overlap. |
| Booking.TouchingDoesNotConflict | src/pages/BookingPage.tsx:166-170 | A slot that ends where an appointment starts, or starts where it ends, does not conflict with it. |
| Booking.EmptySlotConflictsWithoutOverlap | src/pages/BookingPage.tsx:166-170 | Without positive length the equivalence fails: a zero-length slot at an appointment's start conflicts but does not overlap. |
| Booking.WindowSlotsSound | src/pages/BookingPage.tsx:156-177 | Every start a window emits is on the window's 30-minute grid, lets the service end by closing, and conflicts with no busy interval. |
| Booking.WindowSlotsComplete | src/pages/BookingPage.tsx:156-177 | Every grid point `start + 30k` of a window at which the service fits and which conflicts with nothing is emitted. |
| Booking.WindowSlotsIncreasing | src/pages/BookingPage.tsx:156-177 | Within one window the emitted starts strictly increase. |
| Booking.CandidatesCount | src/pages/BookingPage.tsx:158-177 | The grid points the loop guard admits, which `ScanRule` visits one per iteration, number `(end - start - duration) / 30 + 1` when the service fits at all, and zero otherwise. |
| Booking.WindowSlotsAreFreeCandidates | src/pages/BookingPage.tsx:158-177 | A window's output is its list of visited grid points with the conflicting ones dropped, so it is never longer than that list. |
| Booking.FlattenMember | src/pages/BookingPage.tsx:144-179 | A start is in the joined list exactly when some window's list contains it. |
| Booking.AvailableSlotsConcat | src/pages/BookingPage.tsx:144-181 | The slots of two runs of windows are the slots of the first run followed by those of the second, with no sorting or merging. |
| Booking.AvailableSlotsSound | src/pages/BookingPage.tsx:144-181 | Every start of the day lies on the grid of some window, lets the service end by that window's close, and conflicts with no busy interval. |
| Booking.AvailableSlotsComplete | src/pages/BookingPage.tsx:144-181 | Every free grid point of any window of the day at which the service fits is offered. |
| Booking.ConflictingStartNotEmitted | src/pages/BookingPage.tsx:162-175 | A start that conflicts with a busy interval is never offered, whichever window produces it. |
| Booking.FreshSlotIsFree | src/pages/BookingPage.tsx:132-175 | An offered start overlaps no appointment of the establishment that starts within that day, whatever its status. |
| Booking.WorkedExample | src/pages/BookingPage.tsx:156-177 | A window from 09:00 to 12:00 with a one-hour service offers 09:00 to 11:00 every half hour. An appointment from 09:30 to 10:30 leaves only 10:30 and 11:00. |
| Booking.PreviousDayAppointmentIgnored | src/pages/BookingPage.tsx:136-137 | An appointment that began the day before is not read, so a start inside it is offered. |
| Booking.RepeatedWindowRepeatsStarts | src/pages/BookingPage.tsx:144-181 | Two identical windows on one day offer every start twice. |
| Booking.AppointmentLedger.ConfirmBooking | src/pages/BookingPage.tsx:210-228 | With a start, a service and a user, exactly one row is appended. It has the next id, the user, the service's establishment and id, the start, the end `start + duration` and status "Confirmado", and the next id advances by one. Otherwise nothing changes. Ids stay distinct. |
| Clock.ClockMinutesOfDigits | src/pages/BookingPage.tsx:147-154 | Two digit groups joined by ':' read as `hours * 60 + minutes` minutes after midnight. |
| Decimal.NatToStringRoundTrip | src/pages/Disponibilidade.tsx:138 | `parseInt` of the decimal text of a non-negative integer gives the integer back. |
| Availability.TimeOptionsShape | src/pages/Disponibilidade.tsx:30-35 | There are 48 labels. Label i is two digits reading as hour i / 2, a colon, and "00" or "30". Read as a time it is 30 * i minutes after midnight. |
| Availability.TimeOptionsOrder | src/pages/Disponibilidade.tsx:30-35 | On the 48 labels the string `<` agrees with their order in the day, in both directions. |
| Availability.CreatedWindowIsProper | src/pages/Disponibilidade.tsx:123 | A window whose start label sorts before its end label opens at a half-hour mark strictly before it closes. |
| Availability.AvailabilityStore.HandleSubmit | src/pages/Disponibilidade.tsx:111-165 | The submit is refused exactly when there is no establishment, including id 0. Otherwise it is refused exactly when the start does not sort before the end. A refusal changes nothing. Otherwise one row is appended with the next id, the establishment, the weekday parsed from the form, and the two labels, and the next id advances by one. |
| Availability.AvailabilityStore.HandleDelete | src/pages/Disponibilidade.tsx:167-195 | Once confirmed, the rows become those without the given id, in the same order. Without confirmation nothing changes. Ids stay distinct. |
| Availability.WithoutId | src/pages/Disponibilidade.tsx:173-176 | A row survives the delete exactly when it was stored and its id differs from the deleted one. |
| Availability.WithoutIdKeepsDistinct | src/pages/Disponibilidade.tsx:173-176 | Deleting keeps the ids distinct. |
| Availability.WithoutIdRemovesOne | src/pages/Disponibilidade.tsx:173-176 | With distinct ids, deleting a present id removes exactly one row. Deleting an absent id removes none. |
| Availability.DayNames | src/pages/Disponibilidade.tsx:197-199 | Weekdays 0 to 6 get their Portuguese names from the weekday list. Every other number gets "N/A". |
| Availability.DayGroup | src/pages/Disponibilidade.tsx:336-337 | A day's card shows exactly the stored windows of that weekday. |
| Availability.ExactlyOneCard | src/pages/Disponibilidade.tsx:336-337 | A window of weekday 0 to 6 appears on the card of its day and on no other card. |
| Availability.DayGroupKeepsOrder | src/pages/Disponibilidade.tsx:75-80 | If the windows come back sorted by weekday and then start, each card lists its windows by start. |
| Duration.HoursAndMinutes | src/pages/EstablishmentPublic.tsx:88-90 | For a non-negative duration, hours and minutes split it exactly, with the minutes below 60. |
| Duration.FormatDurationShapes | src/pages/EstablishmentPublic.tsx:88-95 | Under an hour the text is "<m>min". On a whole hour it is "<h>h". Otherwise it is "<h>h <m>min". |
| Duration.FormatDurationRoundTrip | src/pages/EstablishmentPublic.tsx:88-95 | The text of a non-negative duration reads back as that duration. |
| Duration.FormatDurationInjective | src/pages/BookingPage.tsx:260-267 | No two non-negative durations are written the same way. |
| Duration.ServicePathRoundTrip | src/pages/EstablishmentPublic.tsx:77-79 | For a path `/agendar/<id>` routed to the booking page as `:serviceId`, the booking page's `parseInt` of that segment gives back the id of the service that was clicked. |
| Access.Guard | src/components/ProtectedRoute.tsx:17-40 | The spinner shows exactly while loading. `/login` is chosen exactly when loading is over and there is no user. The page renders exactly when there is a user, the role matches any required role and the status matches any required status. Every redirect goes to `/login` or `/`. |
| Access.MissingProfileSentHome | src/components/ProtectedRoute.tsx:32-38 | A guard with a required role or status sends a signed-in user without a profile to `/`. |
| Access.Landing | src/pages/Index.tsx:12-27 | The home page does not navigate while loading, without a user, or without a profile. Every target it picks is a guarded route. |
| Access.HomeDecision | src/pages/Index.tsx:12-38 | The home page shows the spinner exactly while loading, and it navigates exactly when it picks a target. |
| Access.LandingIsTheAdmittedRoute | src/pages/Index.tsx:13-26 | For every guarded route, the home page sends a session there exactly when that route's guard renders the page for the same session. |
| Access.LandingAdmitted | src/App.tsx:28-59 | Every navigation from the home page reaches a page whose guard admits the session. |
| Access.PendingAndDashboardExclusive | src/App.tsx:28-43 | No session is admitted both to `/pending-approval` and to `/dashboard`. |
| Access.AtMostOneProtectedPage | src/App.tsx:28-59 | At most one guarded route admits any given session. |
| Access.OtherAdministratorStatusStaysHome | src/pages/Index.tsx:17-22 | An administrator whose status is neither "pendente" nor "ativo" stays on the home page. |

## Left out

- The Supabase calls are not modelled as network operations. Their error branches, toasts and loading flags are left out too. Each read is a selection over an in-memory table, and each insert or delete is a change to a store's `rows`.
- Reading slots and inserting the booking are separate steps with nothing between them. The model makes no claim that two clients cannot book the same start.
- JavaScript `Date` is not modelled: `getDay`, `startOfDay`/`endOfDay`, `setHours` in local time, ISO text, daylight saving and time zones.
  - Times are integer minutes.
  - The caller supplies `dayStart` and `dayOfWeek`, and the model does not check that they agree.
  - Offered starts are minutes rather than ISO strings.
- `Number` on a time field is modelled only for digit strings and the empty string. Signs, spaces and decimal points are not modelled.
- Booking.CalculateAvailableSlots: takes the service's duration as a plain argument. The early return when no service or establishment is loaded (line 104) is not modelled.
- Booking.AppointmentLedger.ConfirmBooking: models only the row it inserts. The navigation to the success page is not modelled. Like the source, it does not re-check conflicts.
- Decimal.LexLess: compares characters by code point. JavaScript compares UTF-16 code units, and the two orders differ when the first difference puts a character above U+FFFF against one in U+E000 to U+FFFF. The time fields are filled from the 48 ASCII labels of the form, where the orders agree.
- Availability.AvailabilityStore.HandleSubmit: inherits that difference. For times outside U+0000 to U+FFFF its start-before-end check may disagree with the page's.
- Duration.ServicePathRoundTrip: assumes a route `/agendar/:serviceId` that shows the booking page. src/App.tsx:24-62 declares no such route and does not import the booking or public pages, so with that route table the link shows the catch-all page.
- Availability.AvailabilityStore.HandleSubmit: requires the weekday text to be one the weekday Select offers. The submit button stays disabled while the field is empty (src/pages/Disponibilidade.tsx:245-246, 304).
- Availability.DayGroupKeepsOrder: assumes the order the database returns (weekday, then start). It is a hypothesis, not something the model computes.
- `formatPrice` is not modelled, because it uses `Intl.NumberFormat` on floating-point prices. Team members, service names and prices are not modelled either.
- The calendar's rule that disables past dates is not modelled, because it depends on the current clock.
- The authentication context, sign-up and sign-in are not modelled, because they are calls to an external service. A session is an input.
- The CRUD pages for services and establishments, the super-admin page and the static pages are not modelled. They only copy fields to and from remote calls.
- The booking page has a textually identical copy of `formatDuration` (src/pages/BookingPage.tsx:260-267). `Duration.FormatDuration` stands for both.
