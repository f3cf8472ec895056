# LuberMobile appointment lifecycle and chat bookkeeping, in Dafny

LuberMobile is a mobile oil-change service: customers and fleet accounts
register their vehicles, book an appointment slot, may cancel it a day or
more ahead, and talk to the office through a chat widget. Small workers
poll the database: one sends fleet accounts a message for each new,
processed or invoiced schedule, another moves the schedules the office
marked `Completed` into a second collection.

This project models the rules at the centre of that system and proves
what they promise:

- **Slots and dates** (`Slots`, `ClockLabels`, `Calendar`): the 13 hourly
  labels of the availability handlers and the 49 quarter-hour labels of
  the booking page, their reading back into a 24-hour clock, the
  "strictly after now" filter, the removal of booked times, the earliest
  bookable date three working days ahead, and the `formatDate`, `addDays`
  and `calculateDueDate` helpers on calendar day numbers.
- **Schedules and cancellations** (`ApiServer`, `MainServer`,
  `Appointments`, `Records`): vehicle normalisation at registration, the
  initial flags of a new schedule in each server, the one-day cancellation
  rule, one cancellation record per vehicle, the archive toggle, the bot's
  reply choice.
- **The pages** (`ProfilePages`, `SchedulePage`, `Registration`): the
  next appointment of each vehicle, the cancel button, the denial notice,
  the odometer and the mileage prompt, the cancellation list, the chat
  badge, the per-vehicle price (base price, 25 for the air filter, 20 for
  the cabin filter), the request body and its total, the vehicle counter
  and the tabs of the registration form.
- **The office chat panels** (`AdminChat`, `OfficeChat`): the pending count
  of a conversation, the unread counters, selection, archiving, and the
  merging of socket updates; the older panel's `_lastCount` new-message
  flag.
- **The workers** (`FleetNotifier`, `CompletedMover`): the three one-shot
  notification passes and their idempotence, and the completed-schedule
  mover with its newest-first history of at most 50 entries.

Where two copies of a rule differ in the code, the model keeps both and
proves how they relate rather than picking one: `server.js` and
`mainServer.js` start a schedule with different flags and answer a
cancellation differently when the owner has no profile; `customer.js`
trims a denial reason before comparing it with "awaiting reason" and
`fleet.js` does not; the deadline check of the server lets through a date
it cannot read, which the pages never offer; and the invoice query of the
notifier matches a `null` invoice id.

MongoDB collections are maps from id to document held by a `Store` (or,
for the mover, by the `Mover` class), a conversation's messages are a
sequence, amounts of money are whole cents, timestamps are whole
milliseconds or minutes, and "today" and "now" are parameters. The order
in which a query returns documents is a parameter too (`IsOrderOf`: each
selected id exactly once).

## Model

| member | source | states |
|---|---|---|
| Common.OrElseIdempotent | server.js:238-245 | with a non-empty fallback, `x || fallback` is always truthy, so a second `|| other` leaves it unchanged |
| Common.Interpolated | fleetNotifier-Message/fleetNotifier.js:51 | a template string prints an optional text as the text itself, and a missing one as "undefined" |
| Common.InterpolatedOrElse | public/js/customer.js:68 | interpolating differs from `x || "undefined"` exactly for the empty text |
| Common.ToLower | public/js/chatbot.js:65 | lower-casing keeps the length and maps each character on its own, A-Z to a-z and every other character unchanged |
| Common.ToLowerIdempotent | public/js/chatbot.js:65 | lower-casing twice is lower-casing once, so the stored search term is already in the form it is compared in |
| Common.ToLowerAppend | public/js/chatbot.js:80 | lower-casing distributes over concatenation |
| Common.TrimStart | server.js:361 | the result is a suffix, starts with a non-space, and everything dropped is white space |
| Common.TrimEnd | server.js:361 | the result is a prefix, ends with a non-space, and everything dropped is white space |
| Common.Trim | public/js/customer.js:35 | `trim()` yields text with no white space at either end, obtained by dropping only white space around it |
| Common.TrimAround | public/js/customer.js:35 | the text between leading and trailing white space is exactly what `trim()` returns |
| Common.TrimUnchanged | public/js/fleet.js:58 | text without white space at its ends is left as it is by `trim()` |
| Common.IncludesIff | public/js/chatbot.js:80 | `includes(t)` holds exactly when `t` occurs at some position of the text |
| Common.IncludesEmpty | public/js/chatbot.js:80 | every text includes the empty text |
| Common.IncludesExtend | public/js/chatbot.js:80 | a text still includes what it included after more is appended |
| Common.IncludesGrow | fleetNotifier-Message/fleetNotifier.js:51-56 | appending a piece keeps every text already included and includes the piece |
| Common.TrimBlankIff | public/js/fleet.js:58 | `trim()` is non-empty exactly when the text holds a character that is not white space |
| Decimal.DigitValue | public/js/customer.js:219 | a digit's value is below 10 and renders back as the same digit |
| Decimal.ValueAppend | public/js/customer.js:219 | the value of concatenated digit strings is the first value shifted by the length of the second plus the second value |
| Decimal.NatText | utils/dateUtils.js:5 | `String(n)` of a whole number is a non-empty run of digits without a leading zero |
| Decimal.NatTextRoundTrip | utils/dateUtils.js:5 | reading `String(n)` back gives `n` |
| Decimal.NatTextLength | public/js/customer.js:76 | a number below 10^k has at most k digits |
| Decimal.IntText | public/js/customer.js:76 | `String(i)` of a negative number is "-" followed by the digits of its magnitude |
| Decimal.IntTextInjective | public/js/customer.js:76 | different integers print as different texts |
| Decimal.CentsText | fleetNotifier-Message/fleetNotifier.js:54 | `String(c / 100)` of a whole number of cents: the dollars as an integer when the cents are a multiple of 100, a text with a decimal point otherwise |
| Decimal.Fraction | fleetNotifier-Message/fleetNotifier.js:54 | the fractional part of a number of cents is empty for 0, else a point and one or two digits without a trailing zero whose value is the cents |
| Decimal.PadStart | utils/dateUtils.js:6-7 | `padStart(width, fill)` keeps the text as the suffix, fills in front, and is exactly `width` long when the text is shorter |
| Decimal.ZeroPaddedNat | utils/dateUtils.js:6-7 | zero-padding a number's digits changes neither that it is all digits nor its value |
| Decimal.Pad2RoundTrip | utils/dateUtils.js:6-7 | a number below 100 padded to two digits is two digits whose value is the number |
| Decimal.Run | public/js/customer.js:219 | the leading run of characters that satisfy a test is maximal |
| Decimal.HexDigitValue | server.js:601 | a hexadecimal digit's value is below 16 |
| Decimal.ParseInt | public/js/customer.js:219 | `parseInt` of the empty text is NaN |
| Decimal.ParseIntRoundTrip | public/js/customer.js:219 | `parseInt(String(i))` is `i` for every integer |
| Decimal.ParseSignedNegative | public/js/customer.js:219 | `parseInt` of "-" and the digits of n is -n |
| Records.ToNumber | server.js:234-235 | `Number(v)`: null is 0, undefined is NaN, a number is itself |
| Records.NumberText | server.js:234 | `Number` of blank text is 0, and a text it reads as a number ends in a digit |
| Records.NumberOfIntText | server.js:234 | `Number(String(i))` is `i` for every integer |
| Records.ToBoolAndNumber | mainServer.js:379 | `!!v` agrees with `Number(v)` being a non-zero number for every value that is not text, and differs on the text "0" |
| Records.CustomerCountAppend | server.js:379 | the count of customer-sent messages distributes over concatenation |
| Records.NumbersRoundTrip | server.js:234 | `arr.map(Number)` of the printed integers gives the integers back, element by element |
| Records.FirstOrZero | server.js:248-249 | `nums[0] \|\| 0` is 0 exactly when the list is empty or its first number is NaN or 0, and otherwise is that first number |
| Records.BlankSchedule | server.js:504-521 | a new schedule document carries the user, the request's date, time, total and vehicles, and no notification, invoice or completion field |
| Records.ObjectIdShapes | server.js:601 | `ObjectId.isValid` as bson 4 and 5 define it accepts only texts of 12 or 24 characters, every 12-character text, and a 24-character text only when it is hexadecimal |
| Records.ObjectIdVersions | server.js:601 | the bson 6 rule (exactly 24 hexadecimal digits) accepts a subset of the modelled rule, and the two differ exactly on the 12-character texts |
| Records.Store.constructor | server.js:122-181 | the store holds the given `customers`, `conversations`, `services` and `schedules` collections |
| Calendar.DaysInMonth | utils/dateUtils.js:14 | a month has 28 to 31 days |
| Calendar.DaysBeforeDecember | utils/dateUtils.js:14 | the days before December plus its 31 days make the year |
| Calendar.NextDay | utils/dateUtils.js:14 | the next calendar date is valid and its day number is one more, rolling over months and years |
| Calendar.PrevDay | utils/dateUtils.js:14 | the previous calendar date is valid and its day number is one less |
| Calendar.AddDays | utils/dateUtils.js:12-16 | `addDays(d, n)` is the valid date whose day number is n more than d's; the argument is a value and is not changed |
| Calendar.DayNumberInjective | utils/dateUtils.js:12-16 | two valid dates with the same day number are the same date, so `addDays` has exactly one result |
| Calendar.AddDaysCompose | utils/dateUtils.js:12-16 | adding m days and then n days is adding m + n days |
| Calendar.YearWithinDays | utils/dateUtils.js:19-23 | a date at most 365 days after another is at most one year later |
| Calendar.Weekday | public/js/schedule.js:85 | `getDay()` is between 0 (Sunday) and 6 (Saturday) |
| Calendar.WeekdayOfNextDay | public/js/schedule.js:84-85 | the next day's weekday is the following weekday, modulo 7 |
| Calendar.FormatDate | utils/dateUtils.js:4-9 | "YYYY-MM-DD Z" has the year's digits plus eight characters and ends in " Z" |
| Calendar.FormatDateRoundTrip | utils/dateUtils.js:4-9 | reading back year, 1-based month and zero-padded day of `formatDate(d)` gives `d` |
| Calendar.ParseShape | utils/dateUtils.js:8 | a text of digits, "-", two digits, "-", two digits and " Z" reads as that year, month and day |
| Calendar.CalculateDueDate | utils/dateUtils.js:19-23 | the due date text is `formatDate` of the valid date exactly 30 days after creation |
| Calendar.IsoText | public/js/schedule.js:87 | `toISOString().slice(0, 10)` of a date before year 10000 is ten characters |
| Calendar.ParseIsoDate | server.js:615 | a date read from "YYYY-MM-DD" is a valid calendar date |
| Calendar.ParseIsoShape | server.js:615 | four, two and two digits separated by "-" read as that date exactly when it exists |
| Calendar.IsoRoundTrip | public/js/schedule.js:87 | reading back the ISO text of a date gives the date |
| ClockLabels.Split | public/js/customer.js:58 | `split(c)` yields at least one piece |
| ClockLabels.SplitAt | public/js/customer.js:58 | splitting at the first separator gives the part before it followed by the pieces of the rest |
| ClockLabels.ParseClock | public/js/customer.js:58-59 | `time.split(" ")` then `split(":").map(Number)`: a text without a space has no suffix, and one without a colon either has no minute (NaN) and is read whole by `Number` as the hour |
| ClockLabels.SignedShape | public/js/customer.js:58-59 | `Number` reads a leading minus: "-D:MM suffix" reads as hour -D, minute MM and that suffix |
| ClockLabels.SignedHour | public/js/customer.js:58-60 | "-3:00 PM" reads as hour -3, and the PM rule makes it 9:00 |
| ClockLabels.To24 | public/js/customer.js:60-61 | a 12-hour hour with AM becomes 0 to 11, with PM 12 to 23, and without a suffix stays as it is |
| ClockLabels.LabelShape | public/js/schedule.js:74 | a label of an hour and minute below 100 is two digits, ":", two digits, a space and the suffix |
| ClockLabels.ParseShape | public/js/customer.js:58-59 | "hh:mm suffix" reads as hour hh, minute mm and that suffix |
| ClockLabels.ParseLabel | public/js/schedule.js:74 | a label written from an hour and minute below 100 reads back as that hour, minute and suffix |
| ClockLabels.ClientLabelRoundTrip | public/js/schedule.js:72-74 | a label written with `h % 12 \|\| 12` and AM/PM reads back, through `toTs`' conversion, as minute h*60+m of the day |
| ClockLabels.LabelRoundTrip | public/js/fleet.js:84-87 | the fleet page's `toTs` reads a booking page label back to its minute of the day |
| ClockLabels.To24OfClientHour | public/js/customer.js:60-61 | the 12-hour conversion (PM below 12 adds 12, 12 AM is 0) inverts the label's hour for every hour of the day |
| ClockLabels.To24Inverse | public/js/fleet.js:86-87 | every 12-hour hour with AM or PM converts to an hour of the day that labels back to the same hour and suffix |
| ClockLabels.ServerHourAgrees | server.js:457 | the servers' hour formula (12 stays, above 12 subtracts 12) agrees with `h % 12 \|\| 12` from 1 to 23 |
| ClockLabels.ServerLabelRoundTrip | mainServer.js:338-340 | the servers' labels read back as minute h*60+m of the day |
| Slots.HourLabelShape | server.js:457-459 | the servers' label of an hour of the day is eight characters: the dial hour in two digits, ":00 " and AM or PM |
| Slots.HourlySlots | server.js:455-460 | the base list has 13 labels, the i-th being hour 9+i |
| Slots.HourLabelMinute | server.js:457-459 | an hourly label reads back as minute h*60 |
| Slots.HourlySlotsAscending | server.js:455-460 | the base list ascends in time from 09:00 AM to 09:00 PM |
| Slots.Without | server.js:466 | `slots.filter(s => !taken.includes(s))` keeps exactly the slots not taken |
| Slots.WithoutSorted | server.js:466 | removing taken slots keeps the order |
| Slots.Availability | server.js:455-469 | the availability is exactly the hourly labels from 9 to 21 not booked, ascending; a failed lookup returns all 13 in order |
| Slots.QuarterLabelShape | public/js/schedule.js:72-74 | every quarter label is eight characters with a space before its suffix |
| Slots.QuarterLabelAt | public/js/schedule.js:72-74 | the i-th quarter label is hour 9 + i/4, minute 15*(i%4), written as `h % 12 \|\| 12` and AM/PM |
| Slots.GenerateSlots | public/js/schedule.js:67-78 | `generateSlots` yields 49 labels, the i-th being the i-th quarter from 09:00 |
| Slots.QuarterLabelMinute | public/js/schedule.js:68-77 | the i-th label reads back as minute 540 + 15i |
| Slots.QuarterSlotsAscending | public/js/schedule.js:68-77 | the 49 labels ascend in time and end at 09:00 PM |
| Slots.AfterNow | public/js/schedule.js:169-173 | a slot is kept only when its hour reads |
| Slots.FilterAfterNow | public/js/schedule.js:168-174 | the same-day filter keeps exactly the slots strictly after now |
| Slots.AfterNowMeaning | public/js/schedule.js:169-173 | a label is kept exactly when its minute of the day is later than now's hour*60+minute |
| Slots.TimeOptions | public/js/schedule.js:163-178 | for another date all 49 labels are offered; for today exactly those strictly after now |
| Slots.WorkdayIffWeekday | public/js/schedule.js:85 | the loop's working days are exactly the dates whose `getDay()` is 1 to 5 |
| Slots.CountWorkdays | public/js/schedule.js:83-86 | the working days counted over a stretch of days are at most its length |
| Slots.ThirdWorkday | public/js/schedule.js:81-86 | the loop stops on the third Monday-to-Friday day after today, within five days |
| Slots.Tomorrow | public/js/schedule.js:84 | one `setDate(getDate() + 1)` step is the next calendar day |
| Slots.MinDate | public/js/schedule.js:80-88 | `minDate` is a weekday 1 to 5 days after today with exactly three weekdays counted, and its ISO text reads back as that date |
| Slots.NearDateIso | public/js/schedule.js:87 | a date at most five days after a date before year 9999 has an ISO text that reads back |
| Slots.FiveDaysHoldThreeWorkdays | public/js/schedule.js:83-86 | every five consecutive days hold at least three weekdays, so the loop ends |
| Slots.FewWorkdaysFewDays | public/js/schedule.js:83-86 | while fewer than three weekdays are counted, fewer than five days have passed |
| Appointments.DaysUntil | server.js:615-617 | the whole days from today to the appointment's date, defined exactly when the date reads as a calendar date |
| Appointments.TooLate | server.js:615-617 | the server refuses exactly an appointment whose date reads as a calendar date on or before today |
| Appointments.CancelButtonShown | public/js/customer.js:108-112 | the page shows the button only for an appointment the server does not refuse as too late |
| Appointments.ButtonMeansLaterDay | public/js/customer.js:108-112 | the cancel button shows exactly when the appointment's date is a later day than today |
| Appointments.ButtonAgreesWithServer | public/js/fleet.js:143-146 | whenever the page shows the button the server accepts the deadline; they differ only for a date that does not read |
| Appointments.Timestamp | public/js/customer.js:57-64 | `toTs` is defined only for a schedule with a readable date and a time |
| Appointments.TimestampOfParts | public/js/fleet.js:83-91 | `toTs` is the date's day number in minutes plus the time's minute of the day |
| Appointments.DayOf | public/js/customer.js:62 | the day of a schedule is its date read as a calendar date |
| Appointments.Combine | public/js/customer.js:62 | `setHours` on the date: day number times 1440 plus the minute, when both are known |
| Appointments.FirstLeast | public/js/customer.js:56 | the first position holding a least key: nothing is before it and every earlier key is after it |
| Appointments.FirstLeastUnique | public/js/customer.js:56 | there is only one such position |
| Appointments.Timestamps | public/js/customer.js:56 | the keys of the sort are the schedules' `toTs` |
| Appointments.Related | public/js/customer.js:53-55 | the related schedules are exactly those booking the vehicle |
| Appointments.NextAppointment | public/js/customer.js:53-56 | the next appointment is a schedule booking the vehicle with no earlier one, an unreadable timestamp ranking after every readable one, and, as the stable sort's head, every schedule before it in stored order is strictly later; none exactly when no schedule books it |
| Appointments.FirstMatch | server.js:673 | `findIndex` by date: the first record with the given time, or none when none has it |
| Appointments.Flipped | server.js:675-679 | only the `archived` flag of the chosen record is negated; every other record and field stays |
| Appointments.ToggleTwice | server.js:673-679 | toggling the same date twice restores the records |
| Appointments.ToggleArchive | server.js:665-685 | no date is 400; unknown customer or unmatched date is 404 and changes nothing; otherwise only the first match's flag is negated (mainServer.js:475-497 is identical) |
| ApiServer.IntervalsRoundTrip | server.js:233-235 | a list of printed integers, and a single printed integer, convert back to those integers |
| ApiServer.NumberOrZero | server.js:239 | `Number(v) \|\| 0` is non-zero only as the number `v` reads as |
| ApiServer.Normalise | server.js:233-250 | brand, model, plate, VIN, engine and color default to ""; the intervals are numbers and `interval` and `baseInterval` the first or 0; `year` is `Number(year) || 0` and non-zero only as the number sent; mileage starts at 0 |
| ApiServer.SingleIntervalWrapped | server.js:233-235 | a single interval value becomes a one-element list and the interval |
| ApiServer.FindVehicle | server.js:484 | the vehicle found has the id; none means no profile vehicle has it |
| ApiServer.ProfileInfo | server.js:491-499 | with the vehicle in the profile, its brand, model and plate, each "" when missing; without it, all three "" |
| ApiServer.Booked | server.js:483-503 | one booked vehicle per requested one, in order, with its ids, oil, price, filters and address, and the description `ProfileInfo` finds for its id |
| ApiServer.FindVehicleUnique | server.js:483 | with the profile's vehicle ids distinct, as subdocument ids are, looking a vehicle up by its id finds it |
| ApiServer.BookedCopiesProfile | server.js:483-499 | each booked vehicle carries the brand, model and plate of the profile vehicle with its id, "" for a missing or empty field |
| ApiServer.NewSchedule | server.js:475-521 | an unknown user is 404, an invalid id 500; otherwise the document starts confirmed, unpaid, unprocessed, not secured, not reserved, carries the profile's name and e-mail, the request's date, time, total and client address, and as vehicles exactly `Booked` of the requested ones against the profile |
| ApiServer.ReplyText | server.js:375-384 | a matched answer is sent prefixed with the robot; without one, the default only on the customer's first message |
| ApiServer.DefaultOnlyFirst | server.js:377-380 | without a match a reply goes out exactly when the conversation had no customer message before |
| ApiServer.ChatSend | server.js:339-399 | an invalid session is 401 and changes nothing; otherwise the message is appended, the conversation unarchived, and the reply appended when there is one |
| ApiServer.ServiceName | server.js:639 | the service's name, or "Servicio desconocido"; never empty |
| ApiServer.Entry | server.js:637-646 | the record is dated now, not archived, with the service name; brand and model from the profile or "Desconocido", never empty, and the plate or "" |
| ApiServer.Entries | server.js:628-652 | one record per vehicle of the schedule, in order, all dated now and not archived |
| ApiServer.CancelStatus | server.js:600-625 | 200 exactly for a valid id of the user's own schedule not too late whose owner has a profile; an invalid id or a date too late is 400, an unknown id 404, another user's schedule 403, a missing profile 404 |
| ApiServer.ButtonLeadsToSuccess | server.js:615-618 | a cancellation the page offers is accepted |
| ApiServer.Cancel | server.js:598-662 | a refusal changes nothing; success appends one record per vehicle to the owner and deletes the schedule |
| MainServer.IntervalsRoundTrip | mainServer.js:190-191 | a list of printed integers, and a single printed integer wrapped as a list, convert back to those integers |
| MainServer.Normalise | mainServer.js:189-199 | text fields are kept as sent, `year` is `+v.year`, `interval` and `baseInterval` the first number or 0 |
| MainServer.IntervalsAgree | mainServer.js:190-198 | both servers derive the same interval; their lists differ only for a missing single value |
| MainServer.Booked | mainServer.js:373-391 | one booked vehicle per requested one, in order, with its ids, oil, price and description; `airFilter` and `cabinFilter` are the booleans `!!v` and `serviceAddress` falls back to the client address |
| MainServer.NewSchedule | mainServer.js:353-397 | unknown user 404; a vehicle or service id `new ObjectId` rejects 500; otherwise unconfirmed, unprocessed, not on route, started or finished, reason "awaiting Reason", with the profile's name and e-mail, the request's date, time, total and client address, and as vehicles exactly `Booked` of the requested ones with the client address as fallback |
| MainServer.NewScheduleBooksRequested | mainServer.js:373-376 | on both servers a new schedule books a vehicle id if and only if the request names it |
| MainServer.InitialFlagsCompared | mainServer.js:371-392 | the two servers disagree on `confirmed` and on the presence of `paid` and `reason` |
| MainServer.Entry | mainServer.js:455-463 | the record copies the booked vehicle's description, dated now and not archived |
| MainServer.Entries | mainServer.js:453-465 | one record per vehicle of the schedule, in order |
| MainServer.CancelStatus | mainServer.js:439-451 | 200 exactly for a valid id of the user's own schedule a day or more ahead |
| MainServer.CancelStatusCompared | mainServer.js:437-451 | the servers' answers differ exactly when the owner has no profile |
| MainServer.Cancel | mainServer.js:437-473 | a refusal changes nothing; success appends one record per vehicle (when the owner has a profile) and deletes the schedule |
| ProfilePages.Redirect | public/js/customer.js:15-18 | a page that redirects sends the account to the other page (also public/js/fleet.js:31-34) |
| ProfilePages.Landing | public/js/fleet.js:31-34 | the landing page does not redirect the account, and every page either renders or redirects straight to it |
| ProfilePages.NoRedirectLoop | public/js/customer.js:15-18 | a redirect never leads to a second one, and exactly the landing page renders |
| ProfilePages.CustomerDenied | public/js/customer.js:35 | no spelling of "awaiting reason" is a denial on the customer page |
| ProfilePages.FleetDenied | public/js/fleet.js:57-59 | a denial on the fleet page always holds a character that is not white space |
| ProfilePages.AwaitingSpellingTrimmed | public/js/customer.js:35 | a spelling of "awaiting reason" has no white space around it |
| ProfilePages.DeniedAgreeWhenTrimmed | public/js/fleet.js:57-59 | for a reason without surrounding spaces both pages agree on a denial |
| ProfilePages.DeniedDifference | public/js/fleet.js:57-59 | only the customer page denies a blank reason, and only the fleet page denies a spelling of "awaiting reason" with white space around it; nothing else separates them |
| ProfilePages.DeniedDisagreements | public/js/customer.js:35 | they disagree on " awaiting reason " and on a blank reason |
| ProfilePages.AwaitingReasonIsNoDenial | mainServer.js:371 | the initial reason "awaiting Reason" is no denial on either page |
| ProfilePages.FirstDenied | public/js/customer.js:35-38 | the notice shows the first schedule whose reason is a denial, and none when no reason is |
| ProfilePages.NoteText | public/js/customer.js:66-68 | without an appointment the note says "Sin cita" (fleet: "No appointment"); with one it shows the localised date, and the time as the template prints it |
| ProfilePages.NoAppointmentIff | public/js/customer.js:66-68 | the note says "Sin cita" exactly when no schedule books the vehicle |
| ProfilePages.CancelButton | public/js/customer.js:108-120 | a card has a button exactly when its next appointment exists and is a later day |
| ProfilePages.ButtonIsHonoured | public/js/fleet.js:143-153 | the button's schedule books the vehicle and the server accepts its deadline |
| ProfilePages.MileageText | public/js/customer.js:76 | the odometer has at least six characters, "000000" with no mileage |
| ProfilePages.MileageTextExact | public/js/customer.js:76-77 | a mileage below a million renders as six digits whose value it is |
| ProfilePages.EditMilage | public/js/customer.js:217-223 | the prompt is accepted exactly when `parseInt` reads a number that is not negative |
| ProfilePages.EditOdometerRoundTrip | public/js/fleet.js:246-252 | typing back what the odometer shows gives the same mileage |
| ProfilePages.WithFlag | public/js/customer.js:131 | the filtered records are exactly those whose flag equals the checkbox |
| ProfilePages.Insert | public/js/customer.js:137 | inserting keeps the list newest first and adds exactly the one record |
| ProfilePages.InsertStable | public/js/customer.js:137 | the inserted record goes ahead of the records of its date, and the records of every date keep their order |
| ProfilePages.SortNewestFirst | public/js/customer.js:137 | the sort is newest first and a permutation |
| ProfilePages.SortStable | public/js/customer.js:137 | the sort is stable: records of one date keep their stored order |
| ProfilePages.Shown | public/js/fleet.js:166-174 | the list shown is newest first, holds exactly the records with that flag, and keeps records of one date in their stored order |
| ProfilePages.EmptyMessageIff | public/js/customer.js:131-135 | the "no cancellations" message shows exactly when no record has that flag |
| ProfilePages.ListsPartition | public/js/fleet.js:166 | the two lists together hold each record exactly once |
| ProfilePages.CustomerChat.constructor | public/js/customer.js:4 | the widget starts closed, with no count, mark or badge |
| ProfilePages.CustomerChat.LoadChat | public/js/customer.js:290-301 | the badge shows the new message count only when it is positive and the panel closed, and `prevCount` becomes the count |
| ProfilePages.CustomerChat.ToggleHeader | public/js/customer.js:308-312 | the header flips the panel; opening clears the unread mark |
| ProfilePages.CustomerChat.Close | public/js/customer.js:314-318 | the close button closes the panel and keeps the rest |
| ProfilePages.FleetChat.constructor | public/js/fleet.js:5 | the widget starts closed with no count and no mark |
| ProfilePages.FleetChat.LoadChat | public/js/fleet.js:319-321 | the mark is added only when the count grew and the panel is closed; `prevCount` becomes the count |
| ProfilePages.FleetChat.OnConversationUpdate | public/js/fleet.js:13-18 | a socket update reloads the chat and marks a closed panel |
| ProfilePages.FleetChat.ToggleHeader | public/js/fleet.js:325-329 | the header flips the panel; opening clears the mark |
| ProfilePages.FleetChat.Close | public/js/fleet.js:330-334 | the close button closes the panel and keeps the mark |
| SchedulePage.IdOf | public/js/schedule.js:63-65 | `_id.$oid` when present and non-empty, else `_id`, else "" |
| SchedulePage.IdOfIdempotent | public/js/schedule.js:63-65 | applying `idOf` twice is applying it once |
| SchedulePage.IdOfForms | public/js/schedule.js:63-65 | an extended id and its plain text give the same id |
| SchedulePage.FindService | public/js/schedule.js:181 | the service found has the chosen id; none when no service has it |
| SchedulePage.FlatPriceFallback | public/js/schedule.js:184-188 | without a non-zero range price, Blend is charged `priceFrom` and every other oil `priceTo` |
| SchedulePage.UpdatePrice | public/js/schedule.js:180-192 | 0 without a service or an oil; otherwise the base price plus 25 for the air filter and 20 for the cabin filter |
| SchedulePage.FilterSurcharges | public/js/schedule.js:189-190 | each filter adds exactly its surcharge, independently of the other |
| SchedulePage.RangePriceCharged | public/js/schedule.js:186 | a non-zero range price wins over the flat price |
| SchedulePage.EditableRows | public/js/schedule.js:229-230 | the rows sent are exactly those without disabled inputs |
| SchedulePage.EditableRowsAppend | public/js/schedule.js:229-230 | the filter keeps table order: the rows sent from two parts of the table are those of the first followed by those of the second |
| SchedulePage.AddressOr | public/js/schedule.js:241 | a typed address is sent trimmed, never empty and with no white space around it; a blank one falls back to the profile's address |
| SchedulePage.SentPriceOfRow | public/js/schedule.js:243 | a row sends 0 until a known service and an oil are chosen or when the base price is missing, and otherwise the base price plus 2500 and 2000 cents for the filters |
| SchedulePage.TotalAppend | public/js/schedule.js:251 | the `reduce` total distributes over concatenation |
| SchedulePage.TotalBounds | public/js/schedule.js:251 | with no negative price, the total is at least each vehicle's price |
| SchedulePage.TotalNonNegative | public/js/schedule.js:251 | with no negative price, the total is not negative |
| SchedulePage.BuildPayload | public/js/schedule.js:227-253 | no body exactly when every row is disabled; otherwise one vehicle per editable row (as `Sent`, with the description the vehicle list holds for it), the first row's date and time, and the sum of the prices as total |
| SchedulePage.Sent | public/js/schedule.js:233-244 | a row sends its ids, choices, address (typed or the profile's), the price shown, and the description `InfoOf` finds for its vehicle |
| SchedulePage.InfoOf | public/js/schedule.js:242 | the description of the listed vehicle with the row's id; an empty description `{}` when no listed vehicle has the row's id |
| SchedulePage.InfoOfFirst | public/js/schedule.js:242 | `find` stops at the first match: the description is the first matching vehicle's, or `{}` when it has none |
| SchedulePage.InfoOfListed | public/js/schedule.js:242 | with distinct ids on the list, a row sends its own vehicle's description |
| SchedulePage.PayloadVehicleIds | public/js/schedule.js:229-244 | a vehicle id is sent exactly when an editable row holds it |
| SchedulePage.BookedVehiclesNotResent | public/js/schedule.js:114-119 | no vehicle already booked by a schedule is sent again |
| SchedulePage.TotalCoversEachVehicle | public/js/schedule.js:251 | the total covers each vehicle's price |
| AdminChat.LastOfficeEnd | public/js/chatbot.js:39-43 | the position after the last office message: no office message follows it |
| AdminChat.Pending | public/js/chatbot.js:37-45 | the pending count is at most the messages after the last office message |
| AdminChat.GetPendingCount | public/js/chatbot.js:37-45 | the backward loop counts exactly the customer messages after the last office message, skipping other senders |
| AdminChat.PendingAfterCustomer | public/js/chatbot.js:41 | a new customer message adds one to the pending count |
| AdminChat.PendingAfterOffice | public/js/chatbot.js:42 | an office message resets the pending count to 0 |
| AdminChat.LoadedBadges | public/js/chatbot.js:48-53 | in a freshly loaded list an item shows a badge exactly when customer messages wait after the office's last reply, and the badge shows their number |
| AdminChat.InView | public/js/chatbot.js:76-80 | the active view lists exactly the conversations not archived; with an empty term the archived view lists exactly the archived ones |
| AdminChat.Visible | public/js/chatbot.js:76-80 | the active view lists only open conversations, the archived view only archived ones whose lower-cased name contains the term |
| AdminChat.EmptyTermListsAllArchived | public/js/chatbot.js:80 | with an empty term the archived view lists every archived conversation |
| AdminChat.FindConv | public/js/chatbot.js:111 | `find` by id: the first conversation with that id, or none |
| AdminChat.SelectedList | public/js/chatbot.js:111-112 | selecting resets that conversation's counter and changes nothing else |
| AdminChat.ArchivedList | public/js/chatbot.js:161-162 | archiving sets that conversation's flag and changes nothing else |
| AdminChat.ArchivingLeavesActiveView | public/js/chatbot.js:154-167 | with distinct ids, the archived conversation no longer appears in the active view |
| AdminChat.ArchiveDisabled | public/js/chatbot.js:101 | an enabled archive button always has an open conversation of the active view to archive |
| AdminChat.LoadedList | public/js/chatbot.js:195-198 | a loaded list sets each counter to its pending count |
| AdminChat.FirstActive | public/js/chatbot.js:201 | the first conversation that is not archived, or none when all are |
| AdminChat.MergedList | public/js/chatbot.js:207-227 | a known conversation is replaced keeping its counter, plus one for a customer message to a closed conversation; an unknown one is prepended with 1 or 0 |
| AdminChat.UpdateKeepsPendingCount | public/js/chatbot.js:212-220 | a counter that equals the pending count still does after a customer message to a closed conversation |
| AdminChat.OpenConversationStaysRead | public/js/chatbot.js:218-220 | the open conversation's counter does not grow on updates |
| AdminChat.AdminPanel.constructor | public/js/chatbot.js:6-9 | the panel starts empty, in the active view, with nothing open and no search term |
| AdminChat.ItemsAgree | public/js/chatbot.js:87-95 | under the panel's invariant the open item is never unread, an item is unread exactly when it has a badge and is not open, and an item without a badge has no unread message |
| AdminChat.AdminPanel.SetView | public/js/chatbot.js:58-62 | the view selector changes only the view |
| AdminChat.AdminPanel.SetSearch | public/js/chatbot.js:64-67 | the search term becomes the input lower-cased |
| AdminChat.AdminPanel.Select | public/js/chatbot.js:107-117 | the conversation becomes the open one and its counter is 0 |
| AdminChat.AdminPanel.Archive | public/js/chatbot.js:154-167 | without a selection nothing changes; otherwise that conversation is archived and the selection cleared |
| AdminChat.AdminPanel.OnList | public/js/chatbot.js:193-205 | the list is loaded with pending counts; in the active view with nothing open the first open conversation is selected |
| AdminChat.AdminPanel.OnUpdate | public/js/chatbot.js:207-232 | an update is merged into the list and nothing else changes |
| OfficeChat.Flagged | public/js/office_chat.js:51-55 | a conversation whose count is recorded at its message count is not flagged, and a flagged one is in the active view and not open |
| OfficeChat.ItemOf | public/js/office_chat.js:49-65 | the new-message dot is exactly `Flagged`, so never on the open conversation or in the archived view |
| OfficeChat.Rendered | public/js/office_chat.js:38-72 | the items are exactly those of the conversations in view |
| OfficeChat.RenderedAppend | public/js/office_chat.js:38-72 | rendering keeps list order: the items of two parts of a list are those of the first followed by those of the second |
| OfficeChat.Marked | public/js/office_chat.js:67 | a listed conversation's `_lastCount` becomes its message count; nothing else changes |
| OfficeChat.MarkedAllIdempotent | public/js/office_chat.js:41-69 | recording the counts a second time changes nothing |
| OfficeChat.NothingFlaggedWhenCounted | public/js/office_chat.js:51-55 | with every listed count recorded, no item is flagged |
| OfficeChat.SecondRenderingFlagsNothing | public/js/office_chat.js:67 | a rendering right after another flags nothing |
| OfficeChat.FindConv | public/js/office_chat.js:140 | `findIndex` by id: the first conversation with that id, or none |
| OfficeChat.LoadedList | public/js/office_chat.js:131 | a loaded list records every conversation's message count |
| OfficeChat.LoadedListFlagsNothing | public/js/office_chat.js:130-136 | the rendering after a list load flags nothing |
| OfficeChat.FirstActive | public/js/office_chat.js:133 | the first conversation that is not archived, or none when all are |
| OfficeChat.MergedList | public/js/office_chat.js:139-145 | a known conversation is replaced keeping its `_lastCount`; an unknown one is prepended with its count minus one |
| OfficeChat.UpdateFlagsGrowth | public/js/office_chat.js:142 | after an update, a listed conversation is flagged exactly when it gained messages since the last rendering |
| OfficeChat.NewConversationFlagged | public/js/office_chat.js:144 | a new open conversation that is not current is rendered first and flagged |
| OfficeChat.OfficePanel.constructor | public/js/office_chat.js:2-5 | the panel starts empty, in the active view, with nothing open and no search term |
| OfficeChat.OfficePanel.Render | public/js/office_chat.js:38-72 | the items are those of the state before, and every listed count is recorded |
| OfficeChat.OfficePanel.Select | public/js/office_chat.js:74-79 | the conversation becomes the open one and the list is rendered |
| OfficeChat.OfficePanel.SetView | public/js/office_chat.js:21-25 | the view changes and the list is rendered |
| OfficeChat.OfficePanel.SetSearch | public/js/office_chat.js:27-30 | the term becomes the input lower-cased and the list is rendered |
| OfficeChat.OfficePanel.Archive | public/js/office_chat.js:101-114 | without a selection nothing changes; otherwise that conversation is archived, the selection cleared and the list rendered |
| OfficeChat.OfficePanel.OnList | public/js/office_chat.js:130-137 | the list is loaded with recorded counts; in the active view with nothing open the first open conversation is selected |
| OfficeChat.OfficePanel.OnUpdate | public/js/office_chat.js:139-148 | the update is merged and the list rendered |
| Registration.YearOptions | public/js/login_registration.js:112 | 39 years from 2026 down to 1988 |
| Registration.YearOptionsRange | public/js/login_registration.js:112 | the list is strictly descending and offers exactly the years 1988 to 2026 |
| Registration.Tabs.constructor | public/js/login_registration.js:9-21 | the form starts with exactly one tab active, its form with it, the state both click handlers keep |
| Registration.Tabs.ClickRegister | public/js/login_registration.js:9-14 | the register tab and form become active and the login pair inactive |
| Registration.Tabs.ClickLogin | public/js/login_registration.js:16-21 | the login tab and form become active and the register pair inactive |
| Registration.VehicleBlocks.constructor | public/js/login_registration.js:24 | the counter starts at 0 with no block |
| Registration.VehicleBlocks.SetAccountType | public/js/login_registration.js:28-31 | the account type changes and the blocks do not |
| Registration.VehicleBlocks.Add | public/js/login_registration.js:34-40 | a block is added exactly when the account is Fleet or the counter is below 4; it takes the old counter as index and the counter grows by one; a refused add changes nothing |
| Registration.VehicleBlocks.Remove | public/js/login_registration.js:156-159 | removing a block drops it and decrements the counter |
| Registration.ReusedIndex | public/js/login_registration.js:40 | three adds, removing the first block, then an add give blocks numbered 1, 2, 2 |
| Registration.NumberedVehicleBlocks.constructor | public/js/login_registration.js:24 | no block, counter and next index 0 |
| Registration.NumberedVehicleBlocks.SetAccountType | public/js/login_registration.js:28-31 | the account type changes and the blocks do not |
| Registration.NumberedVehicleBlocks.Add | public/js/login_registration.js:34-40 | as `Add`, but the index comes from a counter that never goes down, so the indices stay distinct |
| Registration.NumberedVehicleBlocks.Remove | public/js/login_registration.js:156-159 | removing drops the block and decrements the vehicle count, and keeps the next index |
| Registration.DistinctIndices | public/js/login_registration.js:40 | the same sequence of clicks gives distinct indices 1, 2, 3 |
| FleetNotifier.Posted | fleetNotifier-Message/fleetNotifier.js:18-31 | one office message without image is appended to the user's conversation, created unarchived when missing; every other conversation stays |
| FleetNotifier.SendMessage | fleetNotifier-Message/fleetNotifier.js:17-35 | the conversations become `Posted` and no other collection changes |
| FleetNotifier.HasInvoice | fleetNotifier-Message/fleetNotifier.js:99 | `invoiceId: { $exists: true, $ne: "" }` holds exactly for a present id that is not the empty text |
| FleetNotifier.Selected | fleetNotifier-Message/fleetNotifier.js:41-44 | a pass selects only Fleet schedules; the processed pass only processed ones, the invoice pass only ones with an invoice id (also lines 73-77 and 97-101) |
| FleetNotifier.Mark | fleetNotifier-Message/fleetNotifier.js:60-63 | a flagged schedule is no longer selected by its own pass and other passes select it as before |
| FleetNotifier.MarkAllSelection | fleetNotifier-Message/fleetNotifier.js:60-63 | flagging a set of ids takes exactly those ids out of the pass's selection and leaves the other passes' selections alone |
| FleetNotifier.AfterPass | fleetNotifier-Message/fleetNotifier.js:41-63 | after a pass no schedule is selected by it and the ids are kept |
| FleetNotifier.VehicleDescription | fleetNotifier-Message/fleetNotifier.js:47-48 | the first vehicle's oil type, or the fallback text; never empty |
| FleetNotifier.Address | fleetNotifier-Message/fleetNotifier.js:49 | the vehicle's address, else the client address, else "Dirección no especificada" |
| FleetNotifier.PendingText | fleetNotifier-Message/fleetNotifier.js:47-56 | the pending message shows the date and time as the template prints them, the address, and the total in dollars |
| FleetNotifier.PendingLayout | fleetNotifier-Message/fleetNotifier.js:51-56 | the laid-out message includes the date, time, address and total it is given |
| FleetNotifier.InvoiceText | fleetNotifier-Message/fleetNotifier.js:104-111 | the invoice message shows the id between asterisks and the PayPal link ending in that id |
| FleetNotifier.PostAllAppends | fleetNotifier-Message/fleetNotifier.js:46-66 | a pass appends to each user's conversation exactly the messages for that user's schedules, in order |
| FleetNotifier.Notify | fleetNotifier-Message/fleetNotifier.js:40-67 | a pass sends one message per selected schedule in query order and flags exactly those (also lines 72-91 and 96-122) |
| FleetNotifier.NotifyOne | fleetNotifier-Message/fleetNotifier.js:58-63 | one schedule's message is sent and then its flag set |
| FleetNotifier.Run | fleetNotifier-Message/fleetNotifier.js:127-140 | nothing happens when not ready; otherwise the pending, processed and invoice passes run in that order |
| FleetNotifier.RunSchedules | fleetNotifier-Message/fleetNotifier.js:133-136 | a run keeps the schedule ids |
| FleetNotifier.PassKeepsOtherSelections | fleetNotifier-Message/fleetNotifier.js:43 | a pass's flag does not change what another pass selects |
| FleetNotifier.RunLeavesNothingSelected | fleetNotifier-Message/fleetNotifier.js:127-140 | after a run no pass selects anything and another pass changes nothing |
| FleetNotifier.SecondRunSendsNothing | fleetNotifier-Message/fleetNotifier.js:43 | a second run with no change in between sends no message |
| FleetNotifier.NonFleetUntouched | fleetNotifier-Message/fleetNotifier.js:42 | a user without Fleet schedules gets no message and its schedules are not changed |
| CompletedMover.EntryOf | MicroServicios/Completed-mover/server.js:45-54 | the history entry copies id, customer, email, completer, date, time and mileage (null when missing) with the moment of the move |
| CompletedMover.CompletedIds | MicroServicios/Completed-mover/server.js:28 | exactly the documents with `Completed: true` |
| CompletedMover.MovedSeq | MicroServicios/Completed-mover/server.js:35-38 | the ids moved are exactly those of the order the target lacks |
| CompletedMover.Cap | MicroServicios/Completed-mover/server.js:57 | the history is cut to its first 50 entries: a prefix of it, the whole when it has at most 50 |
| CompletedMover.ReverseInvolution | MicroServicios/Completed-mover/server.js:45 | reversing twice gives the entries back |
| CompletedMover.CapCons | MicroServicios/Completed-mover/server.js:57 | dropping the tail before or after putting an entry first comes to the same |
| CompletedMover.Recorded | MicroServicios/Completed-mover/server.js:45-57 | recording into a history of at most 50 keeps it at most 50 |
| CompletedMover.RecordedIsNewestFirst | MicroServicios/Completed-mover/server.js:45-57 | the history after a run is the newest 50 of the moved entries (newest first) and the old history |
| CompletedMover.MoveKeepsTarget | MicroServicios/Completed-mover/server.js:36-40 | documents already in the target are never overwritten, and every moved document arrives with its source content |
| CompletedMover.MovedOneMore | MicroServicios/Completed-mover/server.js:40-42 | one more move inserts that document into the target and deletes it from the source |
| CompletedMover.MoveOutcome | MicroServicios/Completed-mover/server.js:28-42 | a document is moved exactly when it is completed and the target lacks it |
| CompletedMover.Mover.constructor | MicroServicios/Completed-mover/server.js:15 | the history starts empty |
| CompletedMover.Mover.Move | MicroServicios/Completed-mover/server.js:19-67 | no completed document changes nothing; otherwise the target gains exactly the moved documents, the source loses them, and each is put first in the history capped at 50 |
| CompletedMover.Mover.MoveIfAbsent | MicroServicios/Completed-mover/server.js:36-60 | a document is moved only when the target lacks its id |
| CompletedMover.Mover.MoveOne | MicroServicios/Completed-mover/server.js:40-57 | the document is inserted into the target, deleted from the source, and put first in the history, whose last entry is dropped beyond 50 |

## Left out

- Database, socket and HTTP plumbing: queries, `populate`, aggregation, ChangeStream watchers, Socket.IO emits, Express routing, sessions and uploads are state updates on the `Store` or parameters; the emits themselves are not modelled.
- Error paths of `try`/`catch` that only log (a thrown exception inside a handler or worker) are not modelled, except where the model needs the status: an id that `new ObjectId` rejects is the 500 of `ApiServer.NewSchedule`.
- The bot's pattern matching (server.js:362-373) depends on JavaScript regular expressions; the matched answer is a parameter of `ApiServer.ChatSend`.
- PayPal order creation, e-mail sending and the welcome message are calls into remote services and are left out; the Customer branch of `POST /api/schedule` ends at the inserted document.
- Floating point: prices, totals and the 30% `offerPrice` are whole cents; `toFixed` and `parseFloat` formatting and `offerPrice` are not modelled.
- Locale and clock: `toLocaleDateString` is a parameter of `ProfilePages.NoteText`, and "today" and "now" are parameters of every member that reads the clock.
- DOM rendering, modals, emoji insertion, `linkify`, `renderMessages` and the image modal are not modelled; the chat panels model the list state and the items it renders.
- Timers and cron scheduling (`setInterval`, node-cron) are not modelled; each worker run is one call.
- The order in which MongoDB returns documents is a parameter (`IsOrderOf`): the model holds for every such order.
- Message timestamps (`at`) and the image URL of uploaded chat images are not modelled beyond the `imageUrl` text.
- CompletedMover.Mover.Move: all history entries of one run carry the same `movedAt`, where the source reads the clock once per document.
- Common.ToLower: only A-Z are lower-cased; other Unicode case mappings are not modelled.
- Records.ObjectIdShapes: `ObjectId.isValid` is modelled as bson 4 and 5 define it, counting characters where bson 5 counts the UTF-8 bytes of a twelve-character text; bson 6 accepts only 24 hexadecimal digits, and the repository pins no driver version. Under bson 6 a twelve-character id gets 400 rather than 404 from `ApiServer.CancelStatus` (server.js:601-609), 401 from `ApiServer.ChatSend`, and 500 from both `NewSchedule`s; `Records.ObjectIdVersions` states where the two rules differ.
- ClockLabels.ParseClock: the pieces are read by `Records.NumberText`, so a sign is read; the "0x", "0o" and "0b" prefixes, fractions such as "3.5", and the Infinity and exponent forms that `Number` also accepts read as NaN.
- Records.ToNumber: the "0x", "0o" and "0b" prefixes, fractions, and the Infinity and exponent forms that `Number` accepts are not modelled and read as NaN.
- OfficeChat assumes the populated user has a `fullName` and `email`; the panel throws on a conversation without them and that failure is not modelled.
- Slots.MinDate: `toISOString` prints the UTC date, which is the day after the local date late in the evening west of UTC and the day before early in the morning east of it; the model prints the local calendar date.
- Appointments.DaysUntil counts calendar days; the source divides a difference of local midnights in milliseconds by 86400000, which across a daylight-saving change is a day of 23 or 25 hours and is not modelled.
- Appointments.ButtonMeansLaterDay holds for calendar days; the daylight-saving day described for `Appointments.DaysUntil` is not modelled.
- ApiServer.Entries: every record is dated with one `now`, where the source calls `new Date()` once per vehicle, so the records of one cancellation may differ by milliseconds.
- ApiServer.Cancel: the same single `now` as `ApiServer.Entries`.
- MainServer.Entries: the same single `now` as `ApiServer.Entries`.
- MainServer.Cancel: the same single `now` as `ApiServer.Entries`.
- FleetNotifier.PendingText prints the total from whole cents (`Decimal.CentsText`); a float total with a rounding error in its last digits is not modelled, and a customer name stored as `null` (printed "null") is modelled as missing ("undefined").
- ApiServer.ProfileInfo: `year`, `engine` and the two image URLs that server.js:495-499 also copy into `vehicleInfo` are not modelled; only brand, model and plate are.
- Appointments.NextAppointment ranks a missing or unreadable timestamp (NaN) after every readable one. The comparator `toTs(a) - toTs(b)` of public/js/customer.js:56 and public/js/fleet.js:82-91 returns NaN for such a pair, and `sort` reads NaN as "equal". So for the schedules [undated, dated] the page keeps the undated one first and shows "Invalid Date", where the model shows the dated one. With NaN keys, the order the engine's sort produces is not modelled. Through it, `ProfilePages.NoteText` and `ProfilePages.CancelButton` differ in the same case.
- Calendar.ParseIsoDate reads only ten-character "YYYY-MM-DD" texts whose day the month has. Node's `Date` rolls a day the month lacks over into the next month ("2026-02-30" is 2 March 2026) and also reads other forms such as "2026/10/15"; the model reads both as an invalid date. So on such a stored date `Appointments.TooLate` and `ApiServer.CancelStatus` (server.js:615) and the appointment timestamps differ from the source. The pages never send such a date.
- MainServer.Booked: the `year` and `engine` that mainServer.js:384-385 take from the profile vehicle, and the two image URLs it copies from the request (mainServer.js:386-387), are not modelled; only brand, model and plate are.
- SchedulePage.Sent sends a vehicle description with brand, model and plate only; the other fields of the listed vehicle's `vehicleInfo` object are not modelled.
- SchedulePage.BuildPayload: each sent vehicle's description is that of `SchedulePage.Sent`, so it holds brand, model and plate only.
- Slots.Availability: the 401 answer for a request without a session (server.js:453) is not modelled; the member starts after it.
- The registration form's fields other than the vehicle blocks, and the submission of the form, are not modelled.

## Findings

| source | as written | input that shows it | evidently intended | confidence | as-written member | corrected member |
|---|---|---|---|---|---|---|
| public/js/login_registration.js:40 | a block's index is the current `vehicleCount`, which the remove handler (lines 156-159) decrements, so a later block can reuse the index of a block still on the page and both submit under the same `vehicles[i]` field names | add three blocks (indices 0, 1, 2), remove the first, add again: the blocks left are numbered 1, 2, 2 | each block gets an index no other block on the page has | not executed | Registration.ReusedIndex | Registration.DistinctIndices |
