# Hotel front end: the rules under the pages

A model in Dafny of the pure rules of the griantek/Hotel_frontend Next.js
application. It leaves out the HTTP calls and the rendering and keeps:

- **Booking page.** The reservation form's update rules (`handleInputChange`, `addHours`,
  `calculateMinCheckoutDateTime`, the room-type lookup, `isTimeValid`), its validator
  `validateForm`, and the submit guard.
- **Modify page.** The same form with plain single-field updates, a weaker validator, the
  PATCH guard, and the precondition for the availability request.
- **Admin bookings list.** The search, status and "today" filters, the revenue of confirmed
  bookings, and the removal of a cancelled booking.
- **Admin room types.** The search, the edit and reset of the dialog form, and the choice
  between PATCH and POST.
- **Admin feedback list.** The search and the five rating stars.
- **Landing page.** The digit-only phone box and the ten-digit check with its `91` prefix.
- **Guest feedback form.** The rating buttons, the star highlighting, the submit guard and
  the submitting/submitted/error flags.
- **Error dialog.** The filter that lists only the validation messages that are set.

## How the model represents the program

**Dates and times.** A date is a calendar triple (`Calendar.CalendarDate`), ordered by its
day number since 0001-01-01 in the proleptic Gregorian calendar. A time of day is
`DateTime.Minutes` (0..1439). An instant is a count of milliseconds on that scale. The pages
compare the `YYYY-MM-DD` and `HH:MM` strings of `<input type="date">` and
`<input type="time">` (sections 2.3.5.2 and 2.3.5.4 of the WHATWG HTML Living Standard) with
`<`, `<=` and `===`. `DateTime.DateStringOrder`, `DateTime.TimeStringOrder` and
`DateTime.DateFieldOrder` prove that this string order is chronological order, because every
field is fixed-width and zero-padded. The rest of the model therefore compares numbers. An
empty date field is `None`, and it sorts before every date, as `""` does.

**The clock.** The current instant (`now`) and the current date (`today`) are parameters.

**Error objects.** A JavaScript error object is an ordered list of entries with distinct keys
(`ErrorMap`): assigning to an existing key keeps its place, and `undefined` is a key with no
message. Each page's messages form a datatype whose `Text()` is the exact string the page
shows.

**Updates.** Every page update is a pure function from the old state to the new one. Server
replies (availability, lookups, success or failure of a request) are inputs.

**Strings and prices.** Strings are `seq<char>`. `toLowerCase` is restricted to ASCII
letters. Prices are integer cents.

## Model

| member | source | states |
|---|---|---|
| DateTime.AddHoursText | app/booking/page.tsx:202-206 | on a valid `HH:MM` text, `addHours(s, n)` keeps the `:MM` part, replaces the hour by `(h + n) % 24` padded to two digits, and yields a valid time string |
| DateTime.TimeRoundTrip | app/booking/page.tsx:202-206 | formatting a time as `HH:MM` and reading it back gives the same time |
| DateTime.TimeStringCanonical | app/booking/page.tsx:202-206 | every valid time string is the formatting of the time it reads as, so strings and minutes correspond one to one |
| DateTime.TimeStringOrder | app/booking/page.tsx:178-182 | string `<` and `===` on `HH:MM` texts agree with `<` and `==` on minutes |
| DateTime.DateStringOrder | app/booking/page.tsx:168-171 | string `<` and `===` on `YYYY-MM-DD` texts (four-digit years) agree with day order and date equality |
| DateTime.DateFieldOrder | app/modify/page.tsx:192-193 | `<` on date-field texts, with empty fields, is exactly `DateBefore`: empty before filled, filled by day; text equality is field equality |
| DateTime.InstantOrder | app/booking/page.tsx:208-210 | instants built from a date and a time order by date first, then by time |
| Calendar.NextDate | app/booking/page.tsx:145-151 | the next calendar date is exactly one day later |
| Calendar.DayNumberOrder | app/booking/page.tsx:168-171 | day numbers order dates year, then month, then day, and equal day numbers mean equal dates |
| Booking.CalculateMinCheckout | app/booking/page.tsx:145-153 | the result is exactly 12 hours (720 minutes) after check-in, and on the next day exactly when check-in is at 12:00 or later |
| Booking.HandleInputChange | app/booking/page.tsx:160-194 | a non-check-in edit changes only its field; a check-in date edit resets check-in time to 14:00; after any check-in edit with a date, check-out is exactly check-in + 12 h; guest details never change; with no check-in date the same-day bump applies only when both dates are empty |
| Booking.RollBackIsOverridden | app/booking/page.tsx:164-191 | the check-out roll-back for a check-in date change never shows in the result: the 12-hour rule overwrites it, or its condition is false |
| Booking.NewCheckInDateGivesTwoAm | app/booking/page.tsx:164-190 | setting any check-in date gives check-out at 02:00 on the following day |
| Booking.HandleInputChangeIdempotent | app/booking/page.tsx:160-194 | applying the same edit twice gives the same form as applying it once |
| Booking.OnInputChange | app/booking/page.tsx:195-198 | the edited field's error becomes `undefined`, every other key keeps its value, and keys stay distinct |
| Booking.SelectRoom | app/booking/page.tsx:154-158 | the selection is the first room type with the chosen name, and none exactly when no room type has it |
| Booking.HandleRoomTypeChange | app/booking/page.tsx:154-158 | the form records the chosen room type and nothing else; the room type's error becomes `undefined` in place, as any edit through `handleInputChange` does (lines 195-198), and every other key keeps its value; the selected room type is the lookup's result |
| Booking.IsTimeValid | app/booking/page.tsx:133-138 | an empty date is valid; otherwise the instant must be strictly after `now` |
| Booking.ValidateForm | app/booking/page.tsx:212-280 | each key holds the message of its own failing rule (room type, check-in date, check-in in the past, check-out date, check-out before check-in by day, stay under 12 h with the same-day wording, guest count, blank name), no key is repeated, and every message is defined |
| Booking.SameDayRuleSubsumed | app/booking/page.tsx:249-260 | the two check-out time rules together fire exactly when the stay is shorter than 12 hours |
| Booking.CheckOutOrderRuleIsDayOrder | app/booking/page.tsx:255-264 | the cross-day order rule fires exactly when check-out is on an earlier day than check-in |
| Booking.ValidIffBookable | app/booking/page.tsx:277-279 | the error object is empty if and only if every booking rule holds |
| Booking.BookableIffNoVerdict | app/booking/page.tsx:212-280 | a form is bookable exactly when no rule fails for any field |
| Booking.MinimumStayRule | app/booking/page.tsx:249-264 | with both dates present, a stay of 12 h or more gets no check-out error, and any shorter stay, on one day or across days, gets a check-out time error |
| Booking.CheckInAtNow | app/booking/page.tsx:225-233 | a check-in at exactly `now` passes the validator but fails `isTimeValid` |
| Booking.TimeValidAgreesWithValidator | app/booking/page.tsx:133-138 | for every `now`: a check-in `isTimeValid` accepts never gets the "in the past" message (lines 231-232), one that gets the message fails `isTimeValid`, and they disagree only for a check-in at exactly `now` |
| Booking.HandleSubmit | app/booking/page.tsx:316-328 | the booking is posted exactly when the form is bookable and availability says available; an invalid form opens the dialog with exactly the error object `validateForm` stored (line 277), which is non-empty and fully defined |
| Forms.ApplyEdit | app/modify/page.tsx:150-155 | the named field takes the new value and every other field is kept |
| Forms.AvailabilityRequest | app/modify/page.tsx:162-174 | availability is requested exactly when room type and both dates are filled, with the room type, dates and times copied from the form (the booking page does the same at lines 284-297) |
| Modify.HandleChange | app/modify/page.tsx:150-160 | only the named field changes, with no check-out roll-forward; only that field's error becomes `undefined` |
| Modify.AssignmentsAt | app/modify/page.tsx:189-195 | after the five assignments, each date key holds the ordering message when its comparison fails, and the "required" message only when the date is missing but the comparison passes |
| Modify.ValidateForm | app/modify/page.tsx:185-199 | room type is required, check-in must be filled and not before today, check-out must be filled and on a later day; a missing date gets the ordering message; no key repeats |
| Modify.ValidIffModifiable | app/modify/page.tsx:197-198 | the error object is empty if and only if room type is set, check-in is today or later, and check-out is on a later day |
| Modify.EmptyCheckInShowsPast | app/modify/page.tsx:190-192 | an empty check-in date always ends with "Check-in date cannot be in the past" |
| Modify.CheckOutOnCheckInDayRejected | app/modify/page.tsx:191-195 | an empty check-out date, or one equal to check-in whatever the times, ends with "Check-out date must be after check-in date" |
| Modify.OnlyRoomAndDatesMatter | app/modify/page.tsx:185-199 | forms that agree on room type and dates get the same error object, so times, guest count, name, phone and notes are never checked |
| Modify.DateChecksAsStrings | app/modify/page.tsx:187-193 | the validator's day comparisons are exactly JavaScript's `<` and `<=` on the date texts |
| Modify.HandleSubmit | app/modify/page.tsx:197-214 | the PATCH is sent exactly when the form is valid and availability says available; it carries the stay, guest count and notes of the form; an invalid form is rejected with exactly the error object `validateForm` stored (line 197), which is non-empty and fully defined |
| Pages.BookableOnTwoDaysIsModifiable | app/modify/page.tsx:185-199 | a form the booking page accepts, with check-out on another day and `now` no earlier than the start of today, passes the modify rules too |
| Pages.SameDayStayOnlyBookable | app/modify/page.tsx:193-195 | a bookable same-day stay is never modifiable |
| Pages.ShortOvernightStayOnlyModifiable | app/booking/page.tsx:249-272 | the form with room type "Deluxe", check-in at 23:00 on any day from today on, check-out at 01:00 the next day, and no name or guest count, is modifiable but not bookable: it fails the 12-hour and guest-count rules |
| Pages.SentFormsWereQueried | app/booking/page.tsx:282-304 | a form either page would send (bookable, or modifiable, or one that reaches the booking POST or the PATCH) has a room type and both dates, so its availability was requested (the modify page does the same at app/modify/page.tsx:162-183) |
| Pages.InitialFormsRejected | app/booking/page.tsx:76-86 | the form the booking page starts with, and the modify page's (app/modify/page.tsx:103-113), pass neither page's rules and request no availability |
| AdminBookings.FilteredBookings | app/admin/bookings/page.tsx:121-141 | the list is an order-preserving sublist holding exactly the rows the filter keeps, each kept row as many times as in the full list and every other row not at all |
| AdminBookings.EmptyTermIgnoresDate | app/admin/bookings/page.tsx:122 | with an empty search term the date filter and today's date play no part, and status "all" keeps every row |
| AdminBookings.SearchThenStatusThenDate | app/admin/bookings/page.tsx:124-140 | with a search term the list is the search, status and date filters applied in turn |
| AdminBookings.RevenueCountsConfirmedOnly | app/admin/bookings/page.tsx:143-145 | revenue counts each confirmed row's price once and every other row as 0 |
| AdminBookings.ShownRevenueCountsKeptConfirmed | app/admin/bookings/page.tsx:143-145 | the revenue card sums the prices of the rows that are both kept by the filters and confirmed |
| AdminBookings.RevenueSplits | app/admin/bookings/page.tsx:143-145 | revenue adds up over consecutive parts of a list |
| AdminBookings.ConfirmCancel | app/admin/bookings/page.tsx:102-117 | no selection or id 0 does nothing; a successful delete drops exactly the rows with the selected id, in order, and closes the dialog; a failed one only sets "Failed to cancel booking" |
| AdminBookings.CancelUnknownIdKeepsRows | app/admin/bookings/page.tsx:114 | cancelling an id no row carries keeps the list as it was |
| AdminBookings.CancelKeepsOtherRows | app/admin/bookings/page.tsx:114 | every row with another id keeps its number of occurrences, and no row with the id is left |
| AdminRooms.FilteredRooms | app/admin/rooms/page.tsx:134-136 | the list is an order-preserving sublist holding exactly the room types whose name contains the term, ignoring case, each kept one as many times as in the full list |
| AdminRooms.EmptySearchKeepsAll | app/admin/rooms/page.tsx:134-136 | an empty search lists every room type |
| AdminRooms.HandleEdit | app/admin/rooms/page.tsx:105-113 | the room becomes the one being edited, its type, price and availability are copied unchanged, and the dialog opens |
| AdminRooms.ResetForm | app/admin/rooms/page.tsx:129-132 | nothing is being edited and the form is empty, with price and availability 0 |
| AdminRooms.SubmitRequest | app/admin/rooms/page.tsx:80-96 | a PATCH of the edited room's id when editing and a POST otherwise, never both, each carrying the form |
| AdminRooms.FinishSubmit | app/admin/rooms/page.tsx:97-102 | success closes the dialog and resets the form and changes nothing else, so an earlier error text stays on screen; failure only shows the server's error text, or "Operation failed" |
| AdminRooms.EditThenSave | app/admin/rooms/page.tsx:80-113 | saving after an edit patches that room with its own values, and the save after a successful one is a POST |
| AdminRooms.ResetUndoesEdit | app/admin/rooms/page.tsx:105-132 | reset after edit leaves no trace of the edit except the open dialog |
| AdminRooms.AvailabilityChip | app/admin/rooms/page.tsx:185 | the chip is "success" exactly when availability is above 0 |
| AdminFeedback.FilteredFeedback | app/admin/feedback/page.tsx:62-65 | the list is an order-preserving sublist holding exactly the items whose name or comment contains the term, ignoring case, each kept one as many times as in the full list |
| AdminFeedback.EmptySearchKeepsAll | app/admin/feedback/page.tsx:62-65 | an empty search lists every item |
| AdminFeedback.RenderStars | app/admin/feedback/page.tsx:75-88 | always five stars, star `i` filled exactly when `i < rating`, so the filled count is the rating clamped to 0..5 |
| Stars.StarRowCount | app/admin/feedback/page.tsx:79-81 | a row of `n` stars filled below `filled` has `filled` clamped to `0..n` filled stars |
| FeedbackForm.ApplyInput | app/feedback/page.tsx:109-132 | pressing star button `i` sets the rating to `i + 1` and changes nothing else, a press past the fifth button changes nothing, typing sets the comment to the typed text and changes nothing else, and a rating in 1..5 stays in range |
| FeedbackForm.InputsFromStart | app/feedback/page.tsx:10-14 | from the page as it opens, any star presses and typing leave the rating unset or in 1..5 and nothing submitted or being submitted |
| FeedbackForm.RatingStaysInRange | app/feedback/page.tsx:109-132 | from an unset or in-range rating, any sequence of star presses and comment edits keeps the rating unset or in 1..5 |
| FeedbackForm.StarHighlights | app/feedback/page.tsx:115-121 | star `n` is highlighted exactly when the rating is set and `n <= rating`, so exactly `rating` stars light up |
| FeedbackForm.StartSubmit | app/feedback/page.tsx:18-38 | with no rating or no booking id only "Rating and booking ID are required." is set and nothing is sent; otherwise the error is cleared, submitting starts and the rating, comment and booking id are posted |
| FeedbackForm.FinishSubmit | app/feedback/page.tsx:40-51 | submitting always ends; only an ok response marks the form submitted; a failed response shows its message or "Failed to submit feedback."; an unreachable server shows "An error occurred while submitting feedback." |
| FeedbackForm.SubmitAlwaysEnds | app/feedback/page.tsx:18-51 | every attempt ends with submitting off, submitted only after a sent request got an ok response, and an error otherwise |
| FeedbackForm.EnabledButtonSends | app/feedback/page.tsx:143-153 | with a rating from the buttons and a booking id, an enabled submit button always sends the request |
| PhoneEntry.HandleInputChange | app/page.tsx:63-70 | a digits-only value (empty included) replaces the number and clears the error; any other value changes nothing |
| PhoneEntry.PhoneStaysDigits | app/page.tsx:63-70 | starting from digits, typing any values keeps the number all digits and no longer than the longest accepted value |
| PhoneEntry.TypingFromStart | app/page.tsx:18-19 | from the empty box the page starts with, values of at most ten characters leave at most ten digits in the box |
| PhoneEntry.CheckPhone | app/page.tsx:22-33 | an empty number gets "Phone number is required." and a non-empty non-ten-digit one gets the 10-digit message, both with no request; exactly ten digits clear the error and look up `91` followed by the typed number, twelve digits in all |
| PhoneEntry.FormatPhoneRoundTrip | app/page.tsx:33 | the typed number is the suffix of the formatted one after `91`, so different numbers never format alike |
| PhoneEntry.Destination | app/page.tsx:34-60 | a known number leads to the modify page and an unknown one to the register page, both with the formatted number; a failed lookup leads nowhere |
| PhoneEntry.OnlyValidNumbersLeave | app/page.tsx:22-54 | only ten typed digits ever lead to another page |
| ErrorMap.Put | app/booking/page.tsx:195-198 | `obj[k] = v` sets `k` and keeps every other key's value; with distinct keys an existing `k` is overwritten at its own position and every other entry stays where it was, and a new `k` is appended at the end; keys stay distinct |
| ErrorMap.SetIf | app/modify/page.tsx:189-195 | a conditional assignment sets its key only when its condition holds and leaves every other key alone |
| ErrorNotification.ErrorMessages | components/ErrorNotification.tsx:10 | the listed entries are exactly those with a defined, non-empty message, in the object's order, never more than the object has |
| ErrorNotification.MessageListed | components/ErrorNotification.tsx:10-22 | every key with a non-empty message is listed with that message |
| ErrorNotification.NotListedWithoutMessage | components/ErrorNotification.tsx:10 | a key that is absent or holds `undefined` is not listed |
| ErrorNotification.DialogAfterValidation | app/booking/page.tsx:380-384 | straight after validation the dialog lists every booking message under its field, in the order the checks run |
| ErrorNotification.EditedFieldLeavesDialog | app/booking/page.tsx:195-198 | once a field is edited its error leaves the dialog, while every other field keeps its listed message |

## Left out

- HTTP and navigation are not modelled. This covers every axios and fetch call, the token
  checks and their redirects, the admin token in `localStorage`, `router.push` and the
  2-second `setTimeout` before it, and the toasts. Server replies are inputs.
- Rendering is not modelled: modals, tables, chips and skeletons. The chip colour and the
  star rows are kept.
- The confirmation page, the admin dashboard, the booking detail page, `config/site.ts` and
  `next.config.js` are not part of this model. They only fetch data or hold static settings.
- Time zones are not modelled. The model uses one fixed zone. `calculateMinCheckoutDateTime`
  takes the date from `toISOString()` (UTC) and the time from `toTimeString()` (local time);
  outside UTC these disagree, and the model does not reproduce that. Likewise the modify
  page's "today" is the UTC date of `new Date()`.
- An empty time input is not modelled, because `Minutes` is always a valid time. On the
  booking page `addHours("", 1)` throws a `TypeError`. `"".split(":").map(Number)` is `[0]`,
  so `minutes` is `undefined` and `minutes.toString()` fails. This can happen on a same-day
  stay whose time fields are both empty.
- The model has no JavaScript `Invalid Date`. On the booking page, with no check-in date,
  every comparison against the invalid check-in instant is false. The model says the same
  thing directly: no check-out ordering rule fires without a check-in date.
- Years above 9999 are not modelled. `DateTime.DateStringOrder` and `DateTime.DateFieldOrder`
  assume four-digit years, since longer year fields no longer sort as strings.
- Case folding is ASCII only. `toLowerCase` on non-ASCII letters, and UTF-16 code units, are
  not modelled.
- Prices are integer cents, not floating point.
- Availability is not checked for staleness. The reply the pages hold may come from an
  earlier form, because the effect does not track the times. Submission reads whatever reply
  is current, and the model takes it as an input.
- The room page's `handleDelete` is not modelled. It is an HTTP call followed by a refetch.
  After a successful save, the refetch of the room list is not modelled either.
- The booking page's post-submit request and its "Failed to create booking" message are not
  modelled. The model stops at the decision to send.
- The modify page's guest count is a string in the page and is never validated. The model
  reuses the shared form, where it is `Option<int>`, and only passes it through.
- `isTimeValid` is modelled, but the page never calls it. `Booking.CheckInAtNow` shows how it
  differs from the validator.
- The `maxLength={10}` of the phone input is enforced by the browser, not by the handler.
  `PhoneEntry.PhoneStaysDigits` therefore takes the longest value the input passes on as a
  parameter.
- The feedback page's message for a missing booking id in the address is not modelled. That
  screen is pure rendering, so the model only carries the booking id as an `Option`.
