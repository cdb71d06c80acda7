# Healthcare booking front end: the client-side logic, verified

This project models the deterministic logic of a Next.js front end for booking
doctor appointments: the pages and helpers that decide what the patient and the
admin see and what the page state becomes after each click. The backend, which
owns persistence and the authoritative appointment lifecycle, is not part of
this model. Its replies enter as parameters.

The modules follow the source files:

- `AdminDashboard` (`app/admin/dashboard/page.tsx`). The admin's appointment
  table and its five stats counters, kept in a `Dashboard` class. It covers the
  confirm, complete and cancel actions, the action menu, deleting a doctor and
  toggling a doctor's availability. It also covers the filtered, sorted and
  paged views of both tables, and the specialty and location select options.
- `BookingSlots` (`app/appointments/book/doctor/page.tsx`). The `formatTime`
  helper, and the two fixed eight-slot grids onto which the backend's slots for
  the selected date are mapped. It also covers the "Slots Available" count,
  slot selection and the guard on "Continue".
- `DoctorProfile` (`app/appointments/doctor/page.tsx`). The weekdays line,
  `formatTimeDisplay` with its repair of short time strings, the hours and
  location lines, and the five-star fill rule.
- `DoctorSearch` (`app/appointments/page.tsx`). The search card's
  `renderStars` loop, the listing query and the Prev/Next clamps. The search,
  filter and reset handlers live in the `SearchPage` class.
- `DoctorReviews` (`components/DoctorReviews.tsx`). The review `renderStars`,
  built with two push loops. It also covers the review form: the rating picker,
  the submit guard and the reset after a post.
- `Profile` (`app/profile/page.tsx`). Filling the edit form from the fetched
  profile, the trim-or-null clean-up before saving, the outcome of a save, and
  the address line.
- `CreateDoctor` (`app/admin/doctors/create/page.tsx`). The required-field loop
  of the submit handler and its message. It also covers the picture size guard,
  field edits and picture removal.
- `Api` (`lib/api.ts`):
  - doctor id validation
  - the error text `createDoctor` raises
  - the appointment query parameters
  - the bearer-token interceptor
  - the doctor listing projection
- `JsText` and `ListOps` model the JavaScript built-ins these pages rely on:
  - `parseInt` in base 10, `trim`, ASCII `toLowerCase`, `includes`, `split`,
    `join`, the first-match `replace`, `padStart`
  - the truncating `%`, and number-to-text conversion
  - `filter`, a sort by comparator, and `slice`

Ratings are `real`, and `Math.floor` is `.Floor`. JavaScript's `%` on numbers
truncates toward zero (`JsRem`, `JsFrac`). A `||` fallback is written out
wherever the source relies on falsiness: an id of 0, an empty text, NaN.

## Model

| member | source | states |
|---|---|---|
| AdminDashboard.ReplyOfBody | app/admin/dashboard/page.tsx:274 | a body whose `error` is missing or the empty text counts as applied; only a non-empty `error` is rethrown as a failure |
| AdminDashboard.AlertText | app/admin/dashboard/page.tsx:491-494 | a rejected request shows the server's error text when there is one and the default text when there is none; an error in a reply body is rethrown without a response, so the default text is shown |
| AdminDashboard.FindById | app/admin/dashboard/page.tsx:465-466 | `find` by id, used for appointments (`FindAppointment`) and doctors (`FindDoctor`, lines 265-266): finds nothing exactly when no row has the id; otherwise it finds the first row that has it |
| AdminDashboard.WithStatusFrame | app/admin/dashboard/page.tsx:428-430 | relabelling keeps the table's length and every row with another id; rows with the id change in status only |
| AdminDashboard.WithStatusAbsent | app/admin/dashboard/page.tsx:477-479 | relabelling an id that no row has leaves the table as it was |
| AdminDashboard.RelabelCount | app/admin/dashboard/page.tsx:451-453 | with unique ids, relabelling one row moves exactly one unit of count from its old status to the new one, for every status |
| AdminDashboard.MenuActions | app/admin/dashboard/page.tsx:822-851 | view is always offered; confirm only on pending rows, complete only on confirmed rows, cancel on every row that is not cancelled |
| AdminDashboard.MenuActionKeepsCounts | app/admin/dashboard/page.tsx:433-437 | confirm, complete and cancel of a pending or confirmed row keep every counter equal to the count of rows with that status |
| AdminDashboard.CancelCompletedDrifts | app/admin/dashboard/page.tsx:482-487 | cancelling a completed row, which the menu allows, leaves `pending` one below the pending rows and `completed` one above the completed rows |
| AdminDashboard.CancelCompletedExample | app/admin/dashboard/page.tsx:482-487 | a one-row table whose only row is completed: after cancel the counters read pending = -1 and no longer match the table |
| AdminDashboard.CorrectedCancelKeepsCounts | app/admin/dashboard/page.tsx:463-489 | with the counter of the row's own earlier status decremented, cancelling any row keeps the counters equal to the counts |
| AdminDashboard.WithoutDoctorSpec | app/admin/dashboard/page.tsx:261 | after deletion a doctor is listed exactly when it was listed and has another id; each other doctor is kept as often as before and in the same order |
| AdminDashboard.WithAvailabilityToggled | app/admin/dashboard/page.tsx:279-281 | the same length; other doctors unchanged; the doctor with the id differs only in a negated `isAvailable` |
| AdminDashboard.ToggleTwice | app/admin/dashboard/page.tsx:279-281 | toggling twice restores the table |
| AdminDashboard.Dashboard.constructor | app/admin/dashboard/page.tsx:136-167 | the loaded tables and counters, with no menu open |
| AdminDashboard.Dashboard.ToggleAppointmentMenu | app/admin/dashboard/page.tsx:813-814 | opens the row's menu, or closes it when it is the open one; nothing else changes |
| AdminDashboard.Dashboard.ConfirmAppointment | app/admin/dashboard/page.tsx:417-439 | once confirmed and applied, row `id` becomes confirmed and one unit moves from pending to confirmed; otherwise the table and counters stay. A failure gives the alert. `total` never changes. A pending row's counts stay consistent. The menu closes |
| AdminDashboard.Dashboard.CompleteAppointment | app/admin/dashboard/page.tsx:440-462 | the same for complete: the row becomes completed and one unit moves from confirmed to completed; a confirmed row's counts stay consistent |
| AdminDashboard.Dashboard.CancelAppointment | app/admin/dashboard/page.tsx:463-489 | an unknown id returns at once and leaves even the menu open; an applied reply marks the row cancelled and patches the counters by the row's earlier status, which keeps the counts consistent for every row |
| AdminDashboard.Dashboard.DeleteDoctor | app/admin/dashboard/page.tsx:258-262 | once confirmed, any reply that is not a rejection removes every doctor with the id and keeps the rest; a rejection alerts; the doctor menu closes either way |
| AdminDashboard.Dashboard.ToggleDoctorAvailability | app/admin/dashboard/page.tsx:264-288 | an unknown id returns at once, menu untouched; an applied reply flips only that doctor's availability; any other reply alerts and keeps the table |
| AdminDashboard.BlankFiltersKeepAll | app/admin/dashboard/page.tsx:185-201 | with a blank search, no specialty, no location, all statuses and no date, both views keep every row in order |
| AdminDashboard.ClickSort | app/admin/dashboard/page.tsx:242-249 | a click selects the clicked column; the current column flips its order, and a new column starts at the initial order (asc for doctors, desc for appointments, 401-408) |
| AdminDashboard.ClickTwiceRestores | app/admin/dashboard/page.tsx:242-249 | clicking the current column twice restores the sort |
| AdminDashboard.KeyedConsistent | app/admin/dashboard/page.tsx:205-211 | comparing by a key with a consistent (total-preorder) comparator is consistent |
| AdminDashboard.IntDifferenceConsistent | app/admin/dashboard/page.tsx:213-218 | comparing by the difference of integer keys is consistent |
| AdminDashboard.DoctorCompareConsistent | app/admin/dashboard/page.tsx:202-222 | every doctor column's comparator is consistent when `localeCompare` is |
| AdminDashboard.AppointmentCompareConsistent | app/admin/dashboard/page.tsx:309-327 | every appointment column's comparator is consistent when `localeCompare` is |
| AdminDashboard.FilteredDoctorsSpec | app/admin/dashboard/page.tsx:185-224 | the doctor view holds exactly the doctors matching every filter, each as often as in the table; it is ordered by the column, reversed for desc |
| AdminDashboard.FilteredAppointmentsSpec | app/admin/dashboard/page.tsx:292-329 | the same for the appointment view and its status, date and search filters |
| AdminDashboard.DistinctSpec | app/admin/dashboard/page.tsx:171-174 | `Array.from(new Set(..))` keeps every name once and adds none |
| AdminDashboard.FieldNamesSpec | app/admin/dashboard/page.tsx:172 | `.map(field).filter(Boolean)` yields exactly the non-empty values present |
| AdminDashboard.SelectOptionsSpec | app/admin/dashboard/page.tsx:170-182 | a select offers exactly the non-empty names in the table's field, each once |
| AdminDashboard.SpecialtyAndLocationOptions | app/admin/dashboard/page.tsx:170-182 | the specialty options are the specialty names and the location options are the cities, each without repeats |
| AdminDashboard.TotalPages | app/admin/dashboard/page.tsx:235 | `ceil(n / 10)`: enough pages to hold `n` rows, and no empty last page |
| AdminDashboard.PageWindow | app/admin/dashboard/page.tsx:236-239 | page p shows rows [(p-1)·10, p·10) cut at the end of the list, so at most ten |
| AdminDashboard.PagesUpToPrefix | app/admin/dashboard/page.tsx:340-344 | pages 1..k laid end to end are the first k·10 rows |
| AdminDashboard.PagesCoverList | app/admin/dashboard/page.tsx:340-344 | pages 1..totalPages laid end to end are the whole list |
| AdminDashboard.PageButtonsInRange | app/admin/dashboard/page.tsx:879-900 | from a page in range, Prev and Next stay in range; each stays put exactly where its button is disabled; with no pages, Next moves to page 0 |
| BookingSlots.IntToStringNoColon | app/appointments/book/doctor/page.tsx:31-32 | a written hour contains no ':' |
| BookingSlots.FormatTimeOfHour | app/appointments/book/doctor/page.tsx:27-33 | "H:MM[:SS]" gives the 12-hour hour (`h % 12 \|\| 12`), the minutes text verbatim and PM exactly for h ≥ 12 |
| BookingSlots.FormatTimeUnparsedHour | app/appointments/book/doctor/page.tsx:29-31 | an hour text that parses to NaN renders as 12 AM |
| BookingSlots.FormatTimeNoMinutes | app/appointments/book/doctor/page.tsx:28 | a text without ':' has no minutes part |
| BookingSlots.CatalogsAreFormattedHalfHours | app/appointments/book/doctor/page.tsx:54-74 | entry i of the morning catalog is `formatTime` of hour 9 + i/2 with minutes :00 or :30, the afternoon catalog likewise from hour 13; eight each |
| BookingSlots.HalfHourRendered | app/appointments/book/doctor/page.tsx:27-33 | `formatTime` of "H:00" or "H:30" is the template for hour H and those minutes |
| BookingSlots.MorningEntry | app/appointments/book/doctor/page.tsx:54-63 | each morning catalog entry is the template for its half hour |
| BookingSlots.AfternoonEntry | app/appointments/book/doctor/page.tsx:65-74 | each afternoon catalog entry is the template for its half hour |
| BookingSlots.FindSlot | app/appointments/book/doctor/page.tsx:137 | finds nothing exactly when no slot starts at the time; otherwise finds the first slot that does |
| BookingSlots.GridEntry | app/appointments/book/doctor/page.tsx:137-143 | an entry keeps the catalog time; unmatched, it is unavailable with id -1 and end = start; matched, it takes the first match's availability, and its id and end time with the `\|\|` fallbacks (id 0 becomes -1) |
| BookingSlots.GridsFollowCatalog | app/appointments/book/doctor/page.tsx:132-156 | each grid has the eight catalog times in order, whatever the backend sends; an entry is available exactly when the first backend slot with its time is |
| BookingSlots.AvailableCountBounds | app/appointments/book/doctor/page.tsx:350 | the count is at most 8; it is 8 exactly when every entry is available, and 0 exactly when none is |
| BookingSlots.OutOfRangeDateHasNoSlots | app/appointments/book/doctor/page.tsx:132 | a selected date with no entry gives empty grids: every entry unavailable, count 0 |
| BookingSlots.SelectionIsAvailable | app/appointments/book/doctor/page.tsx:112-115 | after the reset on a date change, any run of clicks selects nothing or the id of an available entry that was clicked |
| BookingSlots.ContinueError | app/appointments/book/doctor/page.tsx:158-162 | continue fails, with "Please select a time slot and location", exactly when there is no slot (or slot id 0), no doctor or no location |
| BookingSlots.ContinueAfterClick | app/appointments/book/doctor/page.tsx:365 | a click on an available entry with a non-zero id lets continue pass |
| DoctorProfile.DayNumber | app/appointments/doctor/page.tsx:137 | the position of a weekday name, 7 for any other text |
| DoctorProfile.DayNumberOfDays | app/appointments/doctor/page.tsx:137 | each weekday sits at its own number |
| DoctorProfile.AvailableDaysMembers | app/appointments/doctor/page.tsx:138-139 | the weekdays line names exactly the days on which some entry falls (day_of_week 0..6) |
| DoctorProfile.AvailableDaysOrdered | app/appointments/doctor/page.tsx:139 | the line runs Sunday to Saturday, holds at most seven days and repeats none |
| DoctorProfile.FormatTimeDisplay | app/appointments/doctor/page.tsx:143 | the result is empty exactly for the empty string |
| DoctorProfile.NormalizeCases | app/appointments/doctor/page.tsx:146-161 | "H" becomes "0H:00", "H:M" becomes "0H:M0", a four-character string with ':' gains a leading '0'; length ≥ 5, or no ':' and length ≠ 1, is left alone |
| DoctorProfile.TwoDigitsRoundTrip | app/appointments/doctor/page.tsx:165-168 | two digits parsed and padded back to two places are themselves |
| DoctorProfile.FormatWellFormed | app/appointments/doctor/page.tsx:163-168 | "HH:MM[:SS]" gives "h:MM AM\|PM" with h in 1..12, the minutes as given and PM exactly from 12:00 |
| DoctorProfile.FormatShortHour | app/appointments/doctor/page.tsx:157-160 | "H:MM" renders exactly like "0H:MM" |
| DoctorProfile.FormatWithoutColon | app/appointments/doctor/page.tsx:169-171 | a string the repair leaves without ':' throws on `minutes.toString()`, so the original string comes back |
| DoctorProfile.HoursUseFirstEntry | app/appointments/doctor/page.tsx:175-177 | only the first availability entry is shown; no entry gives "Not available" |
| DoctorProfile.PresentMembers | app/appointments/doctor/page.tsx:181 | `.filter(Boolean)` keeps exactly the present, non-empty parts |
| DoctorProfile.PresentCons | app/appointments/doctor/page.tsx:180-181 | a present part stays ahead of the parts after it |
| DoctorProfile.LocationAllPresent | app/appointments/doctor/page.tsx:180-182 | with all four parts the line is name, address, city and state joined by ", " |
| DoctorProfile.LocationSkipsMissing | app/appointments/doctor/page.tsx:180-182 | for any of the four parts missing or empty, the line joins exactly the other parts in their order; with none the line is empty |
| DoctorProfile.StarRowFilledPrefix | app/appointments/doctor/page.tsx:210-214 | five stars, filled ones first, as many filled as floor(avg_rating) cut to 0..5 |
| DoctorSearch.SearchStars | app/appointments/page.tsx:117 | always five icons |
| DoctorSearch.RenderStars | app/appointments/page.tsx:112-143 | the loop pushes the icon of each of the five positions |
| DoctorSearch.SearchStarsOrdered | app/appointments/page.tsx:114-139 | full icons, then at most one half icon, then grey; a half icon appears exactly when the fraction is ≥ 0.5 and floor(rating) is in 0..4 |
| DoctorSearch.SearchStarsExtremes | app/appointments/page.tsx:398 | a rating below 0.5, including a missing one (`\|\| 0`), gives five grey icons; 5 or more gives five full icons |
| DoctorSearch.SearchStarsAgreeWithProfile | app/appointments/page.tsx:118 | the card and the profile page agree on which stars are full |
| DoctorSearch.QueryParams | app/appointments/page.tsx:47-54 | page, limit 6 and search are always sent; specialty, minRating and minExperience only when non-empty or positive |
| DoctorSearch.QueryCarriesFilters | app/appointments/page.tsx:47-54 | reading the filters back from the query gives the selection; a non-positive rating reads as "show all" |
| DoctorSearch.PageClampsInRange | app/appointments/page.tsx:423-444 | from a page in range, Prev and Next stay in range and move by at most one; each stays put exactly at its disabled end |
| DoctorSearch.SearchPage.constructor | app/appointments/page.tsx:21-26 | no search, no filters, page 1 of 1, top-doctors mode |
| DoctorSearch.SearchPage.HandleSearch | app/appointments/page.tsx:83-87 | page 1, leaving top-doctors mode; search and filters kept |
| DoctorSearch.SearchPage.HandleSearchInputChange | app/appointments/page.tsx:89-97 | the new search text and page 1; top-doctors mode exactly when the box is cleared |
| DoctorSearch.SearchPage.HandleFilterChange | app/appointments/page.tsx:99-102 | page 1, leaving top-doctors mode; filters kept |
| DoctorSearch.SearchPage.SelectRating | app/appointments/page.tsx:229-246 | the picked rating, page 1, filtered mode; other filters kept |
| DoctorSearch.SearchPage.SelectExperience | app/appointments/page.tsx:276-278 | the picked experience, page 1, filtered mode; other filters kept |
| DoctorSearch.SearchPage.SelectSpecialty | app/appointments/page.tsx:298-315 | the picked specialty, page 1, filtered mode; other filters kept |
| DoctorSearch.SearchPage.HandleResetFilters | app/appointments/page.tsx:104-110 | rating 0, experience and specialty cleared, page 1, filtered mode; the next query carries the search and no filter |
| DoctorSearch.SearchPage.ViewTopDoctors | app/appointments/page.tsx:354-360 | search and filters cleared, top-doctors mode |
| DoctorSearch.SearchPage.TopDoctorsLoaded | app/appointments/page.tsx:28-33 | the top-doctors list is a single page |
| DoctorSearch.SearchPage.DoctorsLoaded | app/appointments/page.tsx:56-60 | the page count becomes the backend's |
| DoctorSearch.SearchPage.Prev | app/appointments/page.tsx:423 | `max(p - 1, 1)`, staying within the pages; the button exists only while the pager is shown (line 415) |
| DoctorSearch.SearchPage.Next | app/appointments/page.tsx:443 | `min(p + 1, totalPages)`, never past the last page; the button exists only while the pager is shown (line 415) |
| DoctorSearch.SearchPage.GoToPage | app/appointments/page.tsx:429-432 | button i + 1 selects page i + 1, within the pages; the buttons exist only while the pager is shown (line 415) |
| DoctorReviews.Repeat | components/DoctorReviews.tsx:59-76 | `n` copies, none for n ≤ 0 |
| DoctorReviews.ReviewStars | components/DoctorReviews.tsx:54-79 | the two push loops and the half star build `ReviewRow` |
| DoctorReviews.ReviewRowShape | components/DoctorReviews.tsx:56-69 | full icons exactly below floor(rating) (none if negative); one half icon exactly when the fraction is ≥ 0.5; ordered full, half, grey |
| DoctorReviews.ReviewRowLength | components/DoctorReviews.tsx:71-76 | the row is five long unless full and half icons alone exceed five; exactly five for 0 ≤ rating ≤ 5 |
| DoctorReviews.ReviewRowMatchesSearch | components/DoctorReviews.tsx:54-79 | below 5.5 the row equals the search card's row; from 5.5 it has more than five icons |
| DoctorReviews.ReviewPanel.constructor | components/DoctorReviews.tsx:12-18 | the form closed, no rating, no comment, no error; "Write a Review" shows exactly when the patient may review |
| DoctorReviews.ReviewPanel.OpenForm | components/DoctorReviews.tsx:94-96 | clicking the shown "Write a Review" puts the form on screen and hides the button |
| DoctorReviews.ReviewPanel.CancelForm | components/DoctorReviews.tsx:150-153 | Cancel on the shown form closes it and keeps what was entered; "Write a Review" shows again exactly when the patient may review |
| DoctorReviews.ReviewPanel.PickRating | components/DoctorReviews.tsx:112-116 | the picker of the shown form sets a rating of 1 to 5, which is never "none" |
| DoctorReviews.ReviewPanel.SetComment | components/DoctorReviews.tsx:134-139 | the comment box of the shown form holds the text typed |
| DoctorReviews.ReviewPanel.SubmitReview | components/DoctorReviews.tsx:35-52 | success closes and empties the form and brings back "Write a Review" for a patient who may review; failure sets the error to the message or "Failed to submit review", after which the panel shows only that text (the early return at lines 85-87), with no form and no button, so nothing can be submitted again |
| Profile.OrEmpty | app/profile/page.tsx:47-55 | `value \|\| ''` is non-empty exactly for a present, non-empty value, and then is that value |
| Profile.InitForm | app/profile/page.tsx:45-56 | the form has the name and the nine profile fields; each profile field is the profile's text or '' |
| Profile.SetField | app/profile/page.tsx:70-76 | only the named field changes |
| Profile.CleanValueShape | app/profile/page.tsx:83 | a cleaned value is null exactly for blank text; otherwise it is non-empty with no whitespace at either end |
| Profile.CleanValueIdempotent | app/profile/page.tsx:83 | cleaning a cleaned value again changes nothing |
| Profile.CleanForm | app/profile/page.tsx:82-84 | the same keys as the form, each value cleaned |
| Profile.CleanFormIdempotent | app/profile/page.tsx:82-84 | cleaning what a cleaned record reads back as gives the same record |
| Profile.InitThenCleanNullsMissing | app/profile/page.tsx:45-56 | a field that the profile lacks or holds blank is sent as null |
| Profile.AfterSave | app/profile/page.tsx:86-92 | a successful save leaves edit mode and keeps the error text; a failure stays in edit mode with "Failed to update profile" |
| Profile.AddressLine | app/profile/page.tsx:282-284 | "Not provided" without an address; otherwise the line starts with the address and goes on past it |
| Profile.AddressLineJoins | app/profile/page.tsx:283 | with an address, the line is address, city, state and country joined by ", " |
| CreateDoctor.FirstMissingIsFirst | app/admin/doctors/create/page.tsx:130-134 | names a missing field ahead of which every checked field is present, and none exactly when all are present |
| CreateDoctor.RequiredMessage | app/admin/doctors/create/page.tsx:132 | the message is the field name's length plus " is required" |
| CreateDoctor.RequiredMessageText | app/admin/doctors/create/page.tsx:132 | a name without '_' is used as it is; otherwise only its first '_' becomes a space |
| CreateDoctor.CheckRequired | app/admin/doctors/create/page.tsx:129-134 | the loop returns the first missing required field, in checking order |
| CreateDoctor.OptionalFieldsNotChecked | app/admin/doctors/create/page.tsx:129 | location, fee and picture never change the outcome of validation |
| CreateDoctor.SameRequired | app/admin/doctors/create/page.tsx:130-134 | forms that agree on the checked fields validate the same |
| CreateDoctor.CreateDoctorForm.constructor | app/admin/doctors/create/page.tsx:16-29 | all ten fields empty; no preview and no error |
| CreateDoctor.CreateDoctorForm.HandleChange | app/admin/doctors/create/page.tsx:31-37 | only the field named by the input's id changes |
| CreateDoctor.CreateDoctorForm.HandleFileChange | app/admin/doctors/create/page.tsx:80-109 | over 5 MiB: refused with the form unchanged; otherwise the compressed picture becomes the preview and the field, or the compression error is shown |
| CreateDoctor.CreateDoctorForm.RemoveImage | app/admin/doctors/create/page.tsx:111-120 | no preview and no picture; nothing else changes |
| CreateDoctor.CreateDoctorForm.HandleSubmit | app/admin/doctors/create/page.tsx:122-149 | a missing field gives its message and no redirect; success redirects; a refusal shows the message or "Failed to create doctor"; a thrown request shows `createDoctor`'s message; loading ends false |
| Api.ValidateDoctorId | lib/api.ts:92-103 | "Doctor ID is required" exactly for '' and 0; "Invalid doctor ID" exactly for a text without a numeric prefix; otherwise the parsed or given number |
| Api.ValidateWrittenId | lib/api.ts:99-103 | every integer written out as text is requested as itself, 0 included |
| Api.ValidateReadsDigitPrefix | lib/api.ts:99 | a text is read up to its first non-digit |
| Api.CreateDoctorError | lib/api.ts:401-409 | the message is never empty: the server's error text first, then the 401 message, then the 400 message, then the generic one |
| Api.CreateDoctorErrorServerFirst | lib/api.ts:401-402 | with server text present, the status does not matter |
| Api.AppointmentParams | lib/api.ts:134 | `status` is sent exactly when it is non-empty, and then as given |
| Api.AddAuthHeader | lib/api.ts:17-23 | with a token, Authorization is added and other headers kept; without one, the headers are unchanged |
| Api.AuthHeaderCarriesToken | lib/api.ts:20 | the header is "Bearer " followed by the token, which can be read back |
| Api.ProjectListing | lib/api.ts:79-85 | exactly the five listing fields, each as the body has it |
| Api.ProjectListingIgnoresExtras | lib/api.ts:79-85 | other body fields do not change the result |
| JsText.Trim | app/profile/page.tsx:83 | the trimmed text has no whitespace at either end |
| JsText.TrimCutsEnds | app/profile/page.tsx:83 | the trimmed text occurs in the original, and everything before and after that occurrence is whitespace |
| JsText.TrimEmptyIffBlank | app/profile/page.tsx:83 | trimming leaves nothing exactly for all-whitespace text |
| JsText.TrimIdempotent | app/profile/page.tsx:83 | trimming twice is trimming once |
| JsText.ParseIntToString | lib/api.ts:99 | `parseInt(String(n), 10) == n` for every integer |
| JsText.JsRem | app/appointments/book/doctor/page.tsx:31 | JavaScript `a % b` differs from `a` by a multiple of `b`, is smaller than `b` in size and has the sign of `a` |
| JsText.Hour12 | app/appointments/book/doctor/page.tsx:31 | `h % 12 \|\| 12` differs from h by a multiple of 12, is never 0, and is in 1..12 for h ≥ 0 |
| JsText.JoinAppend | app/appointments/doctor/page.tsx:182 | joining two non-empty lists puts one separator between the joined halves; an empty list adds nothing |
| JsText.PadStart2 | app/appointments/doctor/page.tsx:168 | `padStart(2, '0')` ends with the text and pads with '0' to at least two |
| JsText.JsFrac | components/DoctorReviews.tsx:57 | `r % 1` lies in [0, 1) for r ≥ 0 and in (-1, 0] for r < 0 |
| ListOps.FilterCount | app/admin/dashboard/page.tsx:261 | `filter` keeps each element the predicate accepts exactly as often as the input holds it, and no other element |
| ListOps.FilterSubsequence | app/admin/dashboard/page.tsx:261 | `filter` keeps the order of what it keeps: the result is a subsequence of the input |
| ListOps.SortCorrect | app/admin/dashboard/page.tsx:202-224 | sorting by a consistent comparator yields an ordered permutation |
| ListOps.NegatedSortReversed | app/admin/dashboard/page.tsx:223 | sorting by the negated comparison orders the list in reverse and keeps the rows |

## Left out

- Network and storage: every axios and fetch call, `localStorage`, toasts and console output. Backend replies and outcomes are method parameters (`Reply`, `Outcome`, `SubmitOutcome`, `ImageOutcome`), as is a stored token.
- `window.confirm`: the admin's answer is the `accepted` parameter. `window.alert` is the returned alert text.
- Navigation: the view and edit menu entries, the redirect after creating a doctor (a `redirected` flag), the booking page's navigation to the confirmation page and the query it builds there.
- Dates: `date-fns` formatting and `new Date(..)`. An appointment carries its `yyyy-MM-dd` key and its timestamp as given values.
- `localeCompare`: a comparator parameter, assumed to be a total preorder (`Consistent`).
- Sort stability: JavaScript's sort is stable. The model proves only that the result is an ordered permutation.
- Floating point: ratings and the rating comparison are exact `real`s. NaN and infinities are not modelled. The rating column compares by sign (`CompareReal`) rather than by difference.
- Number formatting: `toFixed(1)` and exponent forms of large numbers are not modelled. Integers are written in plain decimal (`IntToString`).
- BookingSlots.FormatTime: `parseInt` without a radix is read as base 10; hexadecimal prefixes are not modelled. The function is defined but no page calls it.
- DoctorProfile.NormalizeCases: string lengths are counted in code points, not in the UTF-16 units of JavaScript's `length`, so a text holding a character outside the Basic Multilingual Plane can take a different repair branch (a lone "\U{1F600}" is padded to "0\U{1F600}:00" here, while the page leaves it as it is). The backend's time strings are ASCII, where the two counts agree.
- JsText.ToLower: ASCII letters only. The search filters do no Unicode case mapping.
- Image compression: the canvas work and the compressed-size estimate (`length * 0.75`) are outside the model. Their result is the `ImageOutcome` parameter. A change event with no file is not modelled.
- React scheduling: each handler is one atomic state change. Loading flags, effects that fetch on state changes, and the order in which fetches complete are left out. `TopDoctorsLoaded` and `DoctorsLoaded` stand for a fetch completing.
- Listing and review fetches: `getTopDoctors`, the review list and its refresh after a post, and the error texts of failed fetches.
- Profile.TemplateText: a missing city, state or country is written "null", as for a `null` from the backend. An `undefined` field would read "undefined".
- AdminDashboard.Dashboard.CancelAppointment: it uses the corrected counter patch `CancelledStatsCorrected`, not the page's patch `CancelledStats`. The page's behaviour is stated by `CancelCompletedDrifts` (see Findings).
- Profile edit button: `setIsEditing(!isEditing)` (app/profile/page.tsx:120) is a bare flip of the flag and is not modelled apart from `AfterSave`.
- Presentation: JSX, CSS classes, animation, skeletons and layouts.

## Findings

| source | as written | input that shows it | evidently intended | confidence | as-written member | corrected member |
|---|---|---|---|---|---|---|
| app/admin/dashboard/page.tsx:482-487 | cancelling takes one from `confirmed` if the row was confirmed and from `pending` otherwise; the menu offers cancel on completed rows too (849) | a single completed appointment with stats total 1, completed 1: after cancel, pending is -1 and completed stays 1 | take one from the counter of the status the row actually had, so the counters keep matching the table | not executed | AdminDashboard.CancelCompletedDrifts | AdminDashboard.CorrectedCancelKeepsCounts |
