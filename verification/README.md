# Clinic panel front end — a Dafny model

This project models the client-side logic of a multi-company clinic
management panel. The panel is a Next.js application: a central (master)
console that registers companies, and a panel for each company covering
patients, evaluations, professionals and their weekly opening hours,
services, users, bookings, the day agenda and payments. The logic that
matters lives inside the page components. It consists of:

- the slot engine that cuts a professional's weekly windows into bookable
  slots and decides which are free;
- the booking-form guards and the payloads they send;
- the permission checks that decide the navigation;
- payment classification and totals;
- the option parsing of evaluations;
- the form guards, payload normalisers and edit/reset defaults of every
  registration page;
- the central console's URL normalisation and company-creation guard;
- the host classification of the root page.

Time is local minutes since 1970-01-01 (an `int`). Dates the pages
compare as text stay text. JavaScript's `Number(...)` is modelled as
`Text.ToNumber`, which reads optionally signed decimal integers and gives
`Other` for anything else. Server responses, the clock and the browser
are parameters.

Modules follow the source layout:

| module | models |
|---|---|
| `Values`, `Lists`, `Text` | option/result types; array `filter`, the `includes ? filter : append` toggle, `new Set` dedup; trimming, splitting, joining, `Number`, `String`, string order |
| `Clock`, `Stamps` | minute arithmetic, weekdays, `HH:MM` labels, `dateKey`; `formatTime`, `formatDateTime`, `parseLocalDateTime` |
| `Slots`, `Agenda`, `Bookings`, `Booking` | the slot engine shared by the agenda and bookings pages, the two pages' memos and booking forms |
| `Access` | the navigation's `hasPermission` and each page's `canManage` |
| `Finance`, `Patients`, `Evaluations`, `Users`, `Professionals`, `Services` | the company pages |
| `Central`, `Home` | the central console and the root page |
| `SearchSelect` | the searchable drop-down used by every form |

## Model

| member | source | states |
|---|---|---|
| Stamps.FormatTime | app/empresa/agenda/page.tsx:52-59 | `-` for empty input; otherwise the `HH:MM` after the first `T` followed by one, else the first five characters of the second space-separated piece, else the value unchanged |
| Stamps.FormatTimeOfClockText | app/empresa/agenda/page.tsx:52-59 | any stamp `date T HH:MM rest` with no `T` in the date and two digits on each side of the colon shows exactly its `HH:MM` |
| Stamps.FormatTimeOfIsoStamp | app/empresa/agenda/page.tsx:52-59 | an ISO stamp carrying the minute of day `m` shows `formatHourLocal(m)` |
| Stamps.FormatTimeReadsBack | app/empresa/agenda/page.tsx:52-59 | the time shown for an ISO stamp reads back as the minute of day the stamp carries |
| Stamps.FormatTimeOfSpacedStamp | app/empresa/agenda/page.tsx:52-59 | a `date time` stamp without `T` shows the first five characters of its time |
| Stamps.FormatDateTime | app/empresa/agenda/page.tsx:61-65 | `-` for empty input; otherwise the value with its first `T` made a space, cut to 16 characters, character by character |
| Stamps.FormatDateTimeOfIsoStamp | app/empresa/agenda/page.tsx:61-65 | `YYYY-MM-DDTHH:MM...` shows as `YYYY-MM-DD HH:MM` |
| Stamps.FormatViewsAgree | app/empresa/agenda/page.tsx:52-65 | on an ISO stamp the date-time text is the date, a space, and the time `formatTime` shows |
| Stamps.LocalStampText | app/empresa/agenda/page.tsx:67-75 | empty is invalid; a zoned stamp passes unchanged; a bare date gets `T00:00`; the zone status of the text is preserved |
| Stamps.LocalStampTextIdempotent | app/empresa/agenda/page.tsx:67-75 | normalising a stamp twice is normalising it once |
| Stamps.LocalStampTextOfSpaced | app/empresa/agenda/page.tsx:67-75 | a server stamp `date time` reads as `dateTtime` |
| Clock.DayOf | app/empresa/agenda/page.tsx:321-325 | a timestamp falls within the day it is assigned to |
| Clock.MinuteOfDay | app/empresa/agendamentos/page.tsx:57-61 | the time of day lies in [0, 1440) and, added to the day's start, gives the timestamp back |
| Clock.WeekdayOf | app/empresa/agenda/page.tsx:312 | the weekday lies in 0..6, and 1970-01-01 is a Thursday |
| Clock.WeekdayStep | app/empresa/agenda/page.tsx:312 | consecutive days have consecutive weekdays; the week repeats every 7 days |
| Clock.FormatHourReadsBack | app/empresa/agendamentos/page.tsx:57-61 | the zero-padded `HH:MM` label is well formed and reads back as the same time of day |
| Clock.FormatHourInjective | app/empresa/agendamentos/page.tsx:57-61 | different times of day never print alike |
| Clock.DateKey | app/empresa/agenda/page.tsx:77-83 | `""` exactly for an invalid date; a four-digit year gives `YYYY-MM-DD` text that reads back as the date |
| Slots.FindService | app/empresa/agendamentos/page.tsx:353 | the first service with the id, or none exactly when no service has it |
| Slots.SlotMinutes | app/empresa/agenda/page.tsx:318 | the service's duration, 60 when there is no service or no duration |
| Slots.CapacityOf | app/empresa/agenda/page.tsx:319 | the service's capacity, 1 when there is no service or no capacity |
| Slots.SameDayById | app/empresa/agenda/page.tsx:321-327 | when the professional text is the canonical decimal of the id, the text comparison of appointments is the id comparison on the same day |
| Slots.EndOf | app/empresa/agenda/page.tsx:344-347 | a missing end is start plus the slot length; an unparseable end never overlaps |
| Slots.Occupying | app/empresa/agenda/page.tsx:343-349 | an appointment is an occupant iff it is listed and overlaps the half-open slot; never more occupants than appointments |
| Slots.OccupyingIsFilter | app/empresa/agenda/page.tsx:343-349 | the occupants are the list filtered by the overlap test: each overlapping appointment as often as listed, in input order |
| Slots.MakeSlotOccupants | app/empresa/agenda/page.tsx:340-349 | a slot's occupant list is that filter over the day's appointments |
| Slots.LoopStartsEnds | app/empresa/agenda/page.tsx:340 | with a positive slot length the `for` loop leaves and has pushed exactly the grid starts the engine uses |
| Slots.LoopNeverEndsAsWritten | app/empresa/agenda/page.tsx:340 | with a zero or negative slot length and a first test that passes, the loop has not left after any number of steps |
| Slots.SlotCount | app/empresa/agenda/page.tsx:338-340 | a window [s, e) with slot length d yields floor((e - s) / d) slots, none when inverted |
| Slots.WindowSlots | app/empresa/agenda/page.tsx:337-363 | slot k of a window starts k slot lengths after the window start and ends inside the window |
| Slots.WindowSlotsSpacing | app/empresa/agenda/page.tsx:357-362 | within one window each slot starts where the previous one ends |
| Slots.WindowsSlotsShape | app/empresa/agenda/page.tsx:337-363 | every slot of several windows starts on the grid of one of them |
| Slots.DaySlotsSound | app/empresa/agenda/page.tsx:307-367 | each slot of the day lies on the grid of one of the professional's windows for that weekday; its occupant list is the appointment list filtered to the same-day, same-professional ones overlapping it (each once per listing, in input order); it is available iff occupants < capacity and none conflicts with the service |
| Slots.DaySlotsCount | app/empresa/agenda/page.tsx:312-315 | the day has, per matching window, floor((end - start) / duration) slots |
| Slots.RuleIrrelevantAtCapacityOne | app/empresa/agenda/page.tsx:350-360 | at capacity at most one the mixed-service rule never changes a slot |
| Slots.AvailableSlots | app/empresa/agenda/page.tsx:392 | a slot is listed iff it is one of the slots and available |
| Slots.AvailableSlotsIsFilter | app/empresa/agenda/page.tsx:392 | the result is the slot list's `filter(slot => slot.available)` |
| Slots.AvailableSlotsInOrder | app/empresa/agenda/page.tsx:392 | the available slots keep the slot order, each as often as the slot list holds it |
| Slots.OpenClocksAreClocks | app/empresa/agendamentos/page.tsx:387-392 | the times pushed for free slots are the start times of the available slots |
| Slots.TimesOfAvailable | app/empresa/agenda/page.tsx:392 | a label belongs to the available slots' labels iff some available slot carries it |
| Slots.MoreAppointmentsNeverFree | app/empresa/agenda/page.tsx:343-360 | adding an appointment never frees a full or mixed slot |
| Agenda.AgendaService | app/empresa/agenda/page.tsx:317 | the found service's printed id equals the choice; none exactly when no printed id matches |
| Agenda.AgendaServiceById | app/empresa/agenda/page.tsx:317 | matching printed ids finds the same service as matching ids |
| Agenda.AgendaSlots | app/empresa/agenda/page.tsx:307-367 | empty without a professional or a date; otherwise every slot meets the day-slot specification for the chosen professional, day and service |
| Agenda.GuardedAgendaSlots | app/empresa/agenda/page.tsx:307-367 | defined for every input: no slots for a zero or negative slot length or without a professional or date; otherwise every slot meets the day-slot specification |
| Agenda.AgendaSlotCount | app/empresa/agenda/page.tsx:312-363 | the agenda lists floor((e - s) / D) slots per matching window |
| Agenda.AgendaDefaults | app/empresa/agenda/page.tsx:317-319 | with no service, slots last 60 minutes and any overlapping appointment fills them |
| Agenda.StartValue | app/empresa/agenda/page.tsx:185 | the clicked slot, else the slot held by the dialog, else `""` |
| Agenda.CreateFromAgenda | app/empresa/agenda/page.tsx:185-228 | missing fields are refused first, then a weekly or biweekly plan without days; otherwise the single or series request with the resolved services |
| Agenda.CreatedPrimaryIsFirst | app/empresa/agenda/page.tsx:186-187 | every request sent names the first listed service as its primary service |
| Booking.PrimaryServiceId | app/empresa/agenda/page.tsx:186 | the first selected id, else the single choice through `Number`, else null |
| Booking.ServiceIds | app/empresa/agenda/page.tsx:187 | the selection when non-empty, else the single choice when it reads as a non-zero number, else empty |
| Booking.PrimaryIsFirst | app/empresa/agenda/page.tsx:186-187 | whenever services are listed, the primary id is the first of them |
| Booking.SeriesOf | app/empresa/agenda/page.tsx:218-228 | the frequency name of the plan; weekdays only when not monthly; a day of month only when monthly |
| Booking.SeriesPlanRecoverable | app/empresa/agenda/page.tsx:225 | the plan reads back from the frequency name sent |
| Booking.TargetOf | app/empresa/agenda/page.tsx:198-204 | patient and professional through `Number`, resolved services, the start unchanged |
| Booking.AfterSingleBooking | app/empresa/agenda/page.tsx:182-211 | the warning is shown exactly for `capacity_full`, with the suggestions (none when absent); otherwise both are cleared |
| Booking.SortPermutes | app/empresa/agenda/page.tsx:171 | sorting only reorders the days |
| Booking.SortAppend | app/empresa/agenda/page.tsx:171 | appending a day and sorting inserts it in place |
| Booking.ToggleDay | app/empresa/agenda/page.tsx:169-173 | the day's membership flips, other days keep theirs, and an ascending list stays ascending |
| Booking.ToggleDayTwice | app/empresa/agenda/page.tsx:169-173 | toggling a day twice restores the same ascending list |
| Bookings.PrimaryKey | app/empresa/agendamentos/page.tsx:351-353 | the first selected id, else the single choice when it reads as a number, else none |
| Bookings.PrimaryService | app/empresa/agendamentos/page.tsx:351-353 | with a primary key, the first listed service holding that key, none when no service holds it; none without a key |
| Bookings.FreeClockAtIsSlot | app/empresa/agendamentos/page.tsx:376-393 | the loop's test at one cursor is the slot engine's availability |
| Bookings.FreeClocksAreSlots | app/empresa/agendamentos/page.tsx:372-395 | the loop's pushes over the day's windows are the start times of the engine's available slots, in order |
| Bookings.AvailableHours | app/empresa/agendamentos/page.tsx:357-397 | empty without a professional or date; never repeats an hour |
| Bookings.AvailableHoursOffers | app/empresa/agendamentos/page.tsx:357-397 | an hour is offered iff professional and date are chosen and some available slot of the day carries its label |
| Bookings.GuardedAvailableHours | app/empresa/agendamentos/page.tsx:357-397 | defined for every input: no hours for a zero or negative slot length; no repeats; an hour is offered iff the length is positive, professional and date are chosen and some available slot carries its label |
| Bookings.HoursAreAgendaTimes | app/empresa/agendamentos/page.tsx:357-397 | with the same service resolved, the bookings page offers exactly the agenda's available labels, each once, in first-met order. The two pages resolve the service differently: the agenda page from `serviceId` alone (app/empresa/agenda/page.tsx:317), the bookings page from `selectedServiceIds[0]` first, so they agree only when those choices name the same service |
| Bookings.OtherServiceBlocks | app/empresa/agendamentos/page.tsx:378-392 | a lone appointment of another service blocks its slot |
| Bookings.Recall | app/empresa/agendamentos/page.tsx:357-397 | the memo keeps its previous hours iff every dependency equals the previous one, else takes the fresh hours |
| Bookings.FirstOffers | app/empresa/agendamentos/page.tsx:357-397 | with service 1 selected and one service-1 appointment at 09:00 in a capacity-2 slot, 09:00 is offered |
| Bookings.SecondRefuses | app/empresa/agendamentos/page.tsx:357-397 | with service 2 selected in the same situation, 09:00 is not offered |
| Bookings.ListedUnchangedKeepsHours | app/empresa/agendamentos/page.tsx:397 | as written, a render whose listed dependencies are unchanged shows the previous hours whatever else changed |
| Bookings.StaleHoursAsWritten | app/empresa/agendamentos/page.tsx:397 | switching the selected service from 1 to 2 keeps offering 09:00 although the fresh computation refuses it |
| Bookings.RenderWithServiceIsFresh | app/empresa/agendamentos/page.tsx:357-397 | with the service among the dependencies every render shows the hours of its own inputs |
| Bookings.CreateFromBookings | app/empresa/agendamentos/page.tsx:191-243 | missing fields first, then an hour outside a non-empty offer, then a due payment without a date, then a weekly or biweekly plan without days, each with its own message; otherwise the request |
| Bookings.AfterBooked | app/empresa/agendamentos/page.tsx:249-253 | after a booking the service choice and payment terms are cleared and everything else is kept |
| Bookings.ResubmitNeedsService | app/empresa/agendamentos/page.tsx:191-196 | submitting again right after a booking is refused |
| Access.HasPermissionMeaning | app/empresa/layout.tsx:91-100 | allowed iff unrestricted, admin, holding `*`, or holding one of the listed permissions |
| Access.GrantMonotone | app/empresa/layout.tsx:91-100 | granting more permissions never hides an item |
| Access.VisibleWithoutUser | app/empresa/layout.tsx:91-100 | with no user loaded exactly the unrestricted items show |
| Access.NoUserDenied | app/empresa/layout.tsx:91-100 | with no user loaded every restricted item is hidden |
| Access.SuperUserAllowed | app/empresa/layout.tsx:93-95 | admins and holders of `*` pass every check |
| Access.Visible | app/empresa/layout.tsx:137-139 | exactly the items whose requirement the user meets |
| Access.VisibleInOrder | app/empresa/layout.tsx:137-139 | the menu lists the permitted entries in `navItems` order, each as often as the list holds it |
| Access.Navigation | app/empresa/layout.tsx:137-174 | logged out, only the login link; logged in, the visible items of the fixed list |
| Access.VisibleToSuperUser | app/empresa/layout.tsx:137-139 | admins and holders of `*` see the whole list unchanged |
| Access.CanManageIsHasPermission | app/empresa/avaliacoes/page.tsx:67-69 | a page's `canManage` is the navigation check for that one permission |
| Finance.AmountCents | app/empresa/financeiro/page.tsx:92-96 | the amount is non-negative when prices are |
| Finance.AmountIsSelectedSum | app/empresa/financeiro/page.tsx:92-96 | the amount is the sum of prices (missing as 0) of the services whose id is selected |
| Finance.AmountDependsOnIdSet | app/empresa/financeiro/page.tsx:92-96 | repeated or reordered ids do not change the amount |
| Finance.AddService | app/empresa/financeiro/page.tsx:266-269 | adds the chosen id only when absent; keeps the selection free of repeats |
| Finance.AddSelectedAgain | app/empresa/financeiro/page.tsx:266-269 | adding an already selected service leaves the amount unchanged |
| Finance.RemoveServiceAmount | app/empresa/financeiro/page.tsx:285-288 | removing a chip lowers the amount by exactly the removed services' prices |
| Finance.DueSoon | app/empresa/financeiro/page.tsx:194-199 | exactly the pending payments due between today and the limit, inclusive |
| Finance.OverdueOf | app/empresa/financeiro/page.tsx:200-202 | exactly the pending payments due before today |
| Finance.DueSoonInOrder | app/empresa/financeiro/page.tsx:194-225 | the due-soon list keeps the payments' order and holds each qualifying payment as often as the payments do, so the card counts the qualifying entries |
| Finance.OverdueInOrder | app/empresa/financeiro/page.tsx:200-218 | the overdue list keeps the payments' order and holds each qualifying payment as often as the payments do, so the card counts the qualifying entries |
| Finance.BucketsDisjoint | app/empresa/financeiro/page.tsx:194-202 | no payment is both overdue and due soon; non-pending payments are in neither |
| Finance.PendingClassified | app/empresa/financeiro/page.tsx:194-202 | a pending payment is overdue, due soon, or due after the limit |
| Finance.DueSoonEmptyBeforeToday | app/empresa/financeiro/page.tsx:194-199 | a limit before today leaves nothing due soon |
| Finance.ReminderDays | app/empresa/financeiro/page.tsx:191 | the setting, 0 when missing |
| Finance.PendingTotalIsPendingSum | app/empresa/financeiro/page.tsx:233 | the pending total sums the amounts of pending payments only |
| Finance.SettleLowersPending | app/empresa/financeiro/page.tsx:233 | marking a pending payment paid lowers the total by its amount |
| Finance.MarkPaid | app/empresa/financeiro/page.tsx:148-166 | the payment with the id comes back paid, so "Marcar pago" is no longer offered for it; every other payment comes back unchanged, and only the status changes |
| Finance.MarkPaidLowersPending | app/empresa/financeiro/page.tsx:148-166 | marking paid lowers the pending total by exactly the pending amounts filed under that id |
| Finance.MarkPaidIdempotent | app/empresa/financeiro/page.tsx:148-166 | marking the same payment paid twice is marking it once |
| Finance.CreatePayment | app/empresa/financeiro/page.tsx:116-131 | refused iff patient or due date is missing or the amount is not positive; otherwise the payload with blanks as null |
| Finance.AfterRecorded | app/empresa/financeiro/page.tsx:135-141 | after a payment is recorded the patient stays; the selected services, service choice, due date, method and notes are cleared and the status is back to pending |
| Finance.ResubmitRefused | app/empresa/financeiro/page.tsx:135-141 | after a payment is recorded the cleared form is refused |
| Patients.FormatDate | app/empresa/pacientes/page.tsx:36-44 | `-` for empty; `YYYY-MM-DD...` becomes `DD/MM/YYYY`; anything else unchanged |
| Patients.FormatDateReadsBack | app/empresa/pacientes/page.tsx:36-44 | the Brazilian date reads back as the ISO date prefix |
| Patients.AgeYears | app/empresa/pacientes/page.tsx:143-148 | the age is the number of anniversaries reached by today |
| Patients.AgeUnique | app/empresa/pacientes/page.tsx:143-148 | only one age meets that characterisation |
| Patients.AgeMonotone | app/empresa/pacientes/page.tsx:143-148 | a later day never gives a lower age |
| Patients.CalculateAge | app/empresa/pacientes/page.tsx:139-150 | `""` iff the text is empty or not a date; otherwise the age followed by ` anos` |
| Patients.ToggleEvaluationOption | app/empresa/pacientes/page.tsx:152-165 | a new evaluation is appended with the option; other entries are unchanged |
| Patients.ToggleEvaluationOptionFlips | app/empresa/pacientes/page.tsx:158-163 | only that option's membership flips in that evaluation |
| Patients.ToggleEvaluationOptionLeavesOthers | app/empresa/pacientes/page.tsx:162-164 | other evaluations keep their selections |
| Patients.ToggleEvaluationOptionTwice | app/empresa/pacientes/page.tsx:152-165 | toggling twice restores the selection's contents |
| Patients.EarliestUnique | app/empresa/pacientes/page.tsx:184-186 | the earliest visit, first among ties, is unique |
| Patients.FirstVisitDate | app/empresa/pacientes/page.tsx:179-187 | an empty list gives the error message; otherwise the first ten characters of the earliest visit |
| Patients.NullBlanks | app/empresa/pacientes/page.tsx:202-216 | blank fields go out as null and read back as the form's text |
| Patients.NullBlanksOfBlanks | app/empresa/pacientes/page.tsx:202-216 | nulling the blanks of a payload without empty strings gives it back |
| Patients.SubmitPatient | app/empresa/pacientes/page.tsx:197-216 | refused iff the name is empty; an empty evaluation list is sent as null |
| Patients.EditPatient | app/empresa/pacientes/page.tsx:254-268 | the form carries the stored id and name |
| Patients.EditThenSaveKeepsRecord | app/empresa/pacientes/page.tsx:254-268 | opening and saving a stored patient unchanged sends the same record |
| Patients.ResetPatientForm | app/empresa/pacientes/page.tsx:122-137 | a new, active form with no evaluations |
| Patients.ResetFormRefused | app/empresa/pacientes/page.tsx:122-137 | the reset form is refused for its missing name |
| Evaluations.ParseOptions | app/empresa/avaliacoes/page.tsx:98-101 | every option is non-empty, trimmed and comma-free |
| Evaluations.ParseJoinRoundTrip | app/empresa/avaliacoes/page.tsx:98-101 | parsing the `, `-join of trimmed, non-empty, comma-free options gives them back |
| Evaluations.SubmitEvaluation | app/empresa/avaliacoes/page.tsx:91-112 | refused iff the trimmed name or options text is empty; otherwise the trimmed name and parsed options |
| Evaluations.CommasOnlyAccepted | app/empresa/avaliacoes/page.tsx:91-101 | an options text of only a comma passes the guard and sends no options |
| Evaluations.SubmitEvaluationChecked | app/empresa/avaliacoes/page.tsx:91-101 | refused iff the trimmed name is empty or no option survives parsing |
| Evaluations.CheckedAgreesWhenAccepted | app/empresa/avaliacoes/page.tsx:91-112 | whenever the corrected guard accepts, the page sends the same request |
| Evaluations.EditEvaluation | app/empresa/avaliacoes/page.tsx:136-141 | the form carries the stored id and name, active when unknown |
| Evaluations.EditThenSaveKeepsEvaluation | app/empresa/avaliacoes/page.tsx:136-141 | opening and saving a stored evaluation unchanged sends the same name and options |
| Evaluations.ResetEvaluationForm | app/empresa/avaliacoes/page.tsx:77-82 | the reset form is refused |
| Evaluations.DeleteToast | app/empresa/avaliacoes/page.tsx:159-163 | an error iff the refetched list still holds the id |
| Evaluations.DeletedReportsSuccess | app/empresa/avaliacoes/page.tsx:155-163 | a list without the id reports success |
| SearchSelect.SelectedLabel | components/ui/search-select.tsx:30-33 | the label of the first option whose value reads as the value, `""` when none |
| SearchSelect.Filtered | components/ui/search-select.tsx:35-41 | every option for a blank query or a plain list; otherwise an option is kept iff its lower-cased label contains the lower-cased query |
| SearchSelect.FilteredInOrder | components/ui/search-select.tsx:35-41 | the filtered list keeps the options' order and holds each matching option as often as the options do |
| SearchSelect.FilteredIdempotent | components/ui/search-select.tsx:35-41 | filtering twice by the same query is filtering once |
| SearchSelect.Settle | components/ui/search-select.tsx:54-58 | closing the list clears the query |
| SearchSelect.Step | components/ui/search-select.tsx:54-101 | clicking toggles unless disabled; picking emits the value as text and closes; closed states have no query |
| SearchSelect.PickShowsLabel | components/ui/search-select.tsx:30-33 | after a pick the box shows the picked label when values are distinct |
| SearchSelect.ReopenShowsAll | components/ui/search-select.tsx:54-58 | reopening after a pick offers the whole list |
| Users.SubmitUser | app/empresa/usuarios/page.tsx:103-122 | refused iff name or email is empty or, when creating, the password; a blank password is left out and a blank professional is null |
| Users.TogglePermission | app/empresa/usuarios/page.tsx:166-170 | the permission's membership flips, others keep theirs |
| Users.TogglePermissionTwice | app/empresa/usuarios/page.tsx:166-170 | ticking twice restores the held permissions |
| Users.TickedPermissionGrants | app/empresa/usuarios/page.tsx:103-115 | a saved user holding a ticked permission passes the navigation check for it |
| Users.EditUser | app/empresa/usuarios/page.tsx:139-147 | password cleared; role `staff` and no permissions when missing; professional shown only when non-zero |
| Users.EditThenSaveKeepsUser | app/empresa/usuarios/page.tsx:103-147 | opening and saving a stored user sends no password and the same role, permissions and professional |
| Users.ResetUserForm | app/empresa/usuarios/page.tsx:86-94 | the reset form is refused |
| Users.DropUser | app/empresa/usuarios/page.tsx:160 | exactly the users without the deleted id remain |
| Professionals.SaveProfessional | app/empresa/profissionais/page.tsx:120-158 | refused iff the name is empty; editing sends one update and no hours; creating sends the record then the batch hours |
| Professionals.ProfessionalPayloadOf | app/empresa/profissionais/page.tsx:125-132 | name and active copied; every other field null iff blank, else the same text |
| Professionals.BatchPosts | app/empresa/profissionais/page.tsx:143-157 | one opening hour per ticked day, in tick order, all with the created id and the batch's start and end; none without a usable id |
| Professionals.NewProfessionalRequests | app/empresa/profissionais/page.tsx:137-157 | at most eight requests, every opening hour on a different weekday |
| Professionals.ToggleDay | app/empresa/profissionais/page.tsx:348-354 | the day's membership flips and a new day is appended, unsorted |
| Professionals.ToggleDayKeepsBatch | app/empresa/profissionais/page.tsx:343-354 | the ticked days stay distinct weekdays |
| Professionals.ToggleDayTwice | app/empresa/profissionais/page.tsx:348-354 | ticking a day twice restores the list when it was unticked, and its contents always |
| Professionals.SavedMessage | app/empresa/profissionais/page.tsx:167-169 | the update message iff the save started as an edit |
| Professionals.AfterSave | app/empresa/profissionais/page.tsx:163-166 | the cleared form has every text field empty, is active and not editing, ticks no day, keeps the batch hours, and is refused |
| Professionals.EditProfessional | app/empresa/profissionais/page.tsx:179-187 | missing texts shown blank, missing active flag as true |
| Professionals.EditThenSaveKeepsProfessional | app/empresa/profissionais/page.tsx:120-187 | opening and saving sends one update with the same fields, empty texts as null |
| Professionals.CreateAvailability | app/empresa/profissionais/page.tsx:216-230 | refused iff professional, start or end is empty; ids and weekday through `Number` |
| Professionals.CreateAvailabilityKeepsId | app/empresa/profissionais/page.tsx:222-230 | a selected professional's id and weekday reach the server unchanged |
| Professionals.InvertedHoursAccepted | app/empresa/profissionais/page.tsx:216-219 | an end before the start is not refused |
| Professionals.DropAvailability | app/empresa/profissionais/page.tsx:256 | exactly the opening hours without the deleted id remain, in their order |
| Professionals.DropAvailabilityTwice | app/empresa/profissionais/page.tsx:256 | deleting the same id again changes nothing |
| Professionals.DropProfessional | app/empresa/profissionais/page.tsx:200 | exactly the professionals without the deleted id remain |
| Professionals.DropProfessionalTwice | app/empresa/profissionais/page.tsx:200 | deleting the same id again changes nothing |
| Services.SubmitService | app/empresa/servicos/page.tsx:102-124 | refused iff name or duration is empty; duration through `Number`; blank capacity, session type and description sent as null, any other text as given |
| Services.NonPositiveDurationSaved | app/empresa/servicos/page.tsx:102-111 | a named service whose duration text is `0` or a negative number passes the guard and is sent with that duration |
| Services.EditService | app/empresa/servicos/page.tsx:146-154 | a missing duration shows as 60; a missing or zero capacity as blank |
| Services.EditThenSaveKeepsService | app/empresa/servicos/page.tsx:102-154 | opening and saving sends the same duration (60 when missing) and capacity, zero capacity as null |
| Services.ResetServiceForm | app/empresa/servicos/page.tsx:84-93 | a 60-minute, active, capacity-less form that is refused for its missing name |
| Services.NamedResetCreates | app/empresa/servicos/page.tsx:84-124 | naming the reset form creates a 60-minute service with no capacity |
| Central.NormalizeBase | app/central/page.tsx:29-31 | a prefix of the input, not ending in `/`, with only slashes removed |
| Central.NormalizeBaseUnique | app/central/page.tsx:29-31 | the only such prefix |
| Central.NormalizeBaseIdempotent | app/central/page.tsx:29-31 | normalising twice is normalising once |
| Central.NormalizeBaseSlash | app/central/page.tsx:29-31 | an extra trailing slash makes no difference |
| Central.Login | app/central/page.tsx:118-133 | refused iff email or password is empty; the request names the central panel as device |
| Central.CreateCompany | app/central/page.tsx:144-183 | checks the login, then the domain, then the required fields, with each message; otherwise the payload |
| Central.CompanyOptionalNulls | app/central/page.tsx:166-183 | each optional part is null iff its field is blank |
| Central.ClearedCompanyForm | app/central/page.tsx:190-204 | every field blank, country `BR`; a logged-in save is refused for the domain |
| Central.ClearedFormDefaultsToBrazil | app/central/page.tsx:166-204 | filling only the required fields creates a company in `BR` |
| Home.HostName | app/page.tsx:10-11 | the text before the first colon of the header, `""` when missing |
| Home.HostNameWithPort | app/page.tsx:10-11 | a port never changes the host name |
| Home.RootPage | app/page.tsx:12-19 | the central home iff the host is `localhost`, `127.0.0.1` or starts with `central.`; otherwise a company's landing |
| Home.PortIgnored | app/page.tsx:10-19 | the port never changes the page shown |
| Home.CentralSubdomain | app/page.tsx:12-15 | every `central.` host gets the central home |
| Home.LookalikeIsCompany | app/page.tsx:12-15 | `centralx.com` gets a company's landing |

## Left out

- Network calls, `localStorage` tokens, redirects to the login page and
  toasts for server errors: the model takes server answers as parameters.
- Time zones and the `Date` parser: times are local minutes, and a
  stamp's parse result is an input (`Option<int>`). Seconds in `HH:MM:SS`
  windows are not modelled.
- Float arithmetic: money is integer cents, and the finance amount's
  `Math.round(Number(x) * 100)` input box is not modelled.
- The services page's price field (`price_cents` from a decimal text and
  back through `toFixed`) is float formatting and is left out.
- Finance.AddService: a choice that does not read as an integer (`NaN`)
  is modelled as no change, while the page would add `NaN`.
- Agenda.AgendaSlots and Bookings.AvailableHours: both require a positive
  slot length, because the page's loop never ends otherwise (see
  Findings); Agenda.GuardedAgendaSlots and Bookings.GuardedAvailableHours
  are the versions defined for every input.
- Text.ToNumber: only optionally signed decimal integers (and blank text)
  are read; `Number` also accepts fractions (`1.5`), hexadecimal (`0x10`),
  exponents (`1e3`) and `Infinity`, which the model maps to `Other`, so
  such a `total_sessions` or `day_of_month` text, or such a single service
  choice seen by Booking.Truthy, is not modelled as the page sees it.
- Text: a string is a sequence of Dafny `char`s (Unicode scalar values),
  not of UTF-16 code units; surrogate pairs and the code-unit `length` of
  text outside the Basic Multilingual Plane are not modelled.
- Text.Lower: `toLowerCase` folds every Unicode capital; the model folds
  the ASCII and Latin-1 capitals (`A`-`Z`, `À`-`Þ` except `×`) only, so a
  search that depends on other capitals is not modelled.
- Slots.WindowSlots: an opening hour's `start_time` and `end_time` are
  taken as times of day; a text that does not parse gives an invalid
  `Date`, the loop test is false and the window yields no slots, which is
  not modelled.
- Patients.FirstVisitDate: a visit's time is an integer, so a `starts_at`
  that does not parse (a `NaN` time, which makes the sort's comparator
  inconsistent) is not modelled.
- Booking.SortInts: `Array.prototype.sort` compares decimal strings; for
  weekdays 0 to 6 that equals numeric order, which is what is modelled.
- Bookings.Recall: `useMemo` compares dependencies by identity; the model
  compares values, which agrees whenever the page keeps the same arrays.
- Patients.CalculateAge: `new Date(dateString)` parsing is a parameter
  (the birth date, or none for an invalid text).
- SearchSelect.Step: keyboard focus, the DOM containment test and
  rendering are left out; an outside click is one gesture.
- Validation and persistence on the server, the dashboard
  (`app/empresa/page.tsx`), the settings, login and landing pages, and
  all rendering are not part of this model.
- Services, users, patients and evaluations: the page's `canManage` only
  disables buttons; it is modelled once as `Access.CanManage`.

## Findings

| source | as written | input that shows it | evidently intended | confidence | as-written member | corrected member |
|---|---|---|---|---|---|---|
| app/empresa/agendamentos/page.tsx:397 | the `availableHours` memo lists `capacity` and `slotMinutes` but not `primaryService`, which its mixed-service test reads | services 1 and 2, both 60 minutes and capacity 2; an appointment of service 1 at 09:00; switching the selection from service 1 to 2 keeps 09:00 on offer | the hours are recomputed whenever the primary service changes | not executed | Bookings.StaleHoursAsWritten | Bookings.RenderWithServiceIsFresh |
| app/empresa/agenda/page.tsx:340 | the slot loop advances the cursor by the service's duration, which the services page accepts as `0` or a negative number, so the loop never ends | a service saved with duration `0`, a 09:00–10:00 opening hour on the chosen weekday: `cursor + 0 <= end` holds forever | no slots when the slot length is not positive | not executed | Slots.LoopNeverEndsAsWritten | Agenda.GuardedAgendaSlots |
| app/empresa/agendamentos/page.tsx:376 | the same loop on the bookings page, with the primary service's duration | the same service selected on the bookings page with the same opening hour | no hours offered when the slot length is not positive | not executed | Slots.LoopNeverEndsAsWritten | Bookings.GuardedAvailableHours |
| app/empresa/avaliacoes/page.tsx:91-101 | the guard checks that the options text is non-blank before parsing, so a text of only commas passes | name `Postura`, options `,`: the request is sent with an empty options list | refuse the save when no option survives parsing | not executed | Evaluations.CommasOnlyAccepted | Evaluations.SubmitEvaluationChecked |
