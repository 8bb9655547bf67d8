# Meeting scheduler: a Dafny model of the scheduling components

This project models the logic inside the three React components of a small
meeting scheduler:

- **MeetingCard** shows one meeting and lets the user edit it in place. It
  keeps a draft copy of the record and an inline validation error. It derives
  a participant address list from the record's comma-joined `participants`
  field. It validates the draft (`validateMeeting`, `validateEmail`,
  `validateDateInput`) before handing it to `onUpdate`. Editing and deleting
  are blocked for a meeting already in the past.
- **ScheduleMeeting** is the creation form. It has title, date, time and
  duration inputs, and a participant list built one address at a time behind
  an unanchored e-mail pattern. Its time only counts once confirmed in a
  dialog. It has two submit checks: the button's enable condition and a
  guard inside `handleSubmit`.
- **Dashboard** holds the list of meetings. Create appends, delete filters by
  id and update replaces by id. Each mutation is applied only after the
  backend call succeeds. `onSchedule` picks create or update for the form.

Everything is a pure function over immutable datatypes. The backend is an
oracle `Reply<T> = Ok(value) | Err(message)`, passed to each step as the
value its promise settles to. "Now" is a parameter `Clock(day, millis)`, the
day number and the milliseconds since midnight. A date is a day number and a
time is minutes since midnight; an empty input is `None`.

Modules:

- `Outcomes`: `Option` and `Reply`.
- `Text`: JavaScript white space, `trim`, `split(',')`, `join(',')`, and the
  participant parse.
- `Email`: the card's anchored pattern and the form's unanchored one.
- `Lists`: remove-by-index.
- `Meetings`: the record, the past check and `validateMeeting`.
- `MeetingCard`, `ScheduleMeeting`, `Dashboard`: one module per component.
- `Flows`: the components wired together as the dashboard wires them.

Behaviour of the code worth knowing:

- A new `meeting` prop overwrites the draft and the address list even while
  the card is editing, so an edit in progress is lost
  (`MeetingCard.PropChangeOverwritesEdits`).
- Adding an address on the card does not rewrite the draft's
  `participants` field; removing and changing do
  (`MeetingCard.AddLeavesDraftBehind`). A save always sends the joined list.
- A successful card save does not re-parse the address list. Only the
  following prop change does.
- Delete and update act on every record with a matching id, not only the
  first.
- `onSchedule` swallows the failure of create and update, so the form's own
  failure message is never shown when the form is used from the dashboard
  (`Flows.FailureShowsOnBoardNotForm`).
- The form's submit guard tests `!title`, so a title of white space only is
  submitted (`ScheduleMeeting.BlankTitlePassesSubmit`), although
  `validateField` reports it as missing while typing.
- The time and duration preset buttons on the card do not clear the
  validation error; typing into an input does.
- A successful create does not clear the dashboard's error banner.
- The form's `meeting` prop and the card's `onEdit` prop are never read.
- The `'participant'` case of `validateField` is never reached, because the
  participant input does not go through `handleFieldChange`. It is modelled
  in `ScheduleMeeting.ValidateField` all the same.

## Model

| member | source | states |
|---|---|---|
| `Text.FirstKept` | src/components/MeetingCard.js:56 | scanning from the left, everything before the first kept character is white space and that character is not |
| `Text.LastKept` | src/components/MeetingCard.js:56 | scanning from the right, everything after the last kept character is white space and that character is not |
| `Text.Trim` | src/components/MeetingCard.js:56 | `trim` returns the characters between the white space it cuts on each side, in order, neither starting nor ending with white space, and empty exactly when the input is all white space |
| `Text.TrimKeepsNonSpace` | src/components/ScheduleMeeting.js:46 | every non-space character survives `trim`, shifted left by the cut prefix |
| `Text.TrimmedIsFixed` | src/components/ScheduleMeeting.js:46 | a string that neither starts nor ends with white space is left alone by `trim` |
| `Text.TrimIdempotent` | src/components/ScheduleMeeting.js:46 | trimming twice is trimming once |
| `Text.TrimOfPadded` | src/components/ScheduleMeeting.js:46 | a trimmed, non-empty text surrounded by any white space trims to itself |
| `Text.NoSpaceIsTrimmed` | src/components/MeetingCard.js:9 | a string without white space is its own trim |
| `Text.TrimKeepsAbsent` | src/components/MeetingCard.js:9 | `trim` cannot introduce a comma into a piece |
| `Text.Join` | src/components/MeetingCard.js:109 | a one-entry list joins to that entry |
| `Text.Split` | src/components/MeetingCard.js:9 | `split(',')` gives at least one piece, no piece holds a comma, and joining the pieces with ',' gives the input back |
| `Text.SplitOfSeparatorFree` | src/components/MeetingCard.js:9 | a comma-free string splits into itself alone |
| `Text.SplitJoin` | src/components/MeetingCard.js:147 | joining comma-free entries with ',' and splitting again gives the entries back |
| `Text.JoinShowsSeparator` | src/components/MeetingCard.js:147 | a join of two or more entries contains the comma |
| `Text.JoinAppend` | src/components/MeetingCard.js:101 | joining after an append adds one comma and the new entry at the end |
| `Text.ParseParticipants` | src/components/MeetingCard.js:8-10 | the participant list is empty exactly for an empty field, otherwise has one entry per comma-separated piece, and every entry is trimmed and comma-free |
| `Text.EntryIsTrimmedPiece` | src/components/MeetingCard.js:22 | each parsed entry is the trimmed piece at the same position |
| `Text.ParseJoinRoundTrip` | src/components/MeetingCard.js:147 | a list of trimmed, comma-free entries (other than the single empty entry) joined with ',' parses back to itself, so a saved list is read back unchanged |
| `Text.ParseIsStable` | src/components/MeetingCard.js:161 | parsing the joined parse of a field gives the same list, except for a field of white space only |
| `Text.ParseCommaSpace` | src/components/MeetingCard.js:22 | a field such as "a@b.com, c@d.com" parses to the two addresses without the space and rejoins as "a@b.com,c@d.com" |
| `Lists.RemoveAt` | src/components/MeetingCard.js:104-106 | removing an in-range index shortens the list by one, keeps the entries before it and shifts the later ones down; an index outside the list removes nothing |
| `Lists.RemoveAppended` | src/components/MeetingCard.js:100-106 | removing the entry just appended restores the list |
| `Lists.RemoveAtIsSlices` | src/components/ScheduleMeeting.js:52-57 | removal at an in-range index is the concatenation of the slices around it |
| `Email.MatchesCardPattern` | src/components/MeetingCard.js:44-46 | `validateEmail`: the whole string is a run of non-space, non-'@' characters, one '@', and a domain run with a '.' that has such characters on both sides |
| `Email.MatchesFormPattern` | src/components/ScheduleMeeting.js:40 | the unanchored pattern, also used by `validateField` for a participant: somewhere in the string a non-space character, '@', a non-empty non-space run, '.', and a non-space character |
| `Meetings.IsPast` | src/components/MeetingCard.js:42 | a meeting is past when its date and time are both set and its start lies strictly before now, compared to the millisecond |
| `Meetings.PastBoundary` | src/components/MeetingCard.js:42 | a meeting with an empty date or time is never past; one starting exactly now is not past, and one millisecond later it is |
| `Meetings.PastStaysPast` | src/components/MeetingCard.js:42 | a past meeting stays past at every later instant |
| `Meetings.DateNotBeforeToday` | src/components/MeetingCard.js:48-53 | a selected day passes exactly when it is today or later |
| `Email.WellFormedGivesCardMatch` | src/components/MeetingCard.js:44-46 | an address with no white space, one '@', a non-empty local part and a domain with an inner '.' matches the anchored pattern |
| `Email.CardMatchIsWellFormed` | src/components/MeetingCard.js:44-46 | whatever the anchored pattern matches has no white space, exactly one '@', a non-empty local part and a domain with an inner '.' |
| `Email.WellFormedIffCardPattern` | src/components/MeetingCard.js:44-46 | the anchored pattern accepts exactly the well-formed addresses |
| `Email.CardPatternImpliesFormPattern` | src/components/ScheduleMeeting.js:40 | every address the card accepts also passes the form's unanchored pattern |
| `Email.FormPatternAdmitsSecondAt` | src/components/ScheduleMeeting.js:40 | an extra '@' in front of an address the form accepts is still accepted by the form and rejected by the card |
| `Email.FormPatternSurvivesTrim` | src/components/ScheduleMeeting.js:40-46 | an input the form's pattern accepts still matches after `trim` and is not empty |
| `Meetings.ValidateMeeting` | src/components/MeetingCard.js:55-81 | the validator returns "" exactly when all six rules hold: non-blank title, a date not before today, a time, a duration in 1..480, a non-empty address list, every address anchored-valid |
| `Meetings.ValidateReportsFirstFailure` | src/components/MeetingCard.js:55-81 | when a rule fails and every earlier rule holds, the validator returns that rule's message |
| `Meetings.BlankTitleIsReportedFirst` | src/components/MeetingCard.js:56-58 | a blank or white-space title gives 'Meeting title is required' whatever the other fields hold |
| `Meetings.DateRuleBoundary` | src/components/MeetingCard.js:48-62 | with a usable title, a missing date or one before today gives the date message; today is accepted |
| `Meetings.DurationRuleBoundary` | src/components/MeetingCard.js:68-70 | once title, date and time pass, the duration message appears exactly when the duration is outside 1..480 |
| `Meetings.ParticipantRules` | src/components/MeetingCard.js:72-80 | an empty list gives the participant message, an address failing the anchored pattern gives the e-mail message, and otherwise the result is "" |
| `MeetingCard.Mount` | src/components/MeetingCard.js:5-10 | a card starts viewing the record it is given, without error, with that record as draft and the list parsed from it |
| `MeetingCard.PropChange` | src/components/MeetingCard.js:20-23 | a new record replaces the draft and the list, whatever the mode, and leaves mode and error |
| `MeetingCard.EditClick` | src/components/MeetingCard.js:83-89 | edit does nothing for a past meeting; otherwise it enters editing with the committed record as draft and no error, keeping the list |
| `MeetingCard.ApplyEdit` | src/components/MeetingCard.js:91-96 | an input edit sets exactly the named field of the draft to the reported value; id and participants never change |
| `MeetingCard.InputChange` | src/components/MeetingCard.js:91-98 | an input edit changes the draft as that field edit does, clears the error, and leaves the committed record, mode and list alone |
| `MeetingCard.SelectTime` | src/components/MeetingCard.js:123-128 | a preset time sets the draft's time and nothing else of the draft; the error, mode, list and committed record are kept |
| `MeetingCard.SelectDuration` | src/components/MeetingCard.js:130-135 | a preset duration sets the draft's duration and nothing else of the draft; the error, mode, list and committed record are kept |
| `MeetingCard.AddEmail` | src/components/MeetingCard.js:100-102 | append adds "" at the end and keeps the other entries; draft, committed record, mode and error are unchanged |
| `MeetingCard.RemoveEmail` | src/components/MeetingCard.js:104-111 | remove drops the index and writes the joined list into the draft's participants field, which is the only draft field that changes; committed record, mode and error are kept |
| `MeetingCard.ChangeEmail` | src/components/MeetingCard.js:113-121 | change alters only that entry and keeps the length; the joined list is written into the draft's participants field, the only draft field that changes; committed record, mode and error are kept |
| `MeetingCard.Save` | src/components/MeetingCard.js:137-157 | a record is sent exactly when the draft is valid; an invalid draft sets the validator's message; what is sent is the draft with the joined list and the same id; success returns to viewing with the backend's record as draft, no error and the list kept; failure keeps draft and list with the message or 'Error saving meeting' |
| `MeetingCard.Cancel` | src/components/MeetingCard.js:159-164 | cancel returns to viewing with the committed record, the list parsed from it and no error |
| `MeetingCard.DeleteClick` | src/components/MeetingCard.js:342-356 | delete asks for the committed record's id exactly when the card is viewing (the button is not rendered while editing) and the meeting is not past |
| `MeetingCard.EditThenCancelRestores` | src/components/MeetingCard.js:159-164 | edit followed by cancel gives back a freshly synced viewing card |
| `MeetingCard.AddThenRemoveRestores` | src/components/MeetingCard.js:100-111 | appending then removing the new entry restores the list and the draft shows the joined list |
| `MeetingCard.AddLeavesDraftBehind` | src/components/MeetingCard.js:100-102 | after an append the draft's field no longer equals the joined list |
| `MeetingCard.PropChangeOverwritesEdits` | src/components/MeetingCard.js:20-23 | a prop change while editing discards the edited draft and stays in editing |
| `MeetingCard.RetryResendsSameRecord` | src/components/MeetingCard.js:145-155 | after a refused save, saving again sends the same record |
| `MeetingCard.EditThenSaveNeedsFutureAndValid` | src/components/MeetingCard.js:83-143 | a past meeting cannot enter editing, and a save right after entering editing reaches the backend only for a valid committed record |
| `ScheduleMeeting.Initial` | src/components/ScheduleMeeting.js:5-15 | the form opens with empty title, date, time and input, duration 30, no participants, nothing confirmed, no error and no dialog, so the Schedule button starts disabled |
| `ScheduleMeeting.ValidateField` | src/components/ScheduleMeeting.js:17-30 | the exact message per field: 'Title is required.' for a blank title, 'Date is required.' and 'Time is required.' for an empty choice, 'Valid email is required.' for an empty or unmatched address, "" otherwise and for any other field |
| `ScheduleMeeting.ChangeField` | src/components/ScheduleMeeting.js:32-37 | a field edit stores the value in that field alone and replaces the error by that field's message; every other part of the form is unchanged |
| `ScheduleMeeting.TypeParticipant` | src/components/ScheduleMeeting.js:178-181 | typing an address changes the input and nothing else, the error included |
| `ScheduleMeeting.AddParticipant` | src/components/ScheduleMeeting.js:39-50 | a blank or unmatched input sets the error and changes nothing else; otherwise the trimmed input is appended and input and error are cleared, with title, date, time, duration, confirmed time and dialog kept |
| `ScheduleMeeting.AddParticipantKeepsInvariant` | src/components/ScheduleMeeting.js:39-50 | what `addParticipant` appends is trimmed, non-empty and accepted by the form's pattern |
| `ScheduleMeeting.RemoveParticipant` | src/components/ScheduleMeeting.js:52-57 | remove drops exactly that index, keeping the order of the rest, and changes nothing else of the form |
| `ScheduleMeeting.OpenTimeDialog` | src/components/ScheduleMeeting.js:59-66 | with no time selected it only sets 'Please select a time first.'; otherwise it clears the error and opens the dialog |
| `ScheduleMeeting.ConfirmTime` | src/components/ScheduleMeeting.js:68-71 | confirming copies the selected time into the confirmed time and closes the dialog |
| `ScheduleMeeting.CancelTimeDialog` | src/components/ScheduleMeeting.js:245-247 | cancelling the dialog only closes it |
| `ScheduleMeeting.SubmitEnabled` | src/components/ScheduleMeeting.js:221 | the Schedule button is enabled exactly when a time is confirmed and title and date are non-empty; participants are not consulted |
| `ScheduleMeeting.SubmitAccepted` | src/components/ScheduleMeeting.js:86 | the submit handler's guard: non-empty title and date, a confirmed time, and at least one participant |
| `ScheduleMeeting.PayloadOf` | src/components/ScheduleMeeting.js:76-82 | the submitted payload carries title, date, duration and participants from the form and the confirmed time, not the selected one, as its time |
| `ScheduleMeeting.Submit` | src/components/ScheduleMeeting.js:73-98 | an empty title, date, confirmed time or participant list gives the completion message and sends nothing; otherwise the payload carries the confirmed time, and a failure sets the scheduling message |
| `ScheduleMeeting.SubmitGuardVersusButton` | src/components/ScheduleMeeting.js:219-224 | whatever the guard accepts had the button enabled; an enabled button with no participants is turned away by the guard |
| `ScheduleMeeting.BlankTitlePassesSubmit` | src/components/ScheduleMeeting.js:86-89 | a title of white space only passes the guard and is sent |
| `ScheduleMeeting.StaleConfirmedTimeIsSent` | src/components/ScheduleMeeting.js:32-37 | changing the time after confirming keeps the old confirmed time, and that is what is sent |
| `ScheduleMeeting.ConfirmFlow` | src/components/ScheduleMeeting.js:59-71 | open then confirm makes the selected time the confirmed one; open then cancel confirms nothing |
| `ScheduleMeeting.AddThenRemoveRestores` | src/components/ScheduleMeeting.js:39-57 | adding an address then removing the last entry restores the list |
| `ScheduleMeeting.FormAcceptsWhatCardRejects` | src/components/ScheduleMeeting.js:39-50 | the form adds an address with two '@' that the card's validator will refuse |
| `ScheduleMeeting.Apply` | src/components/ScheduleMeeting.js:219-251 | each control runs its handler: field edits, typing, Add, Remove and the time Confirm button always; the dialog's Confirm and Cancel only while the dialog is shown, and Schedule only while enabled; otherwise the form is unchanged; no action changes the duration |
| `ScheduleMeeting.ConfirmReachable` | src/components/ScheduleMeeting.js:59-71 | with a time selected, opening the dialog and confirming makes that time the confirmed one and closes the dialog |
| `ScheduleMeeting.AddReachable` | src/components/ScheduleMeeting.js:39-50 | typing an address the form accepts and pressing Add lists its trimmed form and clears the input |
| `ScheduleMeeting.Run` | src/components/ScheduleMeeting.js:5-11 | the duration the form opened with is kept through any sequence of actions, since no input edits it |
| `ScheduleMeeting.ConfirmationGate` | src/components/ScheduleMeeting.js:68-71 | only the dialog's Confirm button, pressed while the dialog is shown, changes the confirmed time |
| `ScheduleMeeting.DialogOpensOnlyWithTime` | src/components/ScheduleMeeting.js:59-66 | the dialog becomes visible only through the time input's Confirm button with a time selected |
| `ScheduleMeeting.ConfirmedTimeNeedsDialog` | src/components/ScheduleMeeting.js:233-244 | over any run of actions, a changed confirmed time was set by a Confirm pressed at a step where the dialog was shown |
| `ScheduleMeeting.ApplyKeepsInvariant` | src/components/ScheduleMeeting.js:32-71 | every user action keeps every listed participant trimmed, non-empty and accepted by the form's pattern |
| `ScheduleMeeting.RunKeepsInvariant` | src/components/ScheduleMeeting.js:39-57 | any sequence of actions keeps that invariant |
| `ScheduleMeeting.SubmittedParticipantsAreAccepted` | src/components/ScheduleMeeting.js:76-82 | from the opening form, every submitted payload lists only accepted addresses |
| `Dashboard.Initial` | src/components/Dashboard.js:10-14 | the dashboard starts empty and loading, with no banner, no notice and no modal |
| `Dashboard.RemoveById` | src/components/Dashboard.js:64 | the filter keeps exactly the records whose id differs |
| `Dashboard.ReplaceById` | src/components/Dashboard.js:82-86 | the map keeps the length, puts the response at every matching position and keeps the others |
| `Dashboard.RemoveByIdAppend` | src/components/Dashboard.js:64 | filtering distributes over concatenation, so survivors keep their order |
| `Dashboard.RemoveByIdCount` | src/components/Dashboard.js:64 | the filter drops exactly as many records as carry the id |
| `Dashboard.RemoveByIdAbsent` | src/components/Dashboard.js:64 | a list without the id is left unchanged |
| `Dashboard.RemoveByIdIdempotent` | src/components/Dashboard.js:64 | filtering twice is filtering once |
| `Dashboard.ReplaceByIdIdempotent` | src/components/Dashboard.js:82-86 | replacing again with a record carrying the same id changes nothing |
| `Dashboard.Fetch` | src/components/Dashboard.js:23-35 | success replaces the whole list and the banner is empty; failure keeps the list and sets the fetch banner; loading ends; notice, modal and edited record are kept |
| `Dashboard.FetchRetryForgetsFailure` | src/components/Dashboard.js:23-35 | a successful fetch after any earlier fetch gives the same board as that fetch alone: the failure banner is cleared and the list is the fetched one |
| `Dashboard.Create` | src/components/Dashboard.js:41-57 | success appends the returned record at the end with the scheduled notice; failure keeps the list, sets the banner and rethrows; loading ends |
| `Dashboard.Delete` | src/components/Dashboard.js:60-72 | success leaves exactly the filtered list (every record with the id dropped, the rest in order) with the deleted notice; failure keeps the list and the notice and sets the banner; loading ends |
| `Dashboard.Update` | src/components/Dashboard.js:74-97 | success replaces every matching record by the response, keeping length and the others; failure keeps the list, sets the banner and rethrows; loading ends |
| `Dashboard.OpenScheduler` | src/components/Dashboard.js:119-121 | the schedule button opens the modal and keeps the list, edited record, banner, notice and loading flag |
| `Dashboard.OpenEditor` | src/components/Dashboard.js:99-102 | editing opens the modal for that record and keeps the list, banner, notice and loading flag |
| `Dashboard.CloseModal` | src/components/Dashboard.js:104-107 | closing hides the modal and forgets the edited record, keeping the list, banner, notice and loading flag |
| `Dashboard.OpenThenCloseRestores` | src/components/Dashboard.js:99-121 | opening the modal for a new or an existing meeting and closing it gives back the board it was opened from |
| `Dashboard.OnSchedule` | src/components/Dashboard.js:181-192 | an update under the edited record's id when there is one, a create otherwise; on success the list has the response in place of the edited record or appended, and the modal closes; on failure the list and notice are kept, the banner is the update or create message, and the modal stays; the form always sees success |
| `Dashboard.CreateThenDeleteRestores` | src/components/Dashboard.js:41-72 | creating a record with a fresh id and deleting it restores the list |
| `Dashboard.DeleteDropsEveryDuplicate` | src/components/Dashboard.js:60-72 | after a successful delete no record carries the id |
| `Flows.FailureShowsOnBoardNotForm` | src/components/Dashboard.js:181-192 | a refused create leaves the form without error, the banner set, the list unchanged and the modal open |
| `Flows.CreateAppendsAndCloses` | src/components/Dashboard.js:181-192 | an accepted create from the form appends the returned record and closes the modal |
| `Flows.IncompleteFormChangesNoList` | src/components/ScheduleMeeting.js:86-89 | an incomplete form changes nothing on the dashboard; with the button disabled the form is unchanged too, and a form the button lets through but the guard refuses shows the completion message |
| `Flows.SavedRecordReachesCardAndList` | src/components/Dashboard.js:74-97 | an accepted card save leaves the card viewing the returned record with the list parsed from it, and the record in the dashboard's list at every matching position |
| `Flows.DurationEditIsCommitted` | src/components/MeetingCard.js:137-157 | changing the duration and saving to a backend that stores what it is sent commits the new duration in card and list |
| `Flows.RefusedSaveShowsBothErrors` | src/components/Dashboard.js:90-94 | a refused save keeps the card editing its draft with an error, and the dashboard shows the update banner with the list unchanged |
| `Flows.DeleteFromCard` | src/components/MeetingCard.js:342-356 | a viewing card of a meeting not yet past deletes its record from the list; an editing card or a past meeting asks for nothing |
| `Flows.SubmitToBoard` | src/components/Dashboard.js:177-193 | the Schedule button does nothing while disabled; a refused guard shows the completion message and leaves the board; otherwise the payload goes to `onSchedule` and the form sees the outcome it reports |
| `Flows.SaveToBoard` | src/components/Dashboard.js:164-170 | a card save calls `handleUpdate` under the sent record's id when the card sends one, and on success the card receives the returned record as its new `meeting` prop |

## Left out

- HTTP: `src/api/meetingApi.js` is not part of this model. The backend is the `Reply` oracle. The messages the API attaches to its errors only matter through the card's `error.message || 'Error saving meeting'`, and that is modelled.
- `src/App.js` is not part of this model; it is static layout.
- Rendering: JSX, CSS classes, the time and duration preset lists, `formatDate` and `formatTime` (locale formatting through `Date`).
- Dates: JavaScript `Date` parsing, time zones, and the UTC-versus-local midnight of `validateDateInput`. A date is a day number, a time is minutes, and today and now are parameters.
- Timing: the notification timer (`setTimeout`), the `isLoading` overlay while a call is pending, and the interleaving of concurrent promises. Each step is one settled call.
- Coercion: durations typed into inputs arrive as strings; the model takes them as integers. A missing title (`title?.trim()` on `undefined`) and a missing `participants` field are not modelled; both are strings here.
- `console.log` and `console.error` output.
- Which buttons are rendered: the card's handlers other than delete are modelled as the handlers themselves, whatever the mode. The edit, save and cancel buttons and the draft inputs exist only in the matching mode, and the model does not re-check that. On the form, `ScheduleMeeting.Apply` gates the dialog buttons and the Schedule button. It does not stop the other inputs while the dialog's overlay is shown.
- MeetingCard.ChangeEmail: requires an index of a rendered entry, which is the only way the card calls it; JavaScript would grow the array for an index past the end.
- Text.Join: its own contract only covers a one-entry list; what a join means is stated by `Text.Split` (joining the pieces gives the input) and `Text.SplitJoin`.
