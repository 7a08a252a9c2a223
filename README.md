# WhatTime — a Dafny model of the scheduling add-in's rules

WhatTime is an Outlook add-in that helps an organiser pick a meeting time.
The organiser chooses attendees (internal colleagues from the directory,
external addresses, saved team groups) and proposes time ranges. Attendees
answer each proposed time, and the organiser reads the answers in lists,
calendars, heat maps and response tables before confirming a time or
proposing new ones.

The repository holds two front ends:

- `frontend/src/taskpane` is the add-in task pane: the attendee roster, the
  internal search, the external address input, the meeting optimiser form
  and the availability list and calendar.
- `whattime_example` is a demo application. It contains the simplified
  add-in with its create form, responses view and proposal editor; a
  sidebar; the response manager and response table; the e-mail preview;
  the time picker; the cards, cells and filters; the heat map; and the
  create page.

This project models the deterministic rules inside those components: what
each handler does to its component's state, what each derived value is,
and how each label is formatted. Component state becomes a Dafny `class`
whose methods are the handlers. Derived values and labels are functions,
with lemmas stating what they mean: a selection toggles, removing a range
keeps the others in order, an address read from a list is trimmed and
non-empty, a time label reads back as its hour, a percentage band is
monotone. JavaScript's own behaviour is written out where it matters:

- `split` and `join`;
- `parseInt`, with `NaN` as `None`;
- `Math.round` on a quotient;
- `toLowerCase` on ASCII letters;
- the remainder's sign;
- `undefined` from a missing array element.

Modules, one per source file, plus shared ones:

| module | models |
|---|---|
| `Wrappers`, `JsStrings`, `Seqs`, `Selection` | shared: `Option`, JavaScript string and array operations, toggled selections |
| `Attendees`, `AttendeeSelector`, `InternalUserSearch`, `ExternalAttendeeInput` | the add-in pane's attendee types, roster, directory search and external address input |
| `MeetingOptimizer`, `AvailabilityTypes`, `AvailabilityList`, `AvailabilityCalendar` | the optimiser form and the two availability views |
| `SlotDisplay`, `AddinAvailability`, `AddinNavigation`, `MeetingForm`, `FormLists`, `AddinCreateForm`, `ProposeNewTimes` | the simplified add-in: slot labels and colours, its views, the create form and the proposal editor |
| `OutlookSidebar` | the sidebar's ranges, groups, saved groups and address suggestions |
| `ResponseStatus`, `ParticipantResponses`, `ParticipantResponseTable` | the response manager, the add-in's responses view and the response table |
| `EmailTemplatePreview`, `TimePicker`, `TimeOptionCard`, `HeatmapCell`, `GroupFilter` | the e-mail preview, time picker, option card, heat map cell and group filter |
| `AvailabilityHeatmap`, `CompactAvailabilityView`, `CreatePage`, `MeetingRequestCard` | the heat map, the compact view, the create page and the request card |

## Model

| member | source | states |
|---|---|---|
| Attendees.DefaultTeamGroups | frontend/src/taskpane/types/attendee.ts:74-103 | four default team groups with pairwise distinct ids, each with no members and a colour |
| Attendees.IsInternalAttendee | frontend/src/taskpane/types/attendee.ts:106-112 | an attendee is internal exactly when it is not external, and an internal one wraps a directory user |
| Attendees.GetAttendeeEmail | frontend/src/taskpane/types/attendee.ts:114-116 | the address is `email` of an external attendee and `mail` of an internal one |
| Attendees.GetAttendeeDisplayName | frontend/src/taskpane/types/attendee.ts:118-123 | an internal attendee shows its `displayName`; an external one its own display name or else its address, never "" when it has an address |
| Attendees.CreateExternalAttendee | frontend/src/taskpane/types/attendee.ts:125-131 | the result is external, has the given address, and shows the given non-empty display name or else the address |
| Attendees.CreateInternalAttendee | frontend/src/taskpane/types/attendee.ts:133-137 | the result is internal, keeps every field of the user, and its address and display name are the user's `mail` and `displayName` |
| AttendeeSelector.ExcludeEmails | frontend/src/taskpane/components/attendees/AttendeeSelector.tsx:73 | one address per selected attendee, position by position |
| AttendeeSelector.AddBelowCapacity | frontend/src/taskpane/components/attendees/AttendeeSelector.tsx:83-89 | no `onChange` exactly when the list is at capacity; otherwise exactly one attendee appended, the earlier entries unchanged and in order |
| AttendeeSelector.HandleInternalUserSelect | frontend/src/taskpane/components/attendees/AttendeeSelector.tsx:82-90 | no `onChange` exactly at capacity; otherwise one internal attendee made from the user appended after the unchanged list |
| AttendeeSelector.HandleExternalAttendeeAdd | frontend/src/taskpane/components/attendees/AttendeeSelector.tsx:92-99 | no `onChange` exactly at capacity; otherwise the list with the attendee appended |
| AttendeeSelector.NewInternalAttendeesSpec | frontend/src/taskpane/components/attendees/AttendeeSelector.tsx:113-115 | the new attendees are internal ones made from looked-up users whose address is not selected, and every such user is among them |
| AttendeeSelector.NewInternalAttendeesConcat | frontend/src/taskpane/components/attendees/AttendeeSelector.tsx:113-115 | the new attendees of a concatenated lookup are those of each part in turn: lookup order is kept |
| AttendeeSelector.TeamGroupLookupRequest | frontend/src/taskpane/components/attendees/AttendeeSelector.tsx:101-110 | no lookup exactly for a group without members; otherwise the group's member addresses are looked up |
| AttendeeSelector.HandleTeamGroupSelect | frontend/src/taskpane/components/attendees/AttendeeSelector.tsx:101-134 | no `onChange` for an empty group or a failed lookup; a change never exceeds capacity and appends a prefix of the new attendees to the unchanged list |
| AttendeeSelector.TeamGroupSelectCount | frontend/src/taskpane/components/attendees/AttendeeSelector.tsx:118-130 | all new attendees when they fit, exactly the free places when they do not, and no `onChange` when the list is already full |
| AttendeeSelector.HandleRemoveAttendee | frontend/src/taskpane/components/attendees/AttendeeSelector.tsx:136-141 | every attendee with the removed one's address is dropped and every other one kept |
| AttendeeSelector.HandleRemoveAttendeeConcat | frontend/src/taskpane/components/attendees/AttendeeSelector.tsx:136-141 | removal works part by part on a concatenation, so the kept attendees stay in order |
| ExternalAttendeeInput.EmailRegexSpec | frontend/src/taskpane/components/attendees/ExternalAttendeeInput.tsx:43 | the regular expression accepts exactly the addresses with no white space, a single `@` with text before it, and a `.` after it that is neither the first nor the last character of the domain |
| ExternalAttendeeInput.LowerCharEmailClasses | frontend/src/taskpane/components/attendees/ExternalAttendeeInput.tsx:43 | lowercasing a character keeps it inside or outside `[^\s@]` and never makes or removes `@` or `.` |
| ExternalAttendeeInput.EmailRegexIgnoresCase | frontend/src/taskpane/components/attendees/ExternalAttendeeInput.tsx:43-63 | the regular expression accepts a text exactly when it accepts its lowercased form, so checking the lowercased address loses nothing |
| ExternalAttendeeInput.ValidateEmail | frontend/src/taskpane/components/attendees/ExternalAttendeeInput.tsx:54-68 | "required" for blank input, then "invalid" for a malformed address, then "already added" for a listed lowercased one, and valid exactly for a well-formed unlisted address |
| ExternalAttendeeInput.AddEnabledIffAddSucceeds | frontend/src/taskpane/components/attendees/ExternalAttendeeInput.tsx:70-124 | the Add button is enabled exactly when adding succeeds, though the button checks the trimmed text and the add checks it lowercased too |
| ExternalAttendeeInput.DisplayNameIsLocalPart | frontend/src/taskpane/components/attendees/ExternalAttendeeInput.tsx:80 | for a well-formed address the text before the first `@` is non-empty, has no `@`, and is followed by `@` in the address |
| ExternalAttendeeInput.AddAttemptSpec | frontend/src/taskpane/components/attendees/ExternalAttendeeInput.tsx:70-83 | an add is rejected exactly when the trimmed lowercased address fails a check, with that check's message; otherwise the external attendee has that address and the local part as name |
| ExternalAttendeeInput.ExternalAttendeeInput.constructor | frontend/src/taskpane/components/attendees/ExternalAttendeeInput.tsx:51-52 | the box starts empty with no error |
| ExternalAttendeeInput.ExternalAttendeeInput.HandleAddAttendee | frontend/src/taskpane/components/attendees/ExternalAttendeeInput.tsx:70-88 | a rejected add sets the error and keeps the text; an accepted one hands on the attendee, empties the box and clears the error |
| ExternalAttendeeInput.ExternalAttendeeInput.HandleEmailChange | frontend/src/taskpane/components/attendees/ExternalAttendeeInput.tsx:90-96 | typing replaces the text and leaves no error |
| InternalUserSearch.ExcludeSelected | frontend/src/taskpane/components/attendees/InternalUserSearch.tsx:120-122 | the shown users are returned users whose `mail` and `userPrincipalName` are both unselected, and every such user is shown |
| InternalUserSearch.ExcludeSelectedConcat | frontend/src/taskpane/components/attendees/InternalUserSearch.tsx:120-122 | the exclusion works part by part on a concatenation, so the returned order is kept |
| InternalUserSearch.GetInitials | frontend/src/taskpane/components/attendees/InternalUserSearch.tsx:153-160 | the initials are at most two characters |
| InternalUserSearch.GetInitialsOfWords | frontend/src/taskpane/components/attendees/InternalUserSearch.tsx:153-160 | a name of two or more space-separated words gives the upper-cased first letters of the first two |
| InternalUserSearch.HeadsSkipsEmpty | frontend/src/taskpane/components/attendees/InternalUserSearch.tsx:153-160 | the empty pieces left by leading, trailing or doubled spaces contribute no initial: the first characters are those of the non-empty pieces |
| InternalUserSearch.HeadsOfWords | frontend/src/taskpane/components/attendees/InternalUserSearch.tsx:153-160 | of non-empty pieces, exactly one first character each, in order |
| InternalUserSearch.GetInitialsSpec | frontend/src/taskpane/components/attendees/InternalUserSearch.tsx:153-160 | for any spacing, the initials are the upper-cased first characters of the first two non-empty pieces (fewer when there are fewer) |
| InternalUserSearch.GetInitialsOfOneWord | frontend/src/taskpane/components/attendees/InternalUserSearch.tsx:153-160 | a one-word name gives its upper-cased first letter |
| InternalUserSearch.InternalUserSearch.constructor | frontend/src/taskpane/components/attendees/InternalUserSearch.tsx:98-102 | empty query and results, not searching, no error, results hidden |
| InternalUserSearch.InternalUserSearch.SearchUsers | frontend/src/taskpane/components/attendees/InternalUserSearch.tsx:106-133 | a blank or one-character query issues no request and empties and hides the results; otherwise at most 10 users are requested, a reply shows them minus the selected ones, a failure empties them and sets the error, and searching ends either way |
| InternalUserSearch.InternalUserSearch.HandleUserSelect | frontend/src/taskpane/components/attendees/InternalUserSearch.tsx:139-144 | the user is handed on and the query, results and visibility are reset |
| MeetingOptimizer.DurationToSend | frontend/src/taskpane/components/MeetingOptimizer.tsx:131-134 | the duration sent is never 0: the parsed number when it is a non-zero number, 60 when the text does not parse or parses to 0 |
| MeetingOptimizer.DurationOfNumeral | frontend/src/taskpane/components/MeetingOptimizer.tsx:133 | a positive numeral is sent as its own value |
| MeetingOptimizer.DurationOfZero | frontend/src/taskpane/components/MeetingOptimizer.tsx:133 | "0" falls back to 60 |
| MeetingOptimizer.GetScoreColor | frontend/src/taskpane/components/MeetingOptimizer.tsx:157-161 | green exactly from 90, yellow exactly from 75 below 90, red exactly below 75 |
| MeetingOptimizer.GetScoreColorMonotone | frontend/src/taskpane/components/MeetingOptimizer.tsx:157-161 | a higher score never gets a lower band |
| MeetingOptimizer.MeetingOptimizer.constructor | frontend/src/taskpane/components/MeetingOptimizer.tsx:103-108 | no attendees, empty input, duration "60", not optimizing, no result, no error; the list has no repeats |
| MeetingOptimizer.MeetingOptimizer.AddAttendee | frontend/src/taskpane/components/MeetingOptimizer.tsx:110-115 | a non-blank unlisted trimmed input is appended and the box cleared; otherwise nothing changes; the list never gets a repeat or an untrimmed entry |
| MeetingOptimizer.MeetingOptimizer.RemoveAttendee | frontend/src/taskpane/components/MeetingOptimizer.tsx:117-119 | the list becomes the filter that drops every entry equal to the address, so the rest stay in order; nothing else changes |
| MeetingOptimizer.MeetingOptimizer.HandleOptimizeMeeting | frontend/src/taskpane/components/MeetingOptimizer.tsx:121-143 | no attendees: the error is set and no request is made; otherwise one request with the attendees and the duration to send, the result or the failure message recorded, and optimizing ends either way |
| AvailabilityList.GetConfidenceColor | frontend/src/taskpane/components/AvailabilityList.tsx:79-83 | green exactly from 90, yellow exactly from 70 below 90, red exactly below 70 |
| AvailabilityList.GetConfidenceLabel | frontend/src/taskpane/components/AvailabilityList.tsx:85-89 | "Excellent" exactly from 90, "Good" exactly from 70 below 90, "Fair" exactly below 70 |
| AvailabilityList.LabelMatchesColor | frontend/src/taskpane/components/AvailabilityList.tsx:79-89 | label and colour use the same bands |
| AvailabilityList.ConfidenceBandsMonotone | frontend/src/taskpane/components/AvailabilityList.tsx:79-89 | a higher confidence never gets a lower colour or label |
| AvailabilityList.SlotMinutes | frontend/src/taskpane/components/AvailabilityList.tsx:118 | the minutes shown are the slot length in milliseconds divided by 60000, rounded to the nearest whole number |
| AvailabilityList.SlotMinutesExact | frontend/src/taskpane/components/AvailabilityList.tsx:118 | a slot of a whole number of minutes shows that number |
| AvailabilityList.ConflictsLine | frontend/src/taskpane/components/AvailabilityList.tsx:140-144 | the conflicts line is shown exactly when `conflictCount > 0`, and reads "Conflicts: " followed by the conflicting attendees joined by ", " |
| AvailabilityList.RenderList | frontend/src/taskpane/components/AvailabilityList.tsx:91-160 | the empty state exactly for no slots; otherwise one card per slot in order, each with its minutes, badge, the available and conflict counts of the summary line, its conflicts line, and "Selected" exactly for the selected slot |
| AvailabilityCalendar.DayHeaders | frontend/src/taskpane/components/AvailabilityCalendar.tsx:90-106 | seven day headers, starting "Mon" and ending "Sun" |
| AvailabilityCalendar.ClassifySlot | frontend/src/taskpane/components/AvailabilityCalendar.tsx:112-114 | available exactly when `isAvailable`; partial exactly when not available with conflicts; busy otherwise |
| AvailabilityCalendar.CalendarCells | frontend/src/taskpane/components/AvailabilityCalendar.tsx:109-115 | the first 14 slots at most, in order, each classified and highlighted exactly when it is the selected one |
| AvailabilityCalendar.CalendarClick | frontend/src/taskpane/components/AvailabilityCalendar.tsx:116 | a click selects its slot exactly when the slot is available |
| AvailabilityCalendar.ClickedCellIsAvailable | frontend/src/taskpane/components/AvailabilityCalendar.tsx:113-116 | a selected cell is always an available one |
| SlotDisplay.Hour12 | whattime_example/components/simplified-outlook-addin.tsx:1065 | the 12-hour number: for a non-negative hour a number from 1 to 12 with the same remainder modulo 12, and 12 for a multiple of 12 |
| SlotDisplay.Meridiem | whattime_example/components/simplified-outlook-addin.tsx:1064 | "PM" exactly for a parsed hour of 12 or more, "AM" otherwise (a `NaN` hour included) |
| SlotDisplay.SplitClock24 | whattime_example/components/simplified-outlook-addin.tsx:1062 | an `HH:MM` text splits on ":" into its two zero-padded numbers |
| SlotDisplay.ParseHourOfClock24 | whattime_example/components/simplified-outlook-addin.tsx:1062-1063 | the hour piece of an `HH:MM` text parses back to the hour |
| SlotDisplay.FormatTimeOfClock | whattime_example/components/simplified-outlook-addin.tsx:1061-1067 | `HH:MM` is shown as the 12-hour number, ":", the minutes as written, a space, and "AM" exactly below hour 12 |
| SlotDisplay.FormatTimeTwelveApart | whattime_example/components/simplified-outlook-addin.tsx:1061-1067 | two times twelve hours apart are shown alike except for the AM/PM ending, which differs |
| SlotDisplay.SlotId | whattime_example/components/simplified-outlook-addin.tsx:1142 | a slot's id starts with its date and a space |
| SlotDisplay.GetAvailabilityColor | whattime_example/components/simplified-outlook-addin.tsx:1069-1074 | green exactly from 75, yellow exactly from 50 below 75, amber exactly from 25 below 50, red exactly below 25 |
| SlotDisplay.AvailabilityColorMonotone | whattime_example/components/simplified-outlook-addin.tsx:1069-1074 | a higher percentage never gets a lower band |
| CompactAvailabilityView.ListBadgeColor | whattime_example/components/compact-availability-view.tsx:186-190 | the list badge: green exactly from 75, yellow exactly from 50 below 75, red exactly below 50 |
| CompactAvailabilityView.BadgeAgreesWithBar | whattime_example/components/compact-availability-view.tsx:65-70 | the badge agrees with the bar colour from 50 up and is red where the bar is amber |
| CompactAvailabilityView.HandleConfirm | whattime_example/components/compact-availability-view.tsx:72-77 | nothing is confirmed exactly when no slot is selected |
| CompactAvailabilityView.SplitAtFirstSpace | whattime_example/components/compact-availability-view.tsx:74 | splitting on " " cuts at the first space |
| CompactAvailabilityView.HandleConfirmOfPieces | whattime_example/components/compact-availability-view.tsx:72-77 | of "date time meridiem" only the date and the time piece are reported |
| CompactAvailabilityView.HandleConfirmDropsMeridiem | whattime_example/components/compact-availability-view.tsx:72-77 | a confirmed slot reports its 12-hour time without AM or PM |
| CompactAvailabilityView.HandleConfirmConflatesAmPm | whattime_example/components/compact-availability-view.tsx:72-77 | two different slots twelve hours apart are confirmed as the same time |
| CompactAvailabilityView.HandleConfirmWhole | whattime_example/components/compact-availability-view.tsx:72-77 | the corrected split confirms nothing exactly when no slot is selected |
| CompactAvailabilityView.HandleConfirmWholeRoundTrip | whattime_example/components/compact-availability-view.tsx:72-77 | the corrected split reports a slot's date and its whole shown time |
| AddinAvailability.CardId | whattime_example/components/simplified-outlook-addin.tsx:1142 | a card's id starts with its slot's date and a space |
| AddinAvailability.FilteredSlots | whattime_example/components/simplified-outlook-addin.tsx:1097-1100 | with no date (or "") all slots, otherwise exactly the slots of that date in order |
| AddinAvailability.Insert | whattime_example/components/simplified-outlook-addin.tsx:1103 | one insertion step adds exactly the slot to the list |
| AddinAvailability.SortByAvailability | whattime_example/components/simplified-outlook-addin.tsx:1103 | the sorted copy holds the same slots, each as often |
| AddinAvailability.InsertSorted | whattime_example/components/simplified-outlook-addin.tsx:1103 | inserting into a list ordered by availability keeps it ordered |
| AddinAvailability.SortByAvailabilitySorted | whattime_example/components/simplified-outlook-addin.tsx:1103 | the sorted copy puts higher availability first |
| AddinAvailability.InsertStable | whattime_example/components/simplified-outlook-addin.tsx:1103 | an insertion keeps the order among slots of any one availability |
| AddinAvailability.SortByAvailabilityStable | whattime_example/components/simplified-outlook-addin.tsx:1103 | slots of equal availability keep their original order, as in the stable JavaScript sort |
| AddinAvailability.ShownSlotsSpec | whattime_example/components/simplified-outlook-addin.tsx:1097-1103 | the view shows the slots of the date (all without one), each as often as in the source, most available first, ties in source order |
| AddinAvailability.HandleConfirm | whattime_example/components/simplified-outlook-addin.tsx:1076-1083 | something is confirmed exactly when a non-empty selection is the card id of some slot, and then it is the first such slot's date and shown time |
| AddinAvailability.HandleConfirmOfCard | whattime_example/components/simplified-outlook-addin.tsx:1076-1083 | confirming a card reports its own slot's date and shown time |
| AddinAvailability.SameCardId | whattime_example/components/simplified-outlook-addin.tsx:1078 | two slots with the same card id have the same date and the same shown time |
| AddinAvailability.FollowUpMessage | whattime_example/components/simplified-outlook-addin.tsx:1093-1095 | "Follow-up sent to: " then the addresses joined with ", " |
| AddinAvailability.AvailabilityView.constructor | whattime_example/components/simplified-outlook-addin.tsx:932-934 | no date, no selected and no expanded slot |
| AddinAvailability.AvailabilityView.SelectDate | whattime_example/components/simplified-outlook-addin.tsx:1119 | "all" clears the date filter, any other value sets it |
| AddinAvailability.AvailabilityView.SelectTimeSlot | whattime_example/components/simplified-outlook-addin.tsx:1154 | clicking a card selects its id |
| AddinAvailability.AvailabilityView.ToggleExpandTimeSlot | whattime_example/components/simplified-outlook-addin.tsx:1085-1091 | the open card closes; any other card opens |
| AddinAvailability.AvailabilityView.Confirm | whattime_example/components/simplified-outlook-addin.tsx:1076-1083 | the Confirm button reports what the confirm rule gives for the current selection |
| AddinNavigation.ViewKinds | whattime_example/components/simplified-outlook-addin.tsx:81-101 | every view is either one of the three main views (tab buttons shown) or one of the three detail views (back button shown), never both |
| AddinNavigation.ConfirmedMessage | whattime_example/components/simplified-outlook-addin.tsx:59 | the confirmation alert is "Meeting time confirmed: " followed by exactly the chosen slot |
| AddinNavigation.AddinNavigation.constructor | whattime_example/components/simplified-outlook-addin.tsx:37-40 | the add-in opens on the create view with no meeting chosen |
| AddinNavigation.AddinNavigation.HandleViewAvailability | whattime_example/components/simplified-outlook-addin.tsx:43-46 | from the pending list, the availability view of the given meeting |
| AddinNavigation.AddinNavigation.HandleViewResponses | whattime_example/components/simplified-outlook-addin.tsx:48-51 | from the pending list, the responses view of the given meeting |
| AddinNavigation.AddinNavigation.HandleBackToMain | whattime_example/components/simplified-outlook-addin.tsx:53-56 | the chosen main view, with the meeting forgotten |
| AddinNavigation.AddinNavigation.Back | whattime_example/components/simplified-outlook-addin.tsx:81-88 | from proposing new times back to the same meeting's availability; from the other detail views to the pending list with no meeting |
| AddinNavigation.AddinNavigation.SelectTab | whattime_example/components/simplified-outlook-addin.tsx:101-128 | a tab button switches to its view and keeps the meeting state valid (a main view needs no meeting) |
| AddinNavigation.AddinNavigation.HandleConfirmTime | whattime_example/components/simplified-outlook-addin.tsx:58-61 | confirming a slot alerts the confirmation message and returns to the pending list |
| AddinNavigation.AddinNavigation.HandleProposeNewTimes | whattime_example/components/simplified-outlook-addin.tsx:63-65 | proposing new times for the same meeting; a meeting that was known stays known |
| AddinNavigation.AddinNavigation.HandleSaveNewTimes | whattime_example/components/simplified-outlook-addin.tsx:67-70 | saving proposals alerts the fixed message and returns to the pending list |
| AddinNavigation.AddinNavigation.CreateSucceeded | whattime_example/components/simplified-outlook-addin.tsx:133 | a successful create form switches to the pending list |
| MeetingForm.NewTimeRange | whattime_example/components/simplified-outlook-addin.tsx:229-240 | a new range has the given id, today's date, empty start and end, and is not all day |
| MeetingForm.EditRange | whattime_example/components/simplified-outlook-addin.tsx:248-250 | an edit sets exactly its one field and keeps the id and every other field |
| MeetingForm.UpdateTimeRangeSpec | whattime_example/components/simplified-outlook-addin.tsx:248-250 | only the range with the id gets the edit, the others stay, every id is kept and ids stay distinct |
| MeetingForm.NumberedGroupName | whattime_example/components/simplified-outlook-addin.tsx:253 | the new group's name is "Group " followed by a number that reads back as the old count plus one |
| FormLists.WithoutId | whattime_example/components/simplified-outlook-addin.tsx:244 | the filter keeps only entries of the list without the id, and keeps every entry without it |
| FormLists.WithoutIdAbsent | whattime_example/components/simplified-outlook-addin.tsx:244 | removing an id no entry has changes nothing |
| FormLists.WithoutIdConcat | whattime_example/components/simplified-outlook-addin.tsx:244 | removal by id distributes over concatenation, so the kept entries stay in order |
| FormLists.WithoutIdAt | whattime_example/components/simplified-outlook-addin.tsx:244 | with distinct ids, removing an entry's id removes exactly that entry |
| FormLists.WithoutIdDistinct | whattime_example/components/simplified-outlook-addin.tsx:244 | removal keeps the ids distinct |
| FormLists.RemoveUnlessLast | whattime_example/components/simplified-outlook-addin.tsx:242-246 | a list of at most one entry is left as it is, and removal never adds entries |
| FormLists.RemoveKeepsOne | whattime_example/components/simplified-outlook-addin.tsx:242-246 | with distinct ids at least one entry remains, ids stay distinct, an unknown id changes nothing and otherwise exactly the entry with the id goes |
| FormLists.RemoveSharedIdEmpties | whattime_example/components/simplified-outlook-addin.tsx:256-260 | the length guard alone does not keep an entry: two entries sharing the id are removed together |
| FormLists.UpdateById | whattime_example/components/simplified-outlook-addin.tsx:263 | the list keeps its length, entries without the id stay and entries with it get the change |
| FormLists.UpdateByIdKeepsIds | whattime_example/components/simplified-outlook-addin.tsx:263 | a change that keeps ids keeps every position's id and keeps ids distinct |
| FormLists.UpdateByIdAbsent | whattime_example/components/simplified-outlook-addin.tsx:263 | changing an id no entry has changes nothing |
| FormLists.UpdateByIdTwice | whattime_example/components/simplified-outlook-addin.tsx:305-316 | a change that undoes itself, applied twice by id, restores the list |
| AddinCreateForm.EditParticipant | whattime_example/components/simplified-outlook-addin.tsx:292-316 | a new address changes only the address, a key flip only the flag, and the id stays |
| AddinCreateForm.EditGroup | whattime_example/components/simplified-outlook-addin.tsx:262-316 | every group edit keeps the id; a rename changes only the name and the other edits keep the name; adding a participant appends one with the new id, no address and no key flag; removing one leaves the group's participants without that id |
| AddinCreateForm.EditParticipantSpec | whattime_example/components/simplified-outlook-addin.tsx:292-316 | in the group with the id exactly the participant with the id gets the new address or the flipped flag; every other group and participant stays |
| AddinCreateForm.ToggleKeyTwice | whattime_example/components/simplified-outlook-addin.tsx:305-316 | toggling the same participant's key flag twice restores the groups |
| AddinCreateForm.CopyParticipants | whattime_example/components/simplified-outlook-addin.tsx:326 | the copy keeps each saved participant's address and flag in order, with the id rewritten to "p", the stamp, "-" and the old id |
| AddinCreateForm.CopyParticipantsDistinct | whattime_example/components/simplified-outlook-addin.tsx:326 | the copied ids are distinct exactly when the saved ones are |
| AddinCreateForm.PreviewFailure | whattime_example/components/simplified-outlook-addin.tsx:332-356 | a blank title is reported first, then a missing duration; the preview passes exactly when the title is not blank and a duration is chosen |
| AddinCreateForm.SubmitError | whattime_example/components/simplified-outlook-addin.tsx:358-407 | title, duration, incomplete ranges, incomplete groups are reported in that order; the submit passes exactly when none applies |
| AddinCreateForm.SubmitExtendsPreview | whattime_example/components/simplified-outlook-addin.tsx:332-407 | whenever the preview check fails the submit fails with the same message, and a passing submit implies a passing preview |
| AddinCreateForm.CreateMeetingForm.constructor | whattime_example/components/simplified-outlook-addin.tsx:152-208 | one empty range dated today, the given groups, empty title, location and duration, timezone "et", no preview |
| AddinCreateForm.CreateMeetingForm.AddTimeRange | whattime_example/components/simplified-outlook-addin.tsx:229-240 | one new empty range at the end; with a fresh id the form stays valid |
| AddinCreateForm.CreateMeetingForm.RemoveTimeRange | whattime_example/components/simplified-outlook-addin.tsx:242-246 | the range goes only while more than one is left; at least one range always stays |
| AddinCreateForm.CreateMeetingForm.UpdateTimeRange | whattime_example/components/simplified-outlook-addin.tsx:248-250 | the range with the id gets the edit; the form stays valid |
| AddinCreateForm.CreateMeetingForm.AddGroup | whattime_example/components/simplified-outlook-addin.tsx:252-254 | an empty group named after the new count at the end; with a fresh id the form stays valid |
| AddinCreateForm.CreateMeetingForm.RemoveGroup | whattime_example/components/simplified-outlook-addin.tsx:256-260 | the group goes only while more than one is left; at least one group always stays |
| AddinCreateForm.CreateMeetingForm.EditGroupById | whattime_example/components/simplified-outlook-addin.tsx:262-316 | the group with the id gets the change, the others stay; ids stay distinct |
| AddinCreateForm.CreateMeetingForm.UpdateGroupName | whattime_example/components/simplified-outlook-addin.tsx:262-264 | the group with the id is renamed |
| AddinCreateForm.CreateMeetingForm.AddParticipantTo | whattime_example/components/simplified-outlook-addin.tsx:266-277 | an empty, non-key participant is added at the end of the group with the id |
| AddinCreateForm.CreateMeetingForm.RemoveParticipantFrom | whattime_example/components/simplified-outlook-addin.tsx:279-290 | the participant is removed from the group with the id, with no guard |
| AddinCreateForm.CreateMeetingForm.UpdateParticipant | whattime_example/components/simplified-outlook-addin.tsx:292-303 | the participant in the group with the id gets the new address |
| AddinCreateForm.CreateMeetingForm.ToggleKeyParticipant | whattime_example/components/simplified-outlook-addin.tsx:305-316 | the participant in the group with the id has its key flag flipped |
| AddinCreateForm.CreateMeetingForm.AddSavedGroup | whattime_example/components/simplified-outlook-addin.tsx:318-330 | an unknown saved group changes nothing; a known one is appended under the new id with its name and copied participants |
| AddinCreateForm.CreateMeetingForm.HandlePreviewEmail | whattime_example/components/simplified-outlook-addin.tsx:332-356 | the preview opens exactly when the preview check passes; otherwise its message is returned and nothing changes |
| AddinCreateForm.CreateMeetingForm.HandleSubmitMeetingRequest | whattime_example/components/simplified-outlook-addin.tsx:358-410 | submitting starts exactly when all four checks pass; otherwise the first failing message is returned and nothing changes |
| OutlookSidebar.TrimAll | whattime_example/components/outlook-sidebar.tsx:351 | each piece is trimmed, in order |
| OutlookSidebar.CurrentEmailsListed | whattime_example/components/outlook-sidebar.tsx:349-352 | every address read from a group's text is non-empty, trimmed and free of commas |
| OutlookSidebar.SplitJoinedAddresses | whattime_example/components/outlook-sidebar.tsx:354 | splitting the text joined with ", " on "," gives back the addresses, each after the first with the space in front |
| OutlookSidebar.TrimPadded | whattime_example/components/outlook-sidebar.tsx:351 | trimming those pieces gives back the trimmed addresses |
| OutlookSidebar.JoinedAddressesReadBack | whattime_example/components/outlook-sidebar.tsx:349-354 | reading back the text written by joining listed addresses gives the same addresses |
| OutlookSidebar.AddSuggestion | whattime_example/components/outlook-sidebar.tsx:346-359 | picking a suggestion keeps the group's id and name; an address already listed leaves the group, its original text included, exactly as it was |
| OutlookSidebar.AddSuggestionSpec | whattime_example/components/outlook-sidebar.tsx:346-359 | afterwards the group lists exactly its earlier addresses, followed by the picked one when it was missing; the picked address is always listed |
| OutlookSidebar.AddSuggestionIdempotent | whattime_example/components/outlook-sidebar.tsx:346-359 | picking the same suggestion twice is picking it once |
| OutlookSidebar.SuggestionsAreListed | whattime_example/components/outlook-sidebar.tsx:41-50 | every offered address is non-empty, trimmed and free of commas |
| OutlookSidebar.SavedGroupMessageSpec | whattime_example/components/outlook-sidebar.tsx:99 | the alert reads back the saved group's name and, as a number, its member count |
| OutlookSidebar.SavedGroupAlert | whattime_example/components/outlook-sidebar.tsx:95-101 | an alert exactly for a known saved group id, naming that group |
| OutlookSidebar.SavedGroupAlerts | whattime_example/components/outlook-sidebar.tsx:34-38 | the three saved groups give their alerts, each with two members |
| OutlookSidebar.EditsKeepIds | whattime_example/components/outlook-sidebar.tsx:328-359 | renaming, typing addresses and picking a suggestion keep a group's id |
| OutlookSidebar.SaveUneditedNameIsIdle | whattime_example/components/outlook-sidebar.tsx:85-93 | saving the name a group already has changes no group |
| OutlookSidebar.PickSuggestionSpec | whattime_example/components/outlook-sidebar.tsx:346-360 | only the group with the id changes; it keeps its name and lists the picked address, and stays exactly as it was when the address was already listed |
| OutlookSidebar.Sidebar.constructor | whattime_example/components/outlook-sidebar.tsx:22-31 | one empty range dated today, the groups "Internal Team" and "Client" without addresses, no name being edited |
| OutlookSidebar.Sidebar.AddTimeRange | whattime_example/components/outlook-sidebar.tsx:52-63 | one new empty range at the end; with a fresh id the sidebar stays valid |
| OutlookSidebar.Sidebar.UpdateTimeRange | whattime_example/components/outlook-sidebar.tsx:65-67 | the range with the id gets the edit; the sidebar stays valid |
| OutlookSidebar.Sidebar.RemoveTimeRange | whattime_example/components/outlook-sidebar.tsx:69-73 | the range goes only while more than one is left; at least one range always stays |
| OutlookSidebar.Sidebar.AddGroup | whattime_example/components/outlook-sidebar.tsx:75-77 | a group named after the new count, without addresses, at the end; with a fresh id the sidebar stays valid |
| OutlookSidebar.Sidebar.RemoveGroup | whattime_example/components/outlook-sidebar.tsx:79-83 | the group goes only while more than one is left; at least one group always stays |
| OutlookSidebar.Sidebar.StartEditingGroupName | whattime_example/components/outlook-sidebar.tsx:85-88 | the group with the id is being edited, starting from its current name |
| OutlookSidebar.Sidebar.SetEditingGroupName | whattime_example/components/outlook-sidebar.tsx:271 | the name being typed is recorded |
| OutlookSidebar.Sidebar.SaveGroupName | whattime_example/components/outlook-sidebar.tsx:90-93 | the group with the id takes the typed name and editing stops |
| OutlookSidebar.Sidebar.SetGroupEmails | whattime_example/components/outlook-sidebar.tsx:328-333 | the group with the id takes the typed address text |
| OutlookSidebar.Sidebar.PickSuggestion | whattime_example/components/outlook-sidebar.tsx:346-360 | the group with the id gets the suggestion added |
| OutlookSidebar.Sidebar.ApplySavedGroup | whattime_example/components/outlook-sidebar.tsx:95-101 | the alert of the saved group, and no change to the groups |
| ResponseStatus.StatusIcon | whattime_example/components/participant-response-manager.tsx:69-78 | a green check exactly for "available", a red cross exactly for "unavailable", a grey clock exactly for no response |
| Selection.Without | whattime_example/components/participant-response-manager.tsx:82 | the selection without the id: exactly the other ids, never longer |
| Selection.WithoutConcat | frontend/src/taskpane/components/MeetingOptimizer.tsx:117-119 | removal distributes over concatenation, so the entries that stay keep their order |
| Selection.WithoutIsFilter | frontend/src/taskpane/components/MeetingOptimizer.tsx:117-119 | removal is exactly the filter dropping every entry equal to the id |
| Selection.WithoutAbsent | whattime_example/components/participant-response-manager.tsx:82 | removing an id that is not selected changes nothing |
| Selection.WithoutNoDuplicates | whattime_example/components/participant-response-manager.tsx:82 | removal keeps a selection free of repeats |
| Selection.Toggle | whattime_example/components/participant-response-manager.tsx:80-86 | the id is selected afterwards exactly when it was not before, every other id keeps its state, and a new id goes at the end |
| Selection.ToggleTwiceRestores | whattime_example/components/participant-response-manager.tsx:80-86 | selecting and then deselecting a new id restores the selection |
| Selection.WithoutAppended | whattime_example/components/participant-response-manager.tsx:82-84 | removing the id just appended restores the selection |
| Selection.ToggleTwiceSameMembers | whattime_example/components/participant-response-manager.tsx:80-86 | toggling twice leaves the same ids selected |
| Selection.ToggleNoDuplicates | whattime_example/components/participant-response-manager.tsx:80-86 | toggling keeps a selection free of repeats |
| ParticipantResponses.PendingIds | whattime_example/components/participant-response-manager.tsx:91-92 | an id is listed exactly when a participant of the list with that id has not answered |
| ParticipantResponses.PendingIdsConcat | whattime_example/components/participant-response-manager.tsx:91-92 | the pending ids of two lists in a row are those of the first followed by those of the second |
| ParticipantResponses.PendingIdsIsFilterMap | whattime_example/components/participant-response-manager.tsx:91-92 | the pending ids are the unanswered participants' ids, in list order, one entry per such participant |
| ParticipantResponses.NonResponderIdsSpec | whattime_example/components/participant-response-manager.tsx:88-94 | an id is picked exactly when some group has a participant with that id who has not answered |
| ParticipantResponses.NonResponderIdsConcat | whattime_example/components/participant-response-manager.tsx:88-94 | the non-responders of two runs of groups are those of the first run followed by those of the second, so group order is kept |
| ParticipantResponses.NonResponderIdsOfAll | whattime_example/components/participant-response-manager.tsx:88-94 | going group by group gives the pending ids of the flattened participant list |
| ParticipantResponses.NonResponderIdsIsFlatMap | whattime_example/components/participant-response-manager.tsx:88-94 | the pick is flatten in group order, keep the unanswered, take ids: in that order, with one entry per unanswered participant |
| ParticipantResponses.FilteredGroups | whattime_example/components/participant-response-manager.tsx:107-114 | every group stays, in order, with only the participants whose name or address contains the query, ignoring case |
| ParticipantResponses.EmptyQueryKeepsAll | whattime_example/components/participant-response-manager.tsx:107-114 | an empty search keeps every participant |
| ParticipantResponses.SearchIgnoresCase | whattime_example/components/participant-response-manager.tsx:111-112 | a query and its lower-cased form find the same participants |
| ParticipantResponses.RespondedPendingPartition | whattime_example/components/participant-response-manager.tsx:222-277 | every participant of a group is in exactly one of the "Responded" and "Pending" lists, and their sizes add up to the group's |
| ParticipantResponses.TabGroups | whattime_example/components/participant-response-manager.tsx:171-279 | a tab shows exactly the groups whose list in that tab is not empty, each with that list |
| ParticipantResponses.TabGroupsConcat | whattime_example/components/participant-response-manager.tsx:171-279 | a tab shows the groups in their own order: over two runs of groups, the first run's shown groups come first |
| ParticipantResponses.RemindersMessageCount | whattime_example/components/participant-response-manager.tsx:102 | the reminder alert reads back as the number of participants reminded |
| ParticipantResponses.ResponsesState.constructor | whattime_example/components/simplified-outlook-addin.tsx:1385-1388 | the given groups, empty search, nothing selected, no group open |
| ParticipantResponses.ResponsesState.SetSearchQuery | whattime_example/components/simplified-outlook-addin.tsx:1386 | the search text is recorded |
| ParticipantResponses.ResponsesState.ToggleParticipantSelection | whattime_example/components/simplified-outlook-addin.tsx:1442-1448 | the selection is toggled for the id and stays free of repeats |
| ParticipantResponses.ResponsesState.SelectAllNonResponders | whattime_example/components/simplified-outlook-addin.tsx:1450-1456 | the selection becomes the ids of every unanswered participant of every group, flattened in group order, whatever the search shows |
| ParticipantResponses.ResponsesState.ClearSelection | whattime_example/components/simplified-outlook-addin.tsx:1458-1460 | nothing is selected |
| ParticipantResponses.ResponsesState.SendReminders | whattime_example/components/simplified-outlook-addin.tsx:1462-1466 | the alert counts the selection, which is then emptied |
| ParticipantResponses.ResponsesState.ToggleActiveGroup | whattime_example/components/simplified-outlook-addin.tsx:1522 | clicking the open group closes it; clicking any other group opens that one |
| ParticipantResponseTable.GetResponseStatus | whattime_example/components/participant-response-table.tsx:33-37 | "no response" when the participant has no response to the option; any other status is that of one of their responses to it |
| ParticipantResponseTable.FirstResponseCounts | whattime_example/components/participant-response-table.tsx:34 | of several responses to one option, the first one counts |
| ParticipantResponseTable.HeaderLines | whattime_example/components/participant-response-table.tsx:58-62 | neither header line holds a comma |
| ParticipantResponseTable.HeaderWithoutComma | whattime_example/components/participant-response-table.tsx:58-62 | a heading without a comma is all on the first line, with nothing below |
| ParticipantResponseTable.HeaderAtCommas | whattime_example/components/participant-response-table.tsx:58-62 | the first line is the text before the first comma, the second the text between it and the next comma or the end |
| ParticipantResponseTable.HeaderTexts | whattime_example/components/participant-response-table.tsx:55-64 | the header row is "Participant", "Group", one heading per option in order, and "Notes" |
| ParticipantResponseTable.NotesColumn | whattime_example/components/participant-response-table.tsx:95-111 | "No notes" exactly for empty notes; otherwise at most the first 20 characters followed by "...", with the whole notes in the tooltip |
| ParticipantResponseTable.RowOf | whattime_example/components/participant-response-table.tsx:75-113 | one cell per option, each the participant's status for that option |
| ParticipantResponseTable.TableBody | whattime_example/components/participant-response-table.tsx:68-115 | the placeholder exactly when there are no participants, spanning the options and three more columns; otherwise one row per participant, in order |
| ParticipantResponseTable.BodyFitsHeader | whattime_example/components/participant-response-table.tsx:55-115 | the placeholder spans exactly the header, and every row is as wide as the header |
| EmailTemplatePreview.PreviewFormatTime | whattime_example/components/email-template-preview.tsx:39-46 | an empty time shows as empty, and only an empty time does |
| EmailTemplatePreview.PreviewFormatTimeAgrees | whattime_example/components/email-template-preview.tsx:39-46 | where a minutes piece is written, the preview shows a time exactly as the availability views do |
| EmailTemplatePreview.PreviewFormatTimeOfClock | whattime_example/components/email-template-preview.tsx:39-46 | `HH:MM` shows as the 12-hour number, ":", the two-digit minutes, a space, and "AM" exactly below hour 12 |
| EmailTemplatePreview.NoMinutesPiece | whattime_example/components/email-template-preview.tsx:41-45 | without a minutes piece the preview writes "00" where the availability views write "undefined" |
| EmailTemplatePreview.PreviewFormatTimeBareHour | whattime_example/components/email-template-preview.tsx:41-45 | a bare hour shows as its 12-hour number followed by ":00" and its AM/PM |
| EmailTemplatePreview.FormatTimeOption | whattime_example/components/email-template-preview.tsx:48-53 | an all-day option shows the date and "(All day)"; a timed one the date, the start and the end |
| EmailTemplatePreview.AllDayShowsNoTimes | whattime_example/components/email-template-preview.tsx:49-50 | an all-day option's text does not depend on its times |
| EmailTemplatePreview.TimedOptionShowsTimes | whattime_example/components/email-template-preview.tsx:52 | a timed option with `HH:MM` times shows them as the availability views do |
| EmailTemplatePreview.TimezoneName | whattime_example/components/email-template-preview.tsx:64-80 | the fifteen known codes have labels, each longer than any code |
| EmailTemplatePreview.TimezoneLabel | whattime_example/components/email-template-preview.tsx:63-82 | a known code shows its non-empty label; any other code shows as it is |
| EmailTemplatePreview.TimezoneLabelIdempotent | whattime_example/components/email-template-preview.tsx:63-82 | labelling a label again changes nothing |
| EmailTemplatePreview.HeaderHourOfDay | whattime_example/components/email-template-preview.tsx:158 | up to hour 24 the header rule gives the 12-hour clock's number, between 1 and 12 |
| EmailTemplatePreview.HeaderHourPastMidnight | whattime_example/components/email-template-preview.tsx:158 | from hour 25 on the header rule gives 13 or more |
| EmailTemplatePreview.HeaderLabelAtEightPm | whattime_example/components/email-template-preview.tsx:153-160 | a first option starting at 20:00 labels its sixth column "13:00", where the wrapped rule gives "1:00" |
| EmailTemplatePreview.HeaderLabelWrappedSpec | whattime_example/components/email-template-preview.tsx:153-160 | the wrapped labels always read an hour from 1 to 12 with the right remainder modulo 12, and match the labels as written within the day |
| EmailTemplatePreview.HeaderWithinDay | whattime_example/components/email-template-preview.tsx:155-161 | for a start up to hour 18, all seven labels as written agree with the wrapped 12-hour labels |
| EmailTemplatePreview.HeaderLabels | whattime_example/components/email-template-preview.tsx:150-161 | no labels without options; otherwise the seven labels by the rule as written for the first option's start hour and the six after it; "NaN:00" for an unreadable start; 12-hour clock labels whenever the start is at most hour 18 |
| EmailTemplatePreview.CellIdInjective | whattime_example/components/email-template-preview.tsx:183 | different cells have different ids |
| EmailTemplatePreview.CellIdSplit | whattime_example/components/email-template-preview.tsx:183 | a cell id splits on "-" into its date and slot numbers |
| EmailTemplatePreview.EmailPreview.constructor | whattime_example/components/email-template-preview.tsx:32 | nothing is selected at first |
| EmailTemplatePreview.EmailPreview.ToggleOption | whattime_example/components/email-template-preview.tsx:55-61 | the option is toggled in the selection |
| EmailTemplatePreview.EmailPreview.ClickCell | whattime_example/components/email-template-preview.tsx:200 | a busy cell ignores the click; a free one toggles its id |
| EmailTemplatePreview.EmailPreview.NoAvailability | whattime_example/components/email-template-preview.tsx:224 | "No Availability" empties the selection |
| TimePicker.HoursUpTo | whattime_example/components/time-picker.tsx:12-21 | two options for each hour counted so far |
| TimePicker.Grid | whattime_example/components/time-picker.tsx:25 | the picker offers 48 options |
| TimePicker.HoursUpToAt | whattime_example/components/time-picker.tsx:12-21 | option 2h+k is hour h at minute 30k |
| TimePicker.GenerateTimeOptions | whattime_example/components/time-picker.tsx:10-23 | the nested loops build exactly the grid of every hour at minutes 0 and 30, in order |
| TimePicker.GridEntry | whattime_example/components/time-picker.tsx:12-21 | each of the 48 options is some hour below 24 at minute 0 or 30 |
| TimePicker.ClockTextOf | whattime_example/components/time-picker.tsx:17 | a zero-padded `HH:MM` value holds its two numbers and reads as the minutes since midnight |
| TimePicker.GridValueMinutes | whattime_example/components/time-picker.tsx:17 | option i's value is the time 30i minutes after midnight |
| TimePicker.GridIncreasing | whattime_example/components/time-picker.tsx:12-21 | later options are later by 30 minutes a step, so no value repeats |
| TimePicker.GridEnds | whattime_example/components/time-picker.tsx:12-21 | the first value is "00:00" and the last "23:30" |
| TimePicker.GridValueShape | whattime_example/components/time-picker.tsx:17 | every value is `HH:MM` with minutes "00" or "30" |
| TimePicker.GridLabelIsFormattedValue | whattime_example/components/time-picker.tsx:14-18 | every option's label is its value as the availability views format it |
| TimePicker.ButtonLabel | whattime_example/components/time-picker.tsx:48 | "Select time" with nothing picked; the label of an option with the picked value; nothing for a value no option has |
| TimePicker.ButtonShowsPickedLabel | whattime_example/components/time-picker.tsx:48 | after picking an option, the button shows that option's label |
| TimePicker.TimePickerState.constructor | whattime_example/components/time-picker.tsx:32-33 | closed, with nothing picked |
| TimePicker.TimePickerState.SetOpen | whattime_example/components/time-picker.tsx:44 | the popover opens or closes as asked |
| TimePicker.TimePickerState.HandleSelect | whattime_example/components/time-picker.tsx:35-41 | the picked time is recorded, the popover closes, and the time is reported exactly when a callback is given |
| TimeOptionCard.TotalResponses | whattime_example/components/time-option-card.tsx:24 | the total counts at least the available answers, and is zero exactly when all three counts are |
| TimeOptionCard.AvailabilityPercentage | whattime_example/components/time-option-card.tsx:25 | no number (`NaN`) exactly without responses; otherwise the whole percent nearest to the available share, halves rounded up |
| TimeOptionCard.PercentageBounds | whattime_example/components/time-option-card.tsx:25 | the percentage is at most 100, is 0 exactly when fewer than one in two hundred are available, and is 100 when everybody is |
| TimeOptionCard.PercentageMonotone | whattime_example/components/time-option-card.tsx:25 | with the same total, more available answers never lower the percentage |
| TimeOptionCard.PercentageColor | whattime_example/components/time-option-card.tsx:66-75 | green exactly above 75, amber exactly above 50 up to 75, red otherwise, `NaN` included |
| TimeOptionCard.ThresholdsAreStrict | whattime_example/components/time-option-card.tsx:69-73 | 75 is amber and 76 green, 50 is red and 51 amber |
| TimeOptionCard.PercentageText | whattime_example/components/time-option-card.tsx:76 | the number followed by "%", or "NaN%" without responses |
| TimeOptionCard.PreferredBadge | whattime_example/components/time-option-card.tsx:40 | the "Preferred" badge exactly for a preferred option |
| TimeOptionCard.AllAvailableIsGreen | whattime_example/components/time-option-card.tsx:24-75 | when everybody who answered is available, the card reads 100 in green |
| HeatmapCell.BackgroundColor | whattime_example/components/heatmap-cell.tsx:12-19 | a non-empty colour prop wins; otherwise red exactly up to 25, amber exactly above 25 up to 50, yellow exactly above 50 up to 75, green exactly above 75 |
| HeatmapCell.BandsMonotone | whattime_example/components/heatmap-cell.tsx:15-18 | a higher percentage never gets a lower band |
| HeatmapCell.CellAndAvailabilityColor | whattime_example/components/heatmap-cell.tsx:15-18 | the cell's bands agree with the availability views' colours except at 25, 50 and 75, where the cell picks the lower band |
| HeatmapCell.PercentageLabel | whattime_example/components/heatmap-cell.tsx:41-43 | the percentage text is printed exactly at the default size |
| HeatmapCell.SizeClass | whattime_example/components/heatmap-cell.tsx:30 | the large box exactly at the default size, which is also the size when none is given |
| GroupFilter.ToggleGroup | whattime_example/components/group-filter.tsx:19-25 | a selected group is removed, any other is appended |
| GroupFilter.SelectAll | whattime_example/components/group-filter.tsx:27-29 | every group's id, in order |
| GroupFilter.ClearAll | whattime_example/components/group-filter.tsx:31-33 | nothing is selected |
| GroupFilter.SelectAllAndClear | whattime_example/components/group-filter.tsx:27-55 | after "Select all" every listed group is highlighted; after "Clear" none is |
| GroupFilter.SelectAllOnlyListed | whattime_example/components/group-filter.tsx:27-29 | "Select all" selects exactly the ids of the listed groups |
| GroupFilter.ToggleFlipsOneBadge | whattime_example/components/group-filter.tsx:19-57 | a click flips the clicked group's highlight and leaves every other group's |
| GroupFilter.ToggleGroupTwice | whattime_example/components/group-filter.tsx:19-25 | two clicks on a group restore every highlight, and the selection itself when the group was not selected |
| GroupFilter.SelectAllDistinct | whattime_example/components/group-filter.tsx:27-29 | with distinct group ids, "Select all" lists no id twice |
| AvailabilityHeatmap.CellData | whattime_example/components/availability-heatmap.tsx:83 | a cell's figures are those stored for its date and slot, and none when either is missing |
| AvailabilityHeatmap.ValueOr0 | whattime_example/components/availability-heatmap.tsx:98 | a stored figure is read as it is, a missing one as 0 |
| AvailabilityHeatmap.MissingReadsZero | whattime_example/components/availability-heatmap.tsx:83-106 | a missing date, slot or key reads 0; a stored one reads its value |
| AvailabilityHeatmap.CellPercentages | whattime_example/components/availability-heatmap.tsx:97-112 | the overall figure in "all" mode; otherwise one figure per selected group, in selection order |
| AvailabilityHeatmap.OneCellHighlighted | whattime_example/components/availability-heatmap.tsx:90 | at most one cell is highlighted |
| AvailabilityHeatmap.AfterClick | whattime_example/components/availability-heatmap.tsx:39-45 | clicking the selected cell clears the selection; clicking another selects it |
| AvailabilityHeatmap.ClickSequences | whattime_example/components/availability-heatmap.tsx:39-45 | two clicks on one cell leave nothing selected; a click on another cell then selects that one |
| AvailabilityHeatmap.HeatmapState.constructor | whattime_example/components/availability-heatmap.tsx:37 | nothing is selected at first |
| AvailabilityHeatmap.HeatmapState.HandleCellClick | whattime_example/components/availability-heatmap.tsx:39-45 | the selection after a click, as above |
| AvailabilityHeatmap.HeatmapState.HandleConfirmSelection | whattime_example/components/availability-heatmap.tsx:47-52 | the selected cell, if any, is reported and the selection cleared |
| AvailabilityHeatmap.HeatmapState.Cancel | whattime_example/components/availability-heatmap.tsx:166 | "Cancel" clears the selection |
| CreatePage.CreateMeetingPage.constructor | whattime_example/app/create/page.tsx:22-26 | one time option with no time, the groups "Internal Team" and "Client" without addresses |
| CreatePage.CreateMeetingPage.AddTimeOption | whattime_example/app/create/page.tsx:28-30 | one new option at the end; with a fresh id the page stays valid |
| CreatePage.CreateMeetingPage.RemoveTimeOption | whattime_example/app/create/page.tsx:32-36 | the option goes only while more than one is left; at least one always stays |
| CreatePage.CreateMeetingPage.AddParticipantGroup | whattime_example/app/create/page.tsx:38-40 | one unnamed group without addresses at the end; with a fresh id the page stays valid |
| CreatePage.CreateMeetingPage.RemoveParticipantGroup | whattime_example/app/create/page.tsx:42-46 | the group goes only while more than one is left; at least one always stays |
| CreatePage.DisabledExactlyWhenRemoveIsIdle | whattime_example/app/create/page.tsx:32-124 | the delete button is disabled exactly when its handler would do nothing; otherwise it removes one option |
| CreatePage.CanRemoveExactlyWhenRemoveActs | whattime_example/app/create/page.tsx:42-156 | a group may be removed exactly when its handler would remove one |
| MeetingRequestCard.ReplaceWhitespaceRuns | whattime_example/components/meeting-request-card.tsx:76 | no white space is left after the runs are replaced |
| MeetingRequestCard.Slug | whattime_example/components/meeting-request-card.tsx:76 | the link's slug holds no white space |
| MeetingRequestCard.WordPrefix | whattime_example/components/meeting-request-card.tsx:76 | text without white space is kept as it is in front of the rest |
| MeetingRequestCard.TrimStartAfterBlank | whattime_example/components/meeting-request-card.tsx:76 | a run of white space is skipped up to the next other character |
| MeetingRequestCard.RunPrefix | whattime_example/components/meeting-request-card.tsx:76 | a whole run of white space becomes one "-" |
| MeetingRequestCard.ReplaceRunsOfWords | whattime_example/components/meeting-request-card.tsx:76 | words separated by runs of white space come out joined by single dashes |
| MeetingRequestCard.RunsKeepOrder | whattime_example/components/meeting-request-card.tsx:76 | apart from the dashes the result keeps, in order, exactly the characters that are neither white space nor "-" |
| MeetingRequestCard.SlugKeepsOrder | whattime_example/components/meeting-request-card.tsx:76 | the slug holds the lower-cased title's other characters, in order |
| MeetingRequestCard.BadgeVariant | whattime_example/components/meeting-request-card.tsx:33 | the filled badge exactly above a 50% response rate, the outlined one otherwise |
| MeetingRequestCard.CountLabelsShowLengths | whattime_example/components/meeting-request-card.tsx:40-54 | the groups and proposed-times headings read back the list lengths |
| MeetingRequestCard.CountLabelReadsBack | whattime_example/components/meeting-request-card.tsx:40-54 | a count label reads back its count after its prefix |
| ProposeNewTimes.ProposeNewTimesForm.constructor | whattime_example/components/simplified-outlook-addin.tsx:1282-1284 | one empty range dated today |
| ProposeNewTimes.ProposeNewTimesForm.AddTimeRange | whattime_example/components/simplified-outlook-addin.tsx:1286-1297 | one new empty range at the end; with a fresh id the form stays valid |
| ProposeNewTimes.ProposeNewTimesForm.RemoveTimeRange | whattime_example/components/simplified-outlook-addin.tsx:1299-1303 | the range goes only while more than one is left; at least one always stays |
| ProposeNewTimes.ProposeNewTimesForm.UpdateTimeRange | whattime_example/components/simplified-outlook-addin.tsx:1305-1307 | the range with the id gets the edit; the form stays valid |
| JsStrings.LeadingEnd | whattime_example/components/simplified-outlook-addin.tsx:336 | the white space skipped from a position on ends at the end of the text or at a character that is not white space |
| JsStrings.TrailingStart | whattime_example/components/simplified-outlook-addin.tsx:336 | the white space skipped backwards ends at the start of the text or after a character that is not white space |
| JsStrings.TrimSpec | whattime_example/components/simplified-outlook-addin.tsx:336 | `trim()` gives a piece of the text that neither starts nor ends with white space |
| JsStrings.TrimOfTrimmed | whattime_example/components/outlook-sidebar.tsx:351 | a text without white space at either end is its own trim |
| JsStrings.TrimEmptyIffBlank | whattime_example/components/simplified-outlook-addin.tsx:336 | the trim is empty exactly when the text is all white space, so `!s.trim()` tests for a blank text |
| JsStrings.TrimKeepsNonWhitespace | whattime_example/components/simplified-outlook-addin.tsx:397 | a text with a character that is not white space does not trim to empty |
| JsStrings.TrimIdempotent | frontend/src/taskpane/components/attendees/ExternalAttendeeInput.tsx:71 | trimming twice is trimming once |
| JsStrings.TrimAfterSpace | whattime_example/components/outlook-sidebar.tsx:351 | leading white space in front of a trimmed text is dropped |
| JsStrings.ToLower | whattime_example/components/participant-response-manager.tsx:111 | `toLowerCase()` maps every character and keeps the length |
| JsStrings.ToUpper | frontend/src/taskpane/components/attendees/InternalUserSearch.tsx:159 | `toUpperCase()` maps every character and keeps the length |
| JsStrings.ToLowerIdempotent | whattime_example/components/participant-response-manager.tsx:111 | lower-casing twice is lower-casing once |
| JsStrings.ToLowerConcat | whattime_example/components/participant-response-manager.tsx:111 | lower-casing distributes over concatenation |
| JsStrings.LowerCharWhitespace | frontend/src/taskpane/components/attendees/ExternalAttendeeInput.tsx:71 | lower-casing neither makes nor removes white space |
| JsStrings.ContainsEmpty | whattime_example/components/participant-response-manager.tsx:111 | every text contains the empty text |
| JsStrings.Split | whattime_example/components/outlook-sidebar.tsx:350 | `split(sep)` gives at least one piece, and no piece holds the separator |
| JsStrings.SplitNoSeparator | whattime_example/components/outlook-sidebar.tsx:350 | a text without the separator splits into itself alone |
| JsStrings.SplitPrefix | whattime_example/components/outlook-sidebar.tsx:350 | a separator-free prefix joins the first piece of the rest |
| JsStrings.SplitAtSeparator | whattime_example/components/outlook-sidebar.tsx:350 | the text before the first separator is the first piece, and the rest splits on |
| JsStrings.SplitFirstPiece | whattime_example/components/outlook-sidebar.tsx:350 | the first piece is a prefix that ends at the end of the text or at a separator |
| JsStrings.SplitJoin | whattime_example/components/outlook-sidebar.tsx:350-354 | splitting pieces joined by the separator and a separator-free text gives the first piece, then the others with that text in front |
| JsStrings.SplitJoinInverse | whattime_example/components/outlook-sidebar.tsx:350-354 | splitting pieces joined by the bare separator gives them back |
| JsStrings.LongestPrefix | whattime_example/components/email-template-preview.tsx:42 | the longest prefix of digits: all its characters qualify and the next one does not |
| JsStrings.NatToString | whattime_example/components/time-picker.tsx:17 | a number's decimal numeral is at least one digit |
| JsStrings.Pad2 | whattime_example/components/time-picker.tsx:17 | `padStart(2, "0")` gives at least two digits |
| JsStrings.DecimalValueOfNatToString | whattime_example/components/time-picker.tsx:17 | a numeral reads back as its number |
| JsStrings.ParseIntOfDigits | whattime_example/components/email-template-preview.tsx:42 | `Number.parseInt` of a digit run followed by a non-digit is the run's value |
| JsStrings.ParseIntUnsigned | whattime_example/components/email-template-preview.tsx:42 | an unsigned text parses to its magnitude |
| JsStrings.TrimStartOfDigit | whattime_example/components/email-template-preview.tsx:42 | a text starting with a digit has no leading white space to skip |
| JsStrings.MagnitudeOfDigits | whattime_example/components/email-template-preview.tsx:42 | the magnitude of a digit run followed by a non-digit is the run's value |
| JsStrings.LongestPrefixAll | whattime_example/components/email-template-preview.tsx:42 | a run of qualifying characters followed by one that does not is the longest prefix |
| JsStrings.ParseNatToString | whattime_example/components/email-template-preview.tsx:42 | a written number followed by a non-numeral reads back as that number |
| JsStrings.ParsePad2 | whattime_example/components/email-template-preview.tsx:42 | a zero-padded number below 100 reads back as that number |
| JsStrings.Pad2Value | whattime_example/components/time-picker.tsx:17 | a number below 100 pads to exactly two digits of that value |
| JsStrings.Pad2Length | whattime_example/components/time-picker.tsx:17 | a number below 100 pads to exactly two characters |
| JsStrings.JsRem | whattime_example/components/time-picker.tsx:14 | JavaScript's `%` takes the sign of the dividend and stays below the divisor in size |
| Seqs.Filter | whattime_example/components/participant-response-manager.tsx:82 | `filter` keeps exactly the elements that pass, never more than there were |
| Seqs.FilterConcat | whattime_example/components/participant-response-manager.tsx:82 | filtering distributes over concatenation, so kept elements stay in order |
| Seqs.FilterAllPass | whattime_example/components/participant-response-manager.tsx:109-113 | when every element passes, the filter returns the list itself |
| Seqs.FilterAgree | whattime_example/components/participant-response-manager.tsx:109-113 | predicates that agree on every element keep the same elements |
| Seqs.FilterComplementLength | whattime_example/components/participant-response-manager.tsx:222-277 | a predicate and its negation keep as many elements as there are |
| Seqs.FilterNonEmpty | whattime_example/components/participant-response-manager.tsx:223 | a filter is non-empty exactly when some element passes |
| Seqs.FilterNoDuplicates | whattime_example/components/participant-response-manager.tsx:82 | filtering a list without repeats leaves none |
| Seqs.FindIndex | whattime_example/components/outlook-sidebar.tsx:96 | no index exactly when no element passes; otherwise the first passing index |
| Seqs.Find | whattime_example/components/outlook-sidebar.tsx:96 | `find` gives nothing exactly when no element passes; otherwise a passing element of the list |
| Seqs.FindAt | whattime_example/components/participant-response-table.tsx:34 | the element at the first passing position is the one found |

## Left out

- Slot ranking: the repository's design describes an engine that generates candidate slots and scores them. The code has no such engine. The server's optimise route returns one fixed suggestion (WhatTime/server/app.js:219-248), and `getDetailedAvailability`, called at frontend/src/taskpane/components/AvailabilityManager.tsx:82, is defined nowhere. The model follows the code, so there is no slot generator or scorer in it.
- Network, sign-in and Office.js: the server routes, the token exchange, the Graph calls in authService.ts and the Office mailbox API are not modelled. Where a component uses their answer (the directory search results, a team group's members, the optimise response), the model takes that answer, or its failure, as a parameter.
- Timers: the search debounce, the delayed blur that hides suggestions and the simulated submit delay are not modelled. AddinCreateForm.CreateMeetingForm.HandleSubmitMeetingRequest stops where the simulated call starts, with `isSubmitting` set; the callback's reset and success toast are not modelled.
- Clock and randomness: ids from `Date.now()`, default dates from `new Date()` and the random busy cells of the e-mail preview become parameters of the handlers that use them.
- Dates and locales: `toLocaleDateString`, `toLocaleTimeString`, the `formatDate` helpers and the date-fns `parse`/`format` calls are not modelled. The heat map's time label and the compact view's date text are among them; the compact view's confirmation is modelled on the date and time pieces it joins.
- Floating point: the heat map cell's opacity is not modelled.
- TimeOptionCard.AvailabilityPercentage: it rounds the exact quotient, half up. JavaScript rounds the double `a / t * 100`, which can fall just below a half; for 29 of 200 the double product is slightly under 14.5, giving 14 where the model gives 15.
- Text: case mapping covers ASCII letters only, and strings are sequences of characters, not UTF-16 code units.
- `timezoneMap[timezone]`: the model looks up the fifteen listed codes only. It does not model JavaScript's inherited object keys such as `constructor`.
- Object identity: components that compare objects by reference are modelled by position or by id.
- Distinct ids: removing a range or group takes out exactly one entry, and never the last one, only while ids are distinct. The ids come from `Date.now()`, and the form invariants assume they are distinct. With a repeated id the source's `filter` drops every entry carrying it, so two ranges sharing an id can both go (FormLists.RemoveSharedIdEmpties).
- The e-mail preview's unused header variables (`ampm`, `time24`) have no effect and are not modelled. `formatTimeOption` is defined but not rendered; it is modelled as written.
- `getBackgroundColor` of the heat map cell is defined but not used by its render, which uses a gradient. It is modelled as written.
- State outside the rules: the sidebar's and the response manager's tab switches, and the create page's submit toast, are not modelled. The toast only shows fixed text. The response manager has no open group; `ResponsesState.activeGroup` belongs to the add-in's responses view.
- Fixtures: the mock meetings, groups and responses are inputs to the model. The exceptions are the sidebar's saved groups and address suggestions, which decide the handlers' results and are constants.
- Rendering: layout, icons and styling classes are left out, except where a class name encodes a rule (colour bands, sizes, badges).
- ParticipantResponseTable.HeaderLines: the repository's design description says the second header line is everything after the first comma. The code takes `split(",")[1]`, the text between the first and second commas, and the model follows the code.
- OutlookSidebar.CurrentEmails: it carries no contract of its own. What it reads from a group's text is stated by CurrentEmailsListed, JoinedAddressesReadBack and AddSuggestionSpec.
- AttendeeSelector.NewInternalAttendees: its own contract bounds only the length. Which attendees it keeps and in what form is stated by NewInternalAttendeesSpec.
- AvailabilityCalendar.DayHeaders: its contract states the count and the first and last headers, not each of the seven names.

## Findings

| source | as written | input that shows it | evidently intended | confidence | as-written member | corrected member |
|---|---|---|---|---|---|---|
| whattime_example/components/compact-availability-view.tsx:72-77 | the confirmation splits the slot id on spaces and keeps only the second piece, the clock without its AM/PM ending | date 2024-06-10 with the slots 09:00 and 21:00: the ids differ, both confirm as "9:00" | the whole time text after the date | not executed | CompactAvailabilityView.HandleConfirmConflatesAmPm | CompactAvailabilityView.HandleConfirmWholeRoundTrip |
| whattime_example/components/email-template-preview.tsx:158 | the header's hour is the first option's start hour plus the column, reduced by 12 once when above 12, with no wrap past midnight | a first option starting at 20:00: the sixth column (hour 25) reads "13:00" | a 12-hour clock that wraps past midnight, "1:00" | not executed | EmailTemplatePreview.HeaderLabelAtEightPm | EmailTemplatePreview.HeaderLabelWrappedSpec |
