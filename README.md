# E-mail and appointments dashboard: verified model of the page logic

This project models, in Dafny, the logic of a React dashboard for e-mail and appointments. Seven pieces of it are modelled:

- **The appointments month grid.** This covers the days in the month and the week day of the 1st. It covers the cells: the leading blanks, then one cell per day, each flagged when an appointment falls on that day. It also covers month navigation, day clicks, the selected-cell highlight and the agenda's time label.
- **The Appointments page.** It holds the appointment list. An effect keeps the selected day's agenda in step with that list. The sidebar shows the next seven days' appointments sorted by time. The page also has the status colour table, the delete and save handlers, and the modals.
- **The category form's submit handler.** It cleans up the comma-separated list of target e-mail addresses.
- **The Kanban board.** It has an "Uncategorized" column and one column per category. Its drag-end handler moves an e-mail to a category.
- **The inbox page.** It covers:
  - the query parameters of the list request;
  - opening an e-mail, which also marks it read;
  - deleting an e-mail;
  - the category filter select;
  - the body preview.
- **The categories page.** It covers the category list, the create, edit, delete and save handlers, and the modal.
- **The settings page.** It covers the three form records, the field-change handlers, the save handlers and their notification banner.

Each page's component state is a Dafny `class`, and each handler is a `method` on it. A method's contract gives the new value of every field. A list update is the new value of a `seq` field, defined by `Filter`, `ReplaceWhere` or an append.

Calls and events the page code does not control are parameters of the handlers:

- REST calls: the response (`Response.Ok(data)` or `Failed`);
- confirmation dialogs: a boolean;
- the clock: `today` or `now`;
- `parseISO`: a function `string -> Option<Timestamp>`, where None is an Invalid Date. Its type, `CalendarView.Parser`, admits only functions whose every Some is a valid calendar day and time of day.

The handlers return the toast they raise.

Shared modules model the JavaScript and date-fns built-ins the handlers depend on:

- `JsString`:
  - `trim`, `split` and `join` on one character;
  - `parseInt`, `Number` and `toString` for integers;
  - `slice` and `substring`;
  - ASCII `toLowerCase`.
- `Lists`: `filter`, `map` as replacement, `find`, and a stable `sort` by a numeric key.
- `Dates`:
  - the `Date` constructor's month and day overflow, and its two-digit-year rule;
  - proleptic Gregorian day numbers and `getDay`;
  - `addDays`, `startOfDay` and `endOfDay`.

Months are numbered as `getMonth` numbers them: 0 is January.

Three behaviours of the source are modelled as written:

- The selected day's agenda is recomputed only while the appointment list is not empty. Deleting the last appointment leaves the previous agenda on screen.
- A drop on the Uncategorized column is always rejected, because `parseInt("uncategorized")` is NaN.
- The upcoming window's strict comparisons leave out two instants: midnight exactly today, and 23:59:59.999 exactly seven days on.

## Model

| member | source | states |
|---|---|---|
| JsString.Trim | src/pages/EmailCategories/CategoryModal.tsx:59 | trim's result is the input's text between its leading white space and its trailing white space: it starts right after the leading run, only white space follows it, it has no white space at either end, and it is empty exactly when the input is all white space |
| JsString.TrimmedIsFixed | src/pages/EmailCategories/CategoryModal.tsx:59 | a string with no white space at either end trims to itself |
| JsString.Join | src/pages/EmailCategories/CategoryModal.tsx:61 | join of no parts is ""; the result starts with the first part, followed by the separator when there is a second part |
| JsString.Split | src/pages/EmailCategories/CategoryModal.tsx:58 | split on "," gives at least one part and no part contains "," |
| JsString.JoinSplit | src/pages/EmailCategories/CategoryModal.tsx:58-61 | joining the parts of a split with the same separator restores the string |
| JsString.SplitJoin | src/pages/EmailCategories/CategoryModal.tsx:58-61 | splitting a join of one or more separator-free parts gives back exactly those parts |
| JsString.NatToString | src/components/EmailKanban/KanBanBoard.tsx:139 | an id's toString is a non-empty run of decimal digits with no leading zero except for 0 itself |
| JsString.ParseInt | src/components/EmailKanban/KanBanBoard.tsx:86-87 | parseInt gives a number iff, after leading white space and an optional sign, a decimal digit comes (a "0x" prefix aside); a negative result comes only after a minus sign |
| JsString.IntToString | src/components/EmailKanban/KanBanBoard.tsx:139 | toString writes a minus sign exactly for negative numbers, then the decimal digits of the magnitude, with no white space at either end |
| JsString.ToNumber | src/pages/EmailInbox.tsx:193 | Number of an all-white-space text is 0, and a number read from any other text ends in a decimal digit after the trim |
| JsString.ToNumberAgreesWithParseInt | src/pages/EmailInbox.tsx:193 | wherever Number reads an integer, parseInt reads the same integer |
| JsString.ParseIntToString | src/components/EmailKanban/KanBanBoard.tsx:86-87 | parseInt reads back every integer that toString writes |
| JsString.ToNumberToString | src/pages/EmailInbox.tsx:193 | Number reads back every integer that toString writes |
| JsString.Slice | src/components/Appointments/CalendarView.tsx:158 | slice with in-range bounds is the subsequence between them; an empty or reversed range gives "" |
| JsString.Substring | src/pages/EmailInbox.tsx:262 | substring with in-range bounds is the subsequence between them, with the bounds swapped when start > end |
| JsString.ToLower | src/pages/Appointments.tsx:141 | toLowerCase keeps the length and lower-cases every letter A to Z |
| JsString.ToLowerIdempotent | src/pages/Appointments.tsx:141 | lower-casing twice is lower-casing once |
| Lists.Filter | src/pages/Appointments.tsx:106 | filter keeps exactly the elements that pass the predicate and is no longer than its input |
| Lists.FilterIsSubsequence | src/pages/Appointments.tsx:106 | what filter keeps stays in its original order |
| Lists.FilterCount | src/pages/Appointments.tsx:106 | filter keeps every occurrence of a passing element and none of a failing one |
| Lists.FilterKeepsAll | src/pages/EmailCategories/CategoryModal.tsx:60 | a filter every element passes returns the list unchanged |
| Lists.ReplaceWhere | src/pages/Appointments.tsx:121-125 | the map replaces exactly the elements that match and keeps the length and all other positions |
| Lists.Find | src/components/EmailKanban/KanBanBoard.tsx:102 | find returns the first matching element, and nothing iff no element matches |
| Lists.SortByKey | src/pages/Appointments.tsx:86-90 | sort by a numeric comparator gives an ascending permutation of its input |
| Lists.SortByKeyStable | src/pages/Appointments.tsx:86-90 | the sort is stable: elements with equal keys keep their relative order |
| Dates.MonthLength | src/components/Appointments/CalendarView.tsx:34 | every month has 28 to 31 days, and February has 29 exactly in leap years |
| Dates.YearStep | src/components/Appointments/CalendarView.tsx:34 | consecutive 1 Januaries are one year's length apart, by the Gregorian leap-year rule |
| Dates.RollBack | src/components/Appointments/CalendarView.tsx:34 | a day number below 1 rolls back into a valid day of a preceding month |
| Dates.RollForward | src/components/Appointments/CalendarView.tsx:57 | a day number past the month's end rolls forward into a valid day of a following month |
| Dates.MakeDateNumber | src/components/Appointments/CalendarView.tsx:57 | `new Date(y, m, d)` is day d counted on from the 1st of month m mod 12 of year y + floor(m / 12), with the years 0 to 99 read as 1900 to 1999 |
| Dates.NormalizeNumber | src/components/Appointments/CalendarView.tsx:57 | `new Date(y, m, d)` is the day d - 1 days after the 1st of month m mod 12 of year y + floor(m / 12) |
| Dates.NormalizeValid | src/components/Appointments/CalendarView.tsx:57 | a valid calendar day normalises to itself |
| Dates.WeekDay | src/components/Appointments/CalendarView.tsx:38 | getDay is between 0 (Sunday) and 6, and is 4 (Thursday) on 1 January 1970 plus the day count from that date, mod 7 |
| Dates.WeekDayOfNextDay | src/components/Appointments/CalendarView.tsx:38 | the next day's getDay is one more, Saturday wrapping to Sunday |
| Dates.AddDays | src/pages/Appointments.tsx:79 | addDays gives a valid day exactly n day numbers later |
| Dates.StartOfDay | src/pages/Appointments.tsx:78 | startOfDay is midnight of the same day: its instant is the day number times the milliseconds of a day, and the input's time of day before the input |
| Dates.EndOfDay | src/pages/Appointments.tsx:79 | endOfDay is the last millisecond of the given day |
| CalendarView.DaysInMonth | src/components/Appointments/CalendarView.tsx:33-35 | "day 0 of the next month" is the Gregorian length of the month, after the constructor's year and month overflow |
| CalendarView.DaysInMonthGregorian | src/components/Appointments/CalendarView.tsx:33-35 | for months 0 to 11: February has 28 or 29 days by the leap-year rule, April, June, September and November have 30, the rest 31 |
| CalendarView.FirstDayOfMonth | src/components/Appointments/CalendarView.tsx:37-39 | the week day of the 1st is between 0 (Sunday) and 6, counted on from Thursday 1 January 1970 |
| CalendarView.FirstDayOfKnownMonths | src/components/Appointments/CalendarView.tsx:37-39 | January 1970 starts on a Thursday (4 leading blanks) and October 2023 on a Sunday (none) |
| CalendarView.FirstDayOfNextMonth | src/components/Appointments/CalendarView.tsx:37-39 | the 1st of the next month falls DaysInMonth week days after the 1st of this one |
| CalendarView.HasAppointmentOn | src/components/Appointments/CalendarView.tsx:58-60 | a day has an appointment iff some appointment's parsed time falls on that calendar day |
| CalendarView.InMonthDate | src/components/Appointments/CalendarView.tsx:57 | `new Date(year, month, i)` for a day of the displayed month is that very day |
| CalendarView.GenerateCalendarDays | src/components/Appointments/CalendarView.tsx:41-72 | the grid has FirstDayOfMonth + DaysInMonth cells; the first FirstDayOfMonth are blanks; the cell at FirstDayOfMonth + i - 1 is day i of the displayed month, flagged with an appointment iff one falls on it and as today iff it is today; at most one cell is today |
| CalendarView.GoToPreviousMonth | src/components/Appointments/CalendarView.tsx:80 | the previous-month button selects the 1st of the month before, with January going to December of the year before |
| CalendarView.GoToNextMonth | src/components/Appointments/CalendarView.tsx:89 | the next-month button selects the 1st of the month after, with December going to January of the year after |
| CalendarView.PreviousThenNext | src/components/Appointments/CalendarView.tsx:80-89 | back then forward shows the 1st of the same month, outside the constructor's two-digit years 0 to 99 and January of year 100, which comes back as January 2000 |
| CalendarView.OnDayClick | src/components/Appointments/CalendarView.tsx:116-117 | clicking a blank leaves the selected date alone; clicking day i selects day i of the displayed month |
| CalendarView.InMonthHighlightedIffSelected | src/components/Appointments/CalendarView.tsx:122 | a day cell is highlighted iff it is the selected day, except in the years 0 to 99, whose cells are built in 1900 to 1999 and never match |
| CalendarView.BlankHighlightedOnlyOnToday | src/components/Appointments/CalendarView.tsx:122 | a blank cell is highlighted exactly when the selected date is today |
| CalendarView.TimeLabel | src/components/Appointments/CalendarView.tsx:158 | the label is characters 11 to 15 of the text, as many of them as the text has, so "" for a text of at most 11 characters |
| CalendarView.TimeLabelOfIsoText | src/components/Appointments/CalendarView.tsx:158 | on "YYYY-MM-DDTHH:MM…" the label is "HH:MM" |
| AppointmentsPage.AppointmentsOn | src/pages/Appointments.tsx:57-59 | the agenda holds exactly the appointments that fall on the selected day |
| AppointmentsPage.AgendaIsTheDay | src/pages/Appointments.tsx:57-60 | the agenda keeps the list's order and every occurrence of each appointment of the day |
| AppointmentsPage.GridDotMatchesAgenda | src/pages/Appointments.tsx:57-60 | the month grid marks a day iff that day's agenda is not empty |
| AppointmentsPage.GetUpcomingAppointments | src/pages/Appointments.tsx:77-91 | the sidebar holds exactly the appointments strictly inside the window, in ascending time order |
| AppointmentsPage.UpcomingIsStableSortOfWindow | src/pages/Appointments.tsx:86-90 | the sidebar is a permutation of the filtered window, and appointments at the same instant keep the list's order |
| AppointmentsPage.InUpcomingWindowInDays | src/pages/Appointments.tsx:81-85 | an appointment passes the filter iff its text parses and falls today through today + 7, except midnight exactly today and 23:59:59.999 exactly on day 7 |
| AppointmentsPage.UpcomingWindowInDays | src/pages/Appointments.tsx:78-85 | an instant is in the window iff it falls today through today + 7, except midnight exactly today and 23:59:59.999 exactly on day 7 |
| AppointmentsPage.StatusColor | src/pages/Appointments.tsx:140-153 | pending, confirmed, cancelled and completed, in any case, get the yellow, green, red and blue classes; the gray class is returned iff the lower-cased status is none of the four |
| AppointmentsPage.StatusColorIgnoresCase | src/pages/Appointments.tsx:141 | a status and its lower-case form get the same colour |
| AppointmentsPage.DeleteKeepsOthers | src/pages/Appointments.tsx:106 | delete leaves no appointment with the id, and keeps every other one, as often as it occurs and in order |
| AppointmentsPage.DeletingTheLastEmptiesTheList | src/pages/Appointments.tsx:106 | deleting the id every appointment has leaves the list empty |
| AppointmentsPage.EditKeepsOthers | src/pages/Appointments.tsx:121-125 | an edit keeps the length, puts the saved record at every position with the id, and keeps every other entry in place |
| AppointmentsPage.Page.constructor | src/pages/Appointments.tsx:37-49 | the first render: calendar view, empty list still loading, modals closed, today selected, empty agenda |
| AppointmentsPage.Page.SyncSelectedDateAppointments | src/pages/Appointments.tsx:55-62 | the effect sets the agenda to the selected day's appointments when the list is not empty and otherwise leaves it as it was |
| AppointmentsPage.Page.FetchAppointments | src/pages/Appointments.tsx:64-75 | the list becomes the response, or stays with an error toast; loading ends either way, and the agenda stays in step |
| AppointmentsPage.Page.SetView | src/pages/Appointments.tsx:165-186 | the List and Calendar buttons change only the view |
| AppointmentsPage.Page.SelectDate | src/pages/Appointments.tsx:213 | a new selected day, whose appointments become the agenda unless the list is empty |
| AppointmentsPage.Page.HandleView | src/pages/Appointments.tsx:93-96 | the view modal opens on the appointment, and nothing else changes |
| AppointmentsPage.Page.CloseViewModal | src/pages/Appointments.tsx:252-255 | the view modal closes and forgets its appointment, and nothing else changes |
| AppointmentsPage.Page.HandleEdit | src/pages/Appointments.tsx:98-101 | the edit modal opens on the appointment, and nothing else changes |
| AppointmentsPage.Page.HandleNew | src/pages/Appointments.tsx:189-192 | the edit modal opens with nothing being edited |
| AppointmentsPage.Page.CloseModal | src/pages/Appointments.tsx:241-244 | the edit modal closes and the edit target clears |
| AppointmentsPage.Page.HandleDelete | src/pages/Appointments.tsx:103-112 | after a successful delete, every appointment with the id leaves the list and a success toast shows; the agenda follows the list, except that an emptied list leaves the old agenda in place; after a failure only an error toast shows |
| AppointmentsPage.Page.HandleSave | src/pages/Appointments.tsx:114-138 | on success an edit replaces the entries with the edited id and a creation appends, then the modal closes, the edit target clears and the agenda follows the list, or stays as it was when the list is empty; on failure nothing but an error toast |
| AppointmentsPage.Page.Upcoming | src/pages/Appointments.tsx:233 | the sidebar lists exactly the appointments of the page's list that are in the window, in ascending time order |
| CategoryModal.TrimEach | src/pages/EmailCategories/CategoryModal.tsx:59 | every part is replaced by its trim, positions kept |
| CategoryModal.TrimmedPartsAreClean | src/pages/EmailCategories/CategoryModal.tsx:58-59 | every trimmed part is free of commas and is its own trim |
| CategoryModal.KeptEntries | src/pages/EmailCategories/CategoryModal.tsx:57-60 | every kept entry is non-empty, has no comma and no surrounding white space |
| CategoryModal.CleanTargetEmails | src/pages/EmailCategories/CategoryModal.tsx:56-62 | an absent or empty value gives ""; otherwise the kept entries joined by "," |
| CategoryModal.CleanedSplitsIntoKeptEntries | src/pages/EmailCategories/CategoryModal.tsx:57-61 | splitting the cleaned value on "," gives back exactly the kept entries, and it is "" when none is kept |
| CategoryModal.KeptEntriesInOrder | src/pages/EmailCategories/CategoryModal.tsx:57-60 | the kept entries are the non-empty trimmed parts in their original relative order |
| CategoryModal.CleanIsIdempotent | src/pages/EmailCategories/CategoryModal.tsx:57-61 | cleaning a cleaned value returns it unchanged |
| CategoryModal.Submit | src/pages/EmailCategories/CategoryModal.tsx:64-67 | onSave receives every field as entered except target_emails, which is the cleaned value |
| CategoryModal.SubmitIsIdempotent | src/pages/EmailCategories/CategoryModal.tsx:54-67 | submitting the submitted values again sends the same values |
| KanbanBoard.UncategorizedColumn | src/components/EmailKanban/KanBanBoard.tsx:134 | the Uncategorized column holds exactly the e-mails with no category |
| KanbanBoard.CategoryColumn | src/components/EmailKanban/KanBanBoard.tsx:141-143 | a category's column holds exactly the e-mails whose category has its id |
| KanbanBoard.ColumnsKeepOrder | src/components/EmailKanban/KanBanBoard.tsx:134-143 | every column lists its e-mails in the order of the list |
| KanbanBoard.ColumnsPartition | src/components/EmailKanban/KanBanBoard.tsx:130-147 | no e-mail is both uncategorized and in a category column, nor in two columns of different ids; an e-mail shows somewhere iff it has no category or its category id is on the board |
| KanbanBoard.FindCategory | src/components/EmailKanban/KanBanBoard.tsx:102 | the lookup returns the first category of the board with the id, or null iff the board has none |
| KanbanBoard.MoveEmail | src/components/EmailKanban/KanBanBoard.tsx:96-106 | a move keeps length and order, gives the e-mails with the id the looked-up category, and changes no other e-mail |
| KanbanBoard.MovedEmailLandsInTargetColumn | src/components/EmailKanban/KanBanBoard.tsx:96-106 | after a move the e-mail shows in the target category's column, or in Uncategorized when the board has no such category |
| KanbanBoard.MoveKeepsOtherEmailsInPlace | src/components/EmailKanban/KanBanBoard.tsx:97-105 | a move leaves each column's other e-mails, and their order, as they were |
| KanbanBoard.UncategorizedIsNotAnId | src/components/EmailKanban/KanBanBoard.tsx:87-91 | parseInt of "uncategorized" is NaN, so a drop on that column is always rejected |
| KanbanBoard.DragBetweenBoardIdsParses | src/components/EmailKanban/KanBanBoard.tsx:86-88 | the ids of an e-mail item and a category column parse back to those ids, so such a drag passes the check |
| KanbanBoard.Board.constructor | src/components/EmailKanban/KanBanBoard.tsx:53-56 | the board starts empty, loading, with no error |
| KanbanBoard.Board.FetchData | src/components/EmailKanban/KanBanBoard.tsx:64-79 | both lists arrive together or the error message is set; loading ends either way |
| KanbanBoard.Board.HandleDragEnd | src/components/EmailKanban/KanBanBoard.tsx:81-113 | a drop outside every column changes nothing; unparsable ids or a failed update leave the e-mails unchanged with an error toast; otherwise the e-mails become MoveEmail of the two ids |
| EmailInbox.BuildParams | src/pages/EmailInbox.tsx:55-57 | the request has `search` iff the query is non-empty, and `category_id` iff the selected category is truthy (not null, 0 or NaN) |
| EmailInbox.CategoryFromSelect | src/pages/EmailInbox.tsx:191-194 | the select gives null exactly for "" and a number otherwise |
| EmailInbox.SelectReadsBackCategoryId | src/pages/EmailInbox.tsx:191-200 | choosing a category's option selects that category's id |
| EmailInbox.CategoryZeroIsNotSent | src/pages/EmailInbox.tsx:57 | a category with id 0 can be selected but is falsy, so the request is not filtered by it |
| EmailInbox.Preview | src/pages/EmailInbox.tsx:262-263 | a body of up to 100 characters is shown whole, a longer one as its first 100 characters and "..." |
| EmailInbox.PreviewBounds | src/pages/EmailInbox.tsx:262-263 | the preview is at most 103 characters long and starts with the body's first (up to) 100 characters |
| EmailInbox.Inbox.constructor | src/pages/EmailInbox.tsx:33-41 | the page starts with no e-mails, no category options, loading, no selection, no filters |
| EmailInbox.Inbox.FetchEmails | src/pages/EmailInbox.tsx:52-67 | the request carries the current query as `search` iff it is non-empty, and the selected category's number as `category_id` iff it is truthy; the response replaces the list, or the error message is set; loading ends |
| EmailInbox.Inbox.FetchCategories | src/pages/EmailInbox.tsx:69-76 | the loaded categories become the filter select's options; a failure is only logged and changes nothing |
| EmailInbox.Inbox.SetSearchQuery | src/pages/EmailInbox.tsx:173 | typing changes only the query |
| EmailInbox.Inbox.SelectCategory | src/pages/EmailInbox.tsx:191-194 | the select changes only the selected category |
| EmailInbox.Inbox.HandleEmailClick | src/pages/EmailInbox.tsx:78-92 | the fetched e-mail opens in the detail pane, and the "read" update is sent iff the fetch succeeded and the clicked entry was not read |
| EmailInbox.Inbox.CloseDetail | src/pages/EmailInbox.tsx:295 | the back button hides only the detail pane |
| EmailInbox.Inbox.HandleDelete | src/pages/EmailInbox.tsx:94-107 | without confirmation or on failure nothing changes; otherwise the e-mails with the id leave the list, and the selection and pane are cleared iff the selected e-mail had that id |
| EmailInbox.DeleteRemovesExactlyTheId | src/pages/EmailInbox.tsx:99 | delete removes exactly the e-mails with the id and keeps the others, as often as they occur and in order |
| EmailCategories.DeleteRemovesExactlyTheId | src/pages/EmailCategories.tsx:69 | delete removes exactly the categories with the id and keeps the others, as often as they occur and in order |
| EmailCategories.EditReplacesExactlyTheId | src/pages/EmailCategories.tsx:85-89 | an edit keeps the length, puts the saved record at every position with the id and keeps every other entry in place |
| EmailCategories.Page.constructor | src/pages/EmailCategories.tsx:19-26 | the page starts in list view, empty, loading, with the modal closed |
| EmailCategories.Page.FetchCategories | src/pages/EmailCategories.tsx:32-43 | the response replaces the list, or the error message is set; loading ends |
| EmailCategories.Page.HandleCreate | src/pages/EmailCategories.tsx:45-48 | the modal opens on an empty form |
| EmailCategories.Page.HandleEdit | src/pages/EmailCategories.tsx:50-53 | the modal opens on the category |
| EmailCategories.Page.CloseModal | src/pages/EmailCategories.tsx:180 | the modal closes and the edit target stays |
| EmailCategories.Page.HandleDelete | src/pages/EmailCategories.tsx:55-76 | only an accepted confirmation followed by a successful delete removes the categories with the id |
| EmailCategories.Page.HandleSave | src/pages/EmailCategories.tsx:78-101 | on success an edit replaces the entries with the edited id and a creation appends, then the modal closes; on failure list and modal are unchanged; the edit target is never cleared |
| Settings.ProfileSet | src/pages/Settings.tsx:35 | setting a profile field changes that field and no other |
| Settings.PasswordSet | src/pages/Settings.tsx:40 | setting a password field changes that field and no other |
| Settings.FlagSet | src/pages/Settings.tsx:45 | setting a preference changes that flag and no other |
| Settings.ProfileFieldsDetermineRecord | src/pages/Settings.tsx:8-13 | the four named fields determine the profile record |
| Settings.ProfileSetSameValue | src/pages/Settings.tsx:35 | re-entering a field's current value leaves the profile unchanged |
| Settings.OrDefault | src/pages/Settings.tsx:9-10 | the `or` fallback of the initial state is the value when it is a non-empty string and the fallback otherwise |
| Settings.Page.constructor | src/pages/Settings.tsx:8-31 | the initial records: the user's name and e-mail or their defaults, "en", "UTC", empty passwords, the four preference defaults, no banner |
| Settings.Page.HandleProfileChange | src/pages/Settings.tsx:33-36 | only the named profile field changes |
| Settings.Page.HandlePasswordChange | src/pages/Settings.tsx:38-41 | only the named password field changes |
| Settings.Page.HandleCheckboxChange | src/pages/Settings.tsx:43-46 | only the named preference changes |
| Settings.Page.SaveProfile | src/pages/Settings.tsx:48-63 | a success banner, and the form data stays as it was |
| Settings.Page.SavePassword | src/pages/Settings.tsx:65-95 | mismatching passwords give an error banner and keep the fields; matching ones give a success banner and empty all three |
| Settings.Page.SaveEmailSettings | src/pages/Settings.tsx:97-112 | a success banner, and the form data stays as it was |
| Settings.Page.ClearNotification | src/pages/Settings.tsx:60-62 | the timer callback removes the banner and changes nothing else |

## Left out

- Rendering is not modelled: JSX, CSS classes, modals' transitions, the loading spinner and the `disabled` attribute of blank cells. Only the state these read is modelled.
- `src/services/api.ts` and every REST call are not part of this model. A call's outcome is a parameter of the handler that awaits it.
- Asynchronous interleaving is not modelled: overlapping fetches, `Promise.all`, and the three-second `setTimeout` that clears the settings banner. Each handler runs to completion on the state it starts from. The timer callback is the separate method `Settings.Page.ClearNotification`.
- React's effect scheduling is not modelled. The effect that keeps the agenda in step runs at the end of each Appointments handler that changes the list or the selected day. The inbox's refetch effect and the refresh after marking an e-mail read are left to the caller, which calls `FetchEmails` again.
- Time zones and daylight saving time are not modelled. `parseISO` is a parameter that yields a wall-clock day and time in one fixed zone. `Instant` counts milliseconds from a fixed epoch, which is enough for the comparisons and the sort.
- Dates.Instant: does not model `getTime` of an Invalid Date (NaN). An appointment whose text does not parse is never upcoming, so it never reaches the sort.
- AppointmentsPage.TimeOf: gives 0 when the text does not parse (an Invalid Date), where the source's comparator would subtract NaN. Such appointments are filtered out before the sort.
- JsString.ToLower: lower-cases only A to Z. Unicode case mapping is not modelled. The status table's four keys are ASCII.
- JsString.ToNumber: reads only optionally signed decimal integers, and gives NaN for fractions, exponents, hexadecimal and "Infinity". The select's values are integer ids.
- JsString.ParseInt: reads arbitrarily large integers exactly. The source's number type loses precision above 2^53.
- JsString.IntToString: writes plain decimal digits. JavaScript switches to exponent notation from 10^21.
- Strings are sequences of Unicode scalar values, not UTF-16 code units, so lengths and indices differ for characters outside the Basic Multilingual Plane.
- Locale formatting is not modelled: `toLocaleString`, `toLocaleDateString`, the inbox's `formatDate` and date-fns `format`.
- Inbox `handleArchive` and `handleCategoryChange` (src/pages/EmailInbox.tsx:109-125) are left out. Each only sends an update request, then refetches the list with `FetchEmails`, or logs the failure.
- Inbox `fetchCategories` failures go to `console.error`, which is not modelled; `FetchCategories` leaves the state unchanged on failure.
- The "Today" button of the month grid (src/components/Appointments/CalendarView.tsx:96) is `Page.SelectDate` applied to the current date.
- The Kanban columns' edit and delete callbacks are left out. Edit forwards to the categories page's `HandleEdit`. Delete first asks its own confirmation (src/components/EmailKanban/KanbanColumn.tsx:40-52) and only then forwards to the page's delete, which asks again, so `EmailCategories.Page.HandleDelete`'s `confirmed` then stands for both answers together.
- The Kanban board keeps its own copy of the categories, loaded once when it mounts (src/components/EmailKanban/KanBanBoard.tsx:53-62). An edit or delete through the column callbacks changes the categories page's list, not the board's, so the board keeps showing the old column until it loads again; the model does not connect the two states either.
- The appointment view modal has a second status colour ternary (src/components/Appointments/AppointmentViewModal.tsx:177-183). Unlike `StatusColor`, it is case-sensitive and has no "completed" case. It is display code and is not modelled.
- Settings field names: the model's enumerations hold the `name` attributes of the form's inputs. An input with any other name would add a field, which the source's spread allows and the model does not.
