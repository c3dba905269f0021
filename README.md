# GearGuard request lifecycle, in Dafny

GearGuard tracks equipment, maintenance teams and maintenance requests. A
request moves through the stages `new`, `in_progress`, `repaired` and
`scrap`. This project models the part of the program that computes
something on its own:

- the record shapes and their closed enumerations (`Types`);
- the stage buttons, with their show rules and the update they write (`StageButton`);
- the kanban board's four columns, its overdue test and its drag-and-drop
  update of the local request list (`Kanban`);
- the create-request dialog: equipment auto-fill, the insert payload and
  the reset after a successful insert (`CreateRequest`);
- the month calendar: month length, the day grid, month navigation, each
  day's requests and the "+k more" cut (`Calendar`, built on `Dates`);
- the reports page: the stage, type, team and category tallies, the
  completion rate, the averages and the top five (`Reports`);
- the equipment form: its initial values and the update or insert it sends
  (`EquipmentForm`).

The hosted store is modelled as a class `Store.Table` holding a map from
request id to row. Whether the store accepts a write is decided outside the
program, so every write takes an `Outcome` parameter: accepted, or rejected
with an optional message. The current time is a parameter as well. Instants
are integer milliseconds. Dates follow ECMAScript `Date` arithmetic with
local time taken to be UTC: `Dates` derives `new Date(y, m, d)` with its
month and day overflow (for years outside 0..99, see "Left out"), `getDay`,
and the civil date of an instant, and
proves the rollover and last-day-of-month facts the calendar relies on.

React state becomes classes whose methods state their whole new state:
`Kanban.Board`, `CreateRequest.Dialog`, `Calendar.CalendarView` and
`EquipmentForm.Editor`. The counting loops of the reports page are methods
with loop invariants, proved against recursive counting functions; the
calendar's grid loops are proved against postconditions that give every
cell.

The kanban board writes to the store first
(`components/kanban-board.tsx:56-63`) and changes the local list only after
the store accepts the write, so a rejected drop leaves the board as it was
(`Kanban.Board.Drop`). Two more points follow the code:

- The early return of a drop fires on the empty id as well as on no id, and
  in that case the dragged id is not cleared.
- The equipment form sends every empty optional field except the two dates
  as `""` rather than null (`EquipmentForm.UneditedSaveKeepsColumns`).

A drop writes only the stage. It can therefore move a request between any
two stages, and it can leave a repaired request without a completion time;
`Kanban.DropSkipsWorkflow` states both.

## Model

| member | source | states |
|---|---|---|
| Types.ParseStage | lib/types.ts:66 | only the four stage strings parse, each to the stage whose name it is |
| Types.StageNameRoundTrip | lib/types.ts:66 | stage names are an encoding: parsing a stage's name gives that stage back, and distinct stages have distinct names |
| Types.ParseStatus | lib/types.ts:47 | only the three status strings parse, each to the status whose name it is |
| Types.StatusNameRoundTrip | lib/types.ts:47 | status names are a non-empty encoding with an exact inverse |
| Types.CanManage | app/teams/page.tsx:44 | admins and managers may manage, and technicians may not |
| Types.EmptyNullRoundTrip | components/create-request-dialog.tsx:82-85 | `\|\| null` followed by `\|\| ""` loses nothing; the opposite order only merges the empty string into null |
| Store.ApplyPatch | components/update-request-stage-button.tsx:24-31 | an update sets the stage, sets the completion time only when it carries one, and leaves every other column alone |
| Store.Written | components/update-request-stage-button.tsx:31-33 | an update by id changes at most the row with that id; a rejected write, or an id with no row, changes nothing; the set of ids stays the same |
| Store.Table.Update | components/update-request-stage-button.tsx:31-33 | the table afterwards is `Written` of the table before, and the result reports whether the store accepted the write |
| Store.ErrorText | components/create-request-dialog.tsx:105 | the thrown error's message when there is one, and otherwise a non-empty fallback text |
| StageButton.ShownTarget | components/update-request-stage-button.tsx:43-61 | a button that renders moves to the stage it is named for, and that stage is never `new` |
| StageButton.ButtonFollowsWorkflow | components/update-request-stage-button.tsx:43-61 | a button renders exactly when its name parses to a stage the workflow allows from the current one (new to in progress, in progress to repaired, any open stage to scrap) |
| StageButton.TerminalStagesOfferNothing | components/update-request-stage-button.tsx:44-56 | no button renders for a request exactly when its stage is repaired or scrap |
| StageButton.StageUpdate | components/update-request-stage-button.tsx:24-29 | the update sets the stage to the target, and carries the click time as completion time if and only if the target is repaired |
| StageButton.StageUpdateKeepsCompletion | components/update-request-stage-button.tsx:26-29 | every button write keeps "a repaired request has a completion time no earlier than its creation" |
| StageButton.HandleUpdate | components/update-request-stage-button.tsx:19-41 | the store afterwards holds the stage update written to that request, or is unchanged when rejected; the page refreshes exactly on success |
| Kanban.StagesListEveryStageOnce | components/kanban-board.tsx:30-35 | the board has four columns, and each stage appears in exactly one of them |
| Kanban.Column | components/kanban-board.tsx:73-75 | a column holds exactly the requests of the list in that stage, and is no longer than the list |
| Kanban.ColumnAppend | components/kanban-board.tsx:73-75 | `filter` keeps list order and multiplicity: the column of a concatenation is the columns of the parts, one after the other |
| Kanban.Columns | components/kanban-board.tsx:88-90 | each request of the list is in exactly the column of its stage, and the columns hold nothing else |
| Kanban.ColumnsPartition | components/kanban-board.tsx:73-75 | the four column sizes add up to the length of the list |
| Kanban.IsOverdue | components/kanban-board.tsx:77-80 | an overdue request has a scheduled time before now; a repaired or scrapped request is never overdue |
| Kanban.OverdueMeansPastDueAndOpen | components/kanban-board.tsx:77-80 | overdue exactly when scheduled, scheduled before now, and in neither end stage |
| Kanban.OverdueStaysOverdue | components/kanban-board.tsx:77-80 | an overdue request stays overdue at every later time while its stage is unchanged |
| Kanban.MoveToStage | components/kanban-board.tsx:61-63 | the list keeps its length and order; requests with the dragged id take the new stage; no other request and no other column changes |
| Kanban.LaterDropWins | components/kanban-board.tsx:61-63 | dropping the same card twice is the same as dropping it once, on the later column |
| Kanban.DropLandsInColumn | components/kanban-board.tsx:61-63 | after a drop the card is in the target column, and every other card stays in the column of its stage |
| Kanban.DropSkipsWorkflow | components/kanban-board.tsx:56 | a drop reaches any stage from any stage and keeps the completion time as it was, so a new request dropped on repaired breaks the completion rule the buttons keep |
| Kanban.Board.constructor | components/kanban-board.tsx:39-40 | the board starts with the given requests and nothing dragged |
| Kanban.Board.DragStart | components/kanban-board.tsx:42-44 | records the dragged id and leaves the list alone |
| Kanban.Board.Drop | components/kanban-board.tsx:50-71 | with no dragged id (or the empty id), nothing changes; otherwise the stage alone is written, the list moves only on success, and the dragged id is cleared either way |
| CreateRequest.InitialForm | components/create-request-dialog.tsx:41-51 | every text field is empty; the type is corrective and the priority medium |
| CreateRequest.FindEquipment | components/create-request-dialog.tsx:55 | none exactly when no equipment has the id; otherwise the first equipment with that id |
| CreateRequest.AutoFill | components/create-request-dialog.tsx:54-68 | the equipment id becomes the chosen id, and only the equipment, category, team and assignee fields can change |
| CreateRequest.AutoFillCopiesDefaults | components/create-request-dialog.tsx:57-64 | choosing a listed equipment copies its category, team and technician ("" for null) and leaves every other field as it was |
| CreateRequest.AutoFillUnknownId | components/create-request-dialog.tsx:65-67 | an id no equipment has changes only the equipment id |
| CreateRequest.AutoFillIdempotent | components/create-request-dialog.tsx:54-68 | choosing the same equipment twice gives the form choosing it once gives |
| CreateRequest.InsertPayload | components/create-request-dialog.tsx:78-87 | the requester is the current user; the four optional fields are null exactly when empty and otherwise equal to the form; every other field passes through |
| CreateRequest.DefaultsReachInsert | components/create-request-dialog.tsx:54-87 | filing right after choosing a listed equipment inserts that equipment's category, team and technician as they are stored |
| CreateRequest.Dialog.constructor | components/create-request-dialog.tsx:37-51 | the dialog starts closed, with the initial form and no error |
| CreateRequest.Dialog.SetOpen | components/create-request-dialog.tsx:112 | opens or closes the dialog and changes nothing else |
| CreateRequest.Dialog.Edit | components/create-request-dialog.tsx:135 | a field input replaces the form and changes nothing else |
| CreateRequest.Dialog.SelectEquipment | components/create-request-dialog.tsx:54-68 | the form afterwards is the auto-filled form |
| CreateRequest.Dialog.Submit | components/create-request-dialog.tsx:70-109 | sends the insert payload of the current form; on success the dialog closes, the form resets, the error clears and the page refreshes; on a rejection form and dialog stay, the error shows and nothing refreshes |
| Dates.DaysInMonth | components/calendar-view.tsx:25-26 | a month has 28 to 31 days, and 29 exactly for February of a Gregorian leap year |
| Dates.DateOfDay | components/calendar-view.tsx:22-23 | every day number has a valid civil date with that day number |
| Dates.DateOfDayNumber | components/calendar-view.tsx:22-23 | a valid civil date is the date of its own day number, so dates and day numbers correspond one to one |
| Dates.NewDate | components/calendar-view.tsx:24-25 | `new Date(y, m, d)` is a valid date whose day number carries month and day overflow as ECMAScript MakeDay does |
| Dates.WeekDay | components/calendar-view.tsx:27 | `getDay` is between 0 and 6 |
| Dates.DateOfInstant | components/calendar-view.tsx:35-39 | the date of an instant is valid and its day contains the instant |
| Dates.NewDateOfValid | components/calendar-view.tsx:24 | a date written in range denotes itself |
| Dates.LastDayOfMonth | components/calendar-view.tsx:25-26 | day 0 of the next month is the last day of this month |
| Dates.FirstOfPreviousMonth | components/calendar-view.tsx:45 | the previous month of January is December of the year before, otherwise the month before in the same year |
| Dates.FirstOfNextMonth | components/calendar-view.tsx:49 | the next month of December is January of the year after, otherwise the month after in the same year |
| Calendar.LastDate | components/calendar-view.tsx:25-26 | day 0 of the next month gives this month's length |
| Calendar.FirstWeekDay | components/calendar-view.tsx:24-27 | the weekday of `new Date(year, month, 1)` is that of the first of the month |
| Calendar.GetDaysInMonth | components/calendar-view.tsx:21-30 | the month's length and the weekday of its first day, for the shown year and month |
| Calendar.NextMonthStartsAfterThisOne | components/calendar-view.tsx:24-27 | the first of the next month falls `daysInMonth` weekdays after the first of this one |
| Calendar.BuildDays | components/calendar-view.tsx:71-77 | the grid has `startingDayOfWeek` blanks followed by 1 to `daysInMonth`, day d at position `start + d - 1` |
| Calendar.ScheduledOn | components/calendar-view.tsx:34-40 | a request is on a day only when its scheduled time falls within that day |
| Calendar.RequestsForDate | components/calendar-view.tsx:32-42 | exactly the requests scheduled on that day; unscheduled requests never appear |
| Calendar.RequestsForDateAppend | components/calendar-view.tsx:32-42 | the selection keeps list order |
| Calendar.CellOf | components/calendar-view.tsx:142-157 | at most two requests are listed, always the first ones; "+k more" shows exactly when there are more than two, and the listed and the more add up to the day's count |
| Calendar.IsToday | components/calendar-view.tsx:79-87 | a blank cell is never today; a day cell is marked exactly when it is the current date in the shown month |
| Calendar.ListedAsOverdue | components/calendar-view.tsx:175-179 | a request listed as overdue has a scheduled time before now; a repaired or scrapped one is never listed as overdue |
| Calendar.OverdueAgreesWithBoard | components/calendar-view.tsx:175-179 | the list's overdue test agrees with the board's |
| Calendar.Upcoming | components/calendar-view.tsx:174 | the upcoming list is the first ten requests, or all of them when there are fewer |
| Calendar.CalendarView.constructor | components/calendar-view.tsx:19 | the calendar opens on the current date |
| Calendar.CalendarView.PreviousMonth | components/calendar-view.tsx:44-46 | moves to the first of the previous month, rolling January back to December of the year before |
| Calendar.CalendarView.NextMonth | components/calendar-view.tsx:48-50 | moves to the first of the next month, rolling December on to January of the year after |
| Calendar.NavigationRoundTrip | components/calendar-view.tsx:44-50 | next then previous, or previous then next, returns to the first of the starting month |
| Reports.StageCountsSum | app/reports/page.tsx:28-37 | the four stage counts add up to the number of rows |
| Reports.TallyStages | app/reports/page.tsx:28-37 | each bucket holds the number of rows in its stage, and the buckets add up to `totalRequests` |
| Reports.TallyTypes | app/reports/page.tsx:74-81 | each bucket holds the number of rows of its type, and the two add up to the number of rows |
| Reports.TallyNames | app/reports/page.tsx:47-53 | each name appears once with its number of rows; every related name appears; the total is the number of rows with a related row, at most the number of rows |
| Reports.Counted | app/reports/page.tsx:51 | one more for the name: an entry already tallied goes up by one, otherwise the name is appended with 1; every other entry stays, and distinct names stay distinct |
| Reports.Percentage | app/reports/page.tsx:187 | 0 without rows; otherwise count times 100 over the total, between 0 and 100 when the count fits in the total |
| Reports.CompletionRate | app/reports/page.tsx:107 | 0 without rows; between 0 and 100 when the repaired count fits in the total; with rows, 100 exactly when the repaired count is the total |
| Reports.CompletionRateOfTally | app/reports/page.tsx:106-107 | over the tally of the stage rows, 100 exactly when there are rows and all are repaired, 0 exactly when none is |
| Reports.CompletionRateExample | app/reports/page.tsx:107 | three repaired out of ten is a rate of 30 |
| Reports.RepairedRows | app/reports/page.tsx:84-88 | the query returns a row for every repaired request with a completion time, and only for such requests |
| Reports.RepairedRowsAppend | app/reports/page.tsx:84-88 | the query keeps list order and multiplicity: the rows of a concatenation are the rows of its parts, one after the other |
| Reports.RepairedRowsOfOne | app/reports/page.tsx:84-88 | a single request yields exactly its own row when it is repaired with a completion time, and no row otherwise |
| Reports.CompletionHours | app/reports/page.tsx:94-98 | each row's value is its completion time minus its creation time, in hours |
| Reports.Durations | app/reports/page.tsx:102 | each row's value is its duration, 0 when there is none |
| Reports.MeanBounds | app/reports/page.tsx:100 | an average lies between the smallest and the largest value averaged |
| Reports.AvgCompletionTime | app/reports/page.tsx:90-100 | 0 without rows; otherwise the average times the row count is the sum of the hours from creation to completion |
| Reports.AvgDuration | app/reports/page.tsx:102-104 | 0 without rows; otherwise the average times the row count is the sum of the durations, a missing one counting as 0 |
| Reports.AveragesWithinRange | app/reports/page.tsx:90-104 | both averages are 0 without repaired rows, and otherwise lie within the range of their per-row values |
| Reports.CompletionTimeNonNegative | app/reports/page.tsx:94-100 | when no request was completed before it was created, the average completion time is not negative |
| Reports.SortByCount | app/reports/page.tsx:259-260 | the sorted tally is in non-increasing count order and is a permutation of the tally |
| Reports.TopFive | app/reports/page.tsx:259-261 | the first five entries of the sorted tally, or all of them when there are fewer |
| Reports.TopFiveIsTop | app/reports/page.tsx:259-261 | at most five entries, all of them when there are five or fewer, largest first, taken from the tally; no entry left out has a larger count than one shown |
| EquipmentForm.InitialFormOf | components/equipment-form.tsx:30-43 | a new equipment starts empty and active; an edited one starts with every text column as stored ("" for null) and a status that parses back to its own |
| EquipmentForm.PayloadOf | components/equipment-form.tsx:57-61 | the two dates are null exactly when empty and otherwise equal to the form; every other field passes through unchanged |
| EquipmentForm.WriteFor | components/equipment-form.tsx:53-76 | an update by the equipment's id exactly when an equipment is given, an insert otherwise, with the same payload either way |
| EquipmentForm.UneditedSaveKeepsColumns | components/equipment-form.tsx:30-61 | saving an untouched edit form updates that equipment by id; it writes back the name, the status and the dates as stored (an empty date as null), and every other column as stored, a null one as "" |
| EquipmentForm.NewFormInsertsActive | components/equipment-form.tsx:30-73 | saving an untouched new form inserts an active equipment with no dates and empty text |
| EquipmentForm.Editor.constructor | components/equipment-form.tsx:25-43 | the form starts from the given equipment, with no error |
| EquipmentForm.Editor.Edit | components/equipment-form.tsx:101 | a field input replaces the form and changes nothing else |
| EquipmentForm.Editor.Submit | components/equipment-form.tsx:45-85 | issues the write for the current form and keeps the form; on success goes to the equipment list with no error; on a rejection shows the error and stays |

## Left out

- Time zones: JavaScript dates are read in the browser's local time; the model takes local time to be UTC.
- Parsing of the ISO date strings from the store: instants are integer milliseconds from the start.
- Formatting: `toFixed`, `toLocaleDateString` and the month and weekday names are not modelled; rates and averages are `real` values.
- Reports.CompletionRate: the source yields the string "0" or a one-decimal string; the model gives the unrounded value.
- Floating-point arithmetic: averages and percentages are exact reals.
- Dates.NewDate: `new Date(y, m, d)` maps a year of 0 to 99 to 1900 to 1999, and gives an Invalid Date beyond the time range of ECMAScript TimeClip (8.64e15 ms either side of 1970). The model implements MakeDay alone and takes every year literally, so it differs from the source for those years and far-off dates. The calendar reaches them only after tens of thousands of month clicks back or forth.
- Loading flags (`isLoading`) and button disabling: they only affect rendering while a write is in flight.
- Failed queries: the pages treat a missing result as an empty list; the model takes the rows as given.
- Reports.TallyNames: the tally is a plain JavaScript object. Such an object lists integer-like keys first, whatever order they were added in, while the model keeps insertion order for every name. Names that `Object.prototype` already holds are not handled as the object handles them either: the model counts them like any other name, but in the source a team or category named `__proto__` never shows up (its assignment goes to the prototype setter), and one named `constructor`, `toString`, `valueOf`, `hasOwnProperty` and so on gets a string count, a NaN percentage and a NaN sort key.
- Reports.SortByCount: ties keep their tally order, but stability is not stated as a property.
- Reports.TallyStages: a stage string outside the four would add a new key in the source; the model's stage type rules that out.
- Reports.TallyTypes: the same for `typeCounts[req.request_type]++`: a type string other than corrective or preventive would add a new key in the source, and the model's type rules it out.
- CreateRequest.Dialog.Edit: each input changes one field; the model replaces the whole form in one step, which covers every such edit.
- EquipmentForm.Editor.Edit: the same whole-form simplification as for the dialog.
- Navigation and refresh (`router.push`, `router.refresh`): the router itself is not modelled. The stage button, the kanban drop and the create-request dialog return a `refreshed` flag that is true exactly after an accepted write, and `EquipmentForm.Editor` sets its `navigated` field instead (for the push to the equipment list and the refresh after it).
- Drag-event plumbing (`handleDragOver`, `preventDefault`): no state changes.
- Concurrency: interleaved writes, concurrent edits and last-write-wins behaviour are not modelled; each write is one atomic step.
- Server-side filters and joins (team and category names, the calendar's and dashboard's queries): the store evaluates them, so their result rows are inputs.
- Authentication, redirects and UI widgets (dialogs, selects, icons, colours).
- Error logging (`console.error`) in the stage writes.
