# ScoopSmart dashboard logic, modelled in Dafny

ScoopSmart is a dashboard for a chain of ice-cream parlours. It has pages for employees, attendance, inventory, tasks and reports, and a login screen. Each page is a form-bound view over a document collection. This project models the plain logic the pages run on those collections and proves what that logic promises:

- The attendance time clock: clock-in with the lateness rule, clock-out, and the sorted, paginated log.
- CSV export of a report's rows. String fields are quoted by doubling `"`, which is the escaping of section 2, rule 7 of RFC 4180. Lines are joined with LF.
- The report aggregations: tasks per status, tasks per employee and ice-cream consumption.
- The task board: form, new-task record, status toggle, id-to-employee map, and the table sorted by due date and paginated.
- The inventory and employee pages: forms, appends with numbered ids (`inv-n`, `emp-n`), the stock-status badge, the view dialog and pagination.
- The dashboard's completed-tasks-per-employee bar chart.
- The sign-in store gate and sign-up on the login page.

Each collection is a sequence. A page whose handlers change state is a class. Its fields are the page's state variables, each handler is a method, the computed views are functions, and a ghost `Valid()` keeps the page counter in range. The wall clock, generated ids and the Firestore and Auth calls are parameters or outcomes. Every collection starts as the empty list of `src/lib/data.ts`.

Files, one module each:

- `wrappers.dfy`: `Option`, `Result`.
- `text.dfy`: decimal text, `split`/`join`, digit runs, string order, chart colours.
- `types.dfy`: the records of `src/lib/types.ts` and their enumerations.
- `pagination.dfy`: the five-per-page logic every page repeats.
- `sorting.dfy`: sorted copies.
- `counting.dfy`: the counting `reduce` loop.
- `employee_index.dfy`: employees keyed by id.
- `validation.dfy`: the e-mail check.
- `attendance.dfy`, `reports.dfy`, `tasks.dfy`, `inventory.dfy`, `employees.dfy`, `tasks_chart.dfy`, `login.dfy`: one module per page or component.

## Model

| member | source | states |
|---|---|---|
| Types.ParseRole | src/lib/types.ts:14 | a role read from text names that role |
| Types.ParseRoleName | src/lib/types.ts:14 | every role's name reads back as that role |
| Types.ParseCategory | src/lib/types.ts:26 | a task category read from text names that category |
| Types.ParseCategoryName | src/lib/types.ts:26 | every category's name reads back as that category |
| Types.ParseItemCategory | src/lib/types.ts:32 | an item category read from text names that category |
| Types.ParseItemCategoryName | src/lib/types.ts:32 | every item category's name reads back |
| Types.ParseUnit | src/lib/types.ts:34 | a stock unit read from text names that unit |
| Types.ParseUnitName | src/lib/types.ts:34 | every unit's name reads back |
| Text.DigitValue | src/app/attendance/page.tsx:118 | a digit's value is below ten |
| Text.DigitChar | src/app/inventory/page.tsx:97 | the character written for a value below ten is a digit of that value |
| Text.DecimalString | src/app/inventory/page.tsx:97 | a number's decimal text is non-empty digits with no leading zero, one digit exactly below ten |
| Text.ParseDecimalString | src/app/attendance/page.tsx:118 | reading a number's decimal text gives the number back |
| Text.DecimalStringInjective | src/app/inventory/page.tsx:97 | different numbers have different decimal texts |
| Text.NumberedId | src/app/employees/page.tsx:94 | a numbered id is the prefix followed by the number's decimal text |
| Text.NumberedIdInjective | src/app/inventory/page.tsx:97 | two numbered ids with one prefix are equal exactly when their numbers are |
| Text.IntString | src/app/reports/page.tsx:91 | an integer's text is non-empty, made of `-` and digits, starts with `-` exactly when the integer is negative, and its digits read back as the integer's magnitude |
| Text.JsLength | src/app/tasks/page.tsx:62 | `length` counts UTF-16 units: between one and two per character, exactly one each when no character is above U+FFFF |
| Text.JsLengthSurrogatePair | src/app/tasks/page.tsx:62 | a character above U+FFFF adds two to the length |
| Text.TwoDigits | src/app/attendance/page.tsx:114 | a value below 100 is written as two digits that read back as the value |
| Text.Split | src/app/attendance/page.tsx:116 | `split` on one character gives at least one piece, none holding the separator, whose join is the text |
| Text.SplitHead | src/app/attendance/page.tsx:116 | the first piece is the text up to the first separator |
| Text.SplitNoSeparator | src/app/attendance/page.tsx:121 | a separator-free head followed by a separator splits off as one piece |
| Text.SplitWithoutSeparator | src/app/attendance/page.tsx:116 | text without the separator splits into itself alone |
| Text.SplitJoin | src/app/reports/page.tsx:96 | joining separator-free pieces and splitting again gives the pieces back |
| Text.JoinAvoids | src/app/reports/page.tsx:93 | a character in no piece, other than the separator, is not in the join |
| Text.DigitPrefix | src/app/attendance/page.tsx:118 | the longest all-digit prefix |
| Text.FirstDigitRun | src/app/attendance/page.tsx:118 | `match(/\d+/)`: none exactly when there is no digit, else a maximal run of digits inside the text |
| Text.DigitPrefixOfDigits | src/app/attendance/page.tsx:118 | digits followed by a non-digit form exactly the digit prefix |
| Text.IncludesAfterDigits | src/app/attendance/page.tsx:119 | leading digits never change whether a text starting with a non-digit is included |
| Text.StrLeTotal | src/app/attendance/page.tsx:84 | the string order relates every two strings |
| Text.StrLeTransitive | src/app/attendance/page.tsx:84 | the string order is transitive |
| Text.StrLeAntisymmetric | src/app/attendance/page.tsx:84 | two strings ordered both ways are equal |
| Pagination.TotalPages | src/app/attendance/page.tsx:79 | `ceil(n/5)`: the fewest pages of five holding n items |
| Pagination.TotalPagesMonotone | src/app/inventory/page.tsx:77 | more items never means fewer pages |
| Pagination.SliceIndex | src/app/inventory/page.tsx:81 | a `slice` bound: a negative one counts from the end and stops at 0, a non-negative one stops at the length |
| Pagination.PageSliceAt | src/app/inventory/page.tsx:78-82 | page p at or after 1 holds positions `[(p-1)*5, p*5)` of the list in order, at most five of them |
| Pagination.PageSliceBounded | src/app/employees/page.tsx:76-80 | any page counter shows at most five items |
| Pagination.EveryItemOnSomePage | src/app/employees/page.tsx:75-80 | each item is on exactly the page its position gives, between 1 and the page count |
| Pagination.Previous | src/app/attendance/page.tsx:173-175 | Previous steps back one page and never goes below 1 |
| Pagination.NextAsWrittenLeavesFirstPage | src/app/attendance/page.tsx:177-179 | as written, Next on an empty list sets page 0, and page 0 shows nothing once an item is added |
| Pagination.Next | src/app/attendance/page.tsx:177-179 | Next steps forward one page while pages remain, and stays at the last page, or at 1 for an empty list |
| Pagination.NextAgreesWhenNonEmpty | src/app/inventory/page.tsx:109-111 | on a non-empty list the corrected Next equals the handler as written |
| Pagination.StepsStayInRange | src/app/employees/page.tsx:111-117 | from a page in range, Previous and Next stay in range |
| Pagination.GrowingKeepsInRange | src/app/inventory/page.tsx:100 | a page in range stays in range when the list grows |
| Sorting.Insert | src/app/tasks/page.tsx:104 | inserting into a sorted list keeps it sorted and adds exactly that element |
| Sorting.SortBy | src/app/tasks/page.tsx:104 | the sorted copy is sorted and a permutation of the list |
| Sorting.SortedSlice | src/app/attendance/page.tsx:84 | a slice of a sorted list is sorted |
| Sorting.SortedPage | src/app/attendance/page.tsx:80-85 | a page of a sorted list is sorted, at most five long, and holds only its elements |
| Sorting.SortedCopyPage | src/app/attendance/page.tsx:80-85 | a page of a sorted copy is sorted, holds elements of the list, and is exactly positions `[(p-1)*5, p*5)` of the copy |
| Counting.OccurrencesAbsent | src/app/reports/page.tsx:39-46 | a key that never occurs counts zero |
| Counting.SumOverFrame | src/app/reports/page.tsx:39-46 | a new key does not change the running sum of the keys seen |
| Counting.SumOverBump | src/app/reports/page.tsx:44 | adding one to a seen key adds one to the sum |
| Counting.TotalOfPairs | src/app/reports/page.tsx:48 | reading the dictionary back keeps the sum of the counts |
| Counting.OccurrencesSnoc | src/components/dashboard/tasks-chart.tsx:30-41 | one more element adds one to its own key's count and nothing to the others |
| Counting.CountSkipped | src/components/dashboard/tasks-chart.tsx:31-33 | a skipped element keeps the accumulator's meaning |
| Counting.CountNewKey | src/components/dashboard/tasks-chart.tsx:34-37 | a first-seen key gets count 1 and is recorded once |
| Counting.CountSeenKey | src/components/dashboard/tasks-chart.tsx:37 | a seen key's count goes up by one |
| Counting.Tally | src/components/dashboard/tasks-chart.tsx:30-43 | one entry per distinct key, each count ≥ 1 and equal to the key's occurrences, all keys present, counts summing to the keyed elements |
| EmployeeIndex.LastWithId | src/app/tasks/page.tsx:92-95 | the position of the last employee with an id, none exactly when no employee has it |
| EmployeeIndex.LastWithIdSnoc | src/app/tasks/page.tsx:93 | appending an employee makes it the last for its id and changes no other id |
| EmployeeIndex.MapsToLastSnoc | src/app/tasks/page.tsx:93 | `acc[e.id] = e` keeps the map sending each id to its last employee |
| EmployeeIndex.IndexById | src/components/dashboard/tasks-chart.tsx:29 | the map's keys are exactly the employees' ids, each sent to the last employee with it |
| Validation.ValidEmailParts | src/app/employees/page.tsx:55 | an address is valid exactly when it is a valid local part, `@` and a valid domain |
| Validation.ValidEmailOneAt | src/app/login/page.tsx:41 | a valid address holds exactly one `@` |
| Attendance.FirstRosterIndex | src/app/attendance/page.tsx:115 | `find` on the roster: the first row of the employee, none exactly when there is none |
| Attendance.ShiftStartFromRoster | src/app/attendance/page.tsx:115-116 | never empty and dash-free; when the employee's first roster row has a day entry that is non-empty and does not start with `-`, exactly that entry up to its first `-`; otherwise `09AM` |
| Attendance.ShiftHour | src/app/attendance/page.tsx:118-119 | with no digits the hour is 9, or 21 when the text says `PM` |
| Attendance.DefaultShiftHour | src/app/attendance/page.tsx:116-118 | one example: the default `09AM` reads as hour 9 |
| Attendance.ShiftHourOfDigits | src/app/attendance/page.tsx:118-119 | a start text of digits followed by a non-digit rest (`09AM`, `9:30AM`) reads as the digits' value, plus 12 when the rest has `PM` and the value is not 12 |
| Attendance.ShiftHourOfHourText | src/app/attendance/page.tsx:118-119 | a start text `<n>AM` reads as hour n, and `<n>PM` as n + 12, except 12 for `12PM` |
| Attendance.MidnightReadAsNoon | src/app/attendance/page.tsx:118-119 | one example: `12AM` reads as hour 12 |
| Attendance.IsLateInMinutes | src/app/attendance/page.tsx:123 | late exactly when clocking in more than five minutes after the start hour |
| Attendance.ClockFieldsRoundTrip | src/app/attendance/page.tsx:114-121 | splitting the `HH:mm` text on `:` gives back its hour and minute |
| Attendance.FirstOpenIndex | src/app/attendance/page.tsx:145-147 | the first record of the employee not `Clocked Out`, none exactly when there is none |
| Attendance.CloseByIdChangesOne | src/app/attendance/page.tsx:160-164 | with distinct ids, closing by id changes only that record: clock-out time set, status `Clocked Out` |
| Attendance.NewerFirstTotalPreorder | src/app/attendance/page.tsx:84 | newer date first, then later clock-in first, is a total preorder |
| Attendance.NewestFirst | src/app/attendance/page.tsx:84 | the sorted copy is a permutation of the log, newest first |
| Attendance.Known | src/app/attendance/page.tsx:268-270 | the rows drawn are at most the records |
| Attendance.KnownCounts | src/app/attendance/page.tsx:268-270 | exactly the records whose employee is known are drawn, each as often as it occurs |
| Attendance.KnownCons | src/app/attendance/page.tsx:268 | a record in front is drawn in front when its employee is known |
| Attendance.KnownKeepsOrder | src/app/attendance/page.tsx:268-270 | the rows keep the records' order: the filter distributes over concatenation |
| Attendance.TimeClock.constructor | src/app/attendance/page.tsx:59-65 | empty log, roster and employees, page 1 |
| Attendance.TimeClock.ClockIn | src/app/attendance/page.tsx:97-140 | refused with the log unchanged when the employee has a `Clocked In` record (a `Late` one does not block); otherwise prepends one open record with the given id, date and time, `Late` by the lateness rule, the rest of the log kept |
| Attendance.TimeClock.ClockOut | src/app/attendance/page.tsx:142-171 | refused with the log unchanged when the employee has no record other than `Clocked Out`; otherwise closes the first such record only, length and all others kept |
| Attendance.TimeClock.PaginatedLog | src/app/attendance/page.tsx:80-85 | at most five records, sorted newest first, each from the log, and exactly positions `[(p-1)*5, p*5)` of the newest-first copy |
| Attendance.TimeClock.DisplayedRows | src/app/attendance/page.tsx:268-270 | exactly the page's records whose employee is known, each as often as on the page |
| Attendance.TimeClock.PreviousPage | src/app/attendance/page.tsx:173-175 | Previous, page kept in range, log untouched |
| Attendance.TimeClock.NextPage | src/app/attendance/page.tsx:177-179 | the corrected Next, page kept in range, log untouched |
| Reports.DoubleQuotes | src/app/reports/page.tsx:89 | doubling quotes keeps every other character |
| Reports.DoubleQuotesPaired | src/app/reports/page.tsx:89 | after doubling, every `"` comes in a pair |
| Reports.UndoubleDoubled | src/app/reports/page.tsx:89 | undoing the doubling gives the original text |
| Reports.QuoteRoundTrip | src/app/reports/page.tsx:88-90 | unquoting a quoted field gives the original string |
| Reports.WithoutFill | src/app/reports/page.tsx:80 | the row without `fill` is no longer than the row |
| Reports.WithoutFillFields | src/app/reports/page.tsx:80 | exactly the fields other than `fill` are kept |
| Reports.WithoutFillCons | src/app/reports/page.tsx:80 | a field in front stays in front unless it is `fill` |
| Reports.WithoutFillKeepsOrder | src/app/reports/page.tsx:80 | the kept fields keep their order: dropping `fill` distributes over concatenation |
| Reports.WithoutFillNoFill | src/app/reports/page.tsx:80 | a row without `fill` is kept whole |
| Reports.Keys | src/app/reports/page.tsx:82 | the field names of a row, in order |
| Reports.Lookup | src/app/reports/page.tsx:87 | the value under a field name, none exactly when the row lacks it |
| Reports.ExportCsv | src/app/reports/page.tsx:75-96 | nothing for an empty list; otherwise the header line and one line per row, joined with LF |
| Reports.KeysKeepOrder | src/app/reports/page.tsx:82 | the key list distributes over concatenation |
| Reports.CsvHeadersInKeyOrder | src/app/reports/page.tsx:80-83 | the headers are the first object's non-`fill` keys in its key order; with no `fill` they are its keys |
| Reports.CsvHeaderLine | src/app/reports/page.tsx:80-83 | the header is the first row's field names other than `fill`, comma-joined; there are rows + 1 lines |
| Reports.CellHasNoLineFeed | src/app/reports/page.tsx:86-91 | a cell holds a line feed only when its string does |
| Reports.CsvSplitsIntoLines | src/app/reports/page.tsx:93-96 | with no line feed in any string, the CSV splits on LF into exactly rows + 1 lines |
| Reports.PairWithoutFill | src/app/reports/page.tsx:80 | an object of two fields and then `fill` loses exactly the `fill` |
| Reports.PairExport | src/app/reports/page.tsx:80-96 | for chart objects with two keys and `fill`, the header line is the two keys and each line holds the object's two values in order, no `fill` value |
| Reports.InventoryConsumptionData | src/app/reports/page.tsx:25-31 | at most one figure per item |
| Reports.ConsumptionMembers | src/app/reports/page.tsx:25-31 | the figures are exactly those of the `Ice Cream` items, each with `consumed = (20 - inStock) * 10` |
| Reports.ConsumptionCons | src/app/reports/page.tsx:26 | an item in front adds its own figure in front, when it is ice cream |
| Reports.ConsumptionKeepsOrder | src/app/reports/page.tsx:25-27 | the filter distributes over concatenation, so list order is kept |
| Reports.ConsumptionExport | src/app/reports/page.tsx:25-31 | the consumption export is `name,consumed` and then one line per figure, quoted name and number, whatever colours were picked |
| Reports.CountStatus | src/app/reports/page.tsx:39-46 | a status count is at most the number of tasks |
| Reports.StatusKeysCount | src/app/reports/page.tsx:39-46 | every task has a status key, and each status occurs as often as tasks have it |
| Reports.Slices | src/app/reports/page.tsx:48-51 | one slice per entry, same status and count, fill by status |
| Reports.SliceTotalOfEntries | src/app/reports/page.tsx:48-51 | the slices add up to the entries' total |
| Reports.SlicesOfTally | src/app/reports/page.tsx:39-51 | the slices of a status tally are distinct, hold their task counts, cover exactly the occurring statuses and sum to the number of tasks |
| Reports.SliceCounts | src/app/reports/page.tsx:44 | each slice's value is the number of tasks with its status, at least 1 |
| Reports.SlicesCover | src/app/reports/page.tsx:39-43 | the slices cover exactly the statuses of the tasks |
| Reports.StatusesCovered | src/app/reports/page.tsx:41-42 | a tally entry exists exactly for the statuses that occur |
| Reports.TaskStatusChartData | src/app/reports/page.tsx:39-51 | one slice per occurring status, distinct, holding its task count, chart-1 for `Completed` and chart-2 otherwise, summing to the number of tasks |
| Reports.StatusExport | src/app/reports/page.tsx:48-51 | the status export is `name,value` and then one line per slice, quoted status name and count, no colour |
| Reports.AssignedPositionsSnoc | src/app/reports/page.tsx:63 | one more task adds its own position when assigned to the id, and no other |
| Reports.CountAssignedPositions | src/app/reports/page.tsx:63 | the filter's length is the number of positions holding a task assigned to the id |
| Reports.CountAssigned | src/app/reports/page.tsx:63 | an assigned count is at most the number of tasks |
| Reports.EmployeeTaskData | src/app/reports/page.tsx:61-65 | one entry per employee in order, with the name and the number of tasks assigned to its id |
| Reports.CountKnownAssignee | src/app/reports/page.tsx:61-65 | the tasks assigned to some employee are at most all tasks |
| Reports.WithIdAtMostOne | src/app/reports/page.tsx:61 | with distinct ids, at most one employee has an id |
| Reports.WithIdNone | src/app/reports/page.tsx:63 | an id no employee has matches none |
| Reports.LoadTotalStep | src/app/reports/page.tsx:63 | one more task adds as many as employees have its assignee's id |
| Reports.EmployeeTaskTotal | src/app/reports/page.tsx:61-65 | with distinct ids, the counts sum to the tasks with a known assignee, at most all tasks |
| Reports.EmptyLoads | src/app/reports/page.tsx:61-65 | with no tasks every count is zero |
| Reports.LoadExport | src/app/reports/page.tsx:61-65 | the distribution export is `name,tasks` and then one line per employee, quoted name and count, whatever colours were picked |
| Tasks.ValidateTaskForm | src/app/tasks/page.tsx:61-66 | accepted exactly with a name of ≥ 3 UTF-16 units, an assignee, a due date and one of the four categories; the values are kept |
| Tasks.FormAcceptsEveryCategory | src/app/tasks/page.tsx:65 | each of the four categories passes the form |
| Tasks.NewTask | src/app/tasks/page.tsx:116-122 | a new task has the form's values and status `Pending` |
| Tasks.Toggled | src/app/tasks/page.tsx:138 | the toggle always changes the status: `Pending` to `Completed`, otherwise `Pending` |
| Tasks.ToggleTwice | src/app/tasks/page.tsx:138 | toggling twice restores the status |
| Tasks.SetStatus | src/app/tasks/page.tsx:139-140 | the update writes only the status of the document with that id |
| Tasks.ToggleTwiceRestores | src/app/tasks/page.tsx:136-141 | toggling a listed task twice restores the collection |
| Tasks.EmployeeMap | src/app/tasks/page.tsx:90-96 | `{}` with no employees; otherwise each id sent to the last employee with it |
| Tasks.AssigneeLabelOfEmployees | src/app/tasks/page.tsx:307-316 | a task shows its last matching employee's name, or `Unassigned` when no employee has its id |
| Tasks.LaterDueTotalPreorder | src/app/tasks/page.tsx:104 | later due date first is a total preorder |
| Tasks.LatestDueFirst | src/app/tasks/page.tsx:104 | the sorted copy is a permutation of the tasks, latest due first |
| Tasks.TaskBoard.Listed | src/app/tasks/page.tsx:82-88 | tasks are listed exactly when there are a store and a user |
| Tasks.TaskBoard.LoadedEmployees | src/app/tasks/page.tsx:77-87 | employees are loaded exactly when there are a store and a user, and then they are the collection |
| Tasks.TaskBoard.AssigneeColumn | src/app/tasks/page.tsx:290-316 | one label per task on the current page: the name of the last loaded employee with the task's `assignedTo` id, or `Unassigned` when none has it |
| Tasks.TaskBoard.constructor | src/app/tasks/page.tsx:71-75 | no tasks or employees, page 1, the add dialog closed |
| Tasks.TaskBoard.Submit | src/app/tasks/page.tsx:114-126 | nothing without a tasks query, the dialog left as it was; otherwise exactly the new `Pending` task is added and the dialog closes |
| Tasks.TaskBoard.ToggleStatus | src/app/tasks/page.tsx:136-141 | nothing without a store; otherwise the task's document gets the flipped status; the dialog and the page are untouched |
| Tasks.TaskBoard.PaginatedTasks | src/app/tasks/page.tsx:100-105 | nothing unlisted; at most five tasks, sorted latest due first, each from the collection, and exactly positions `[(p-1)*5, p*5)` of the latest-due-first copy |
| Tasks.TaskBoard.ShowFooter | src/app/tasks/page.tsx:343 | the footer shows exactly when tasks are listed and there are more than five |
| Tasks.TaskBoard.PreviousPage | src/app/tasks/page.tsx:128-130 | Previous, page kept in range, tasks untouched |
| Tasks.TaskBoard.NextPage | src/app/tasks/page.tsx:132-134 | the corrected Next, page kept in range, tasks untouched |
| Inventory.Status | src/app/inventory/page.tsx:275-287 | `In Stock` exactly when stock is above the threshold |
| Inventory.StatusMonotone | src/app/inventory/page.tsx:275 | more stock never turns `In Stock` to `Low`; stock equal to the threshold is `Low` |
| Inventory.ValidateItemForm | src/app/inventory/page.tsx:62-68 | accepted exactly with a name of ≥ 2 UTF-16 units, known category and unit, and non-negative stock and threshold |
| Inventory.DefaultsAccepted | src/app/inventory/page.tsx:86-92 | the form's defaults pass once a name is filled in |
| Inventory.Appended | src/app/inventory/page.tsx:95-100 | one item appended with id `inv-(n+1)`, the earlier items unchanged |
| Inventory.AddAllNumbers | src/app/inventory/page.tsx:97 | adds keep ids numbered `inv-1`, `inv-2`, ... in list order |
| Inventory.AddsFromEmpty | src/app/inventory/page.tsx:73-100 | k adds from the empty list give ids `inv-1` to `inv-k`, all distinct |
| Inventory.InventoryPage.constructor | src/app/inventory/page.tsx:73-75 | empty list, dialog closed, page 1 |
| Inventory.InventoryPage.Add | src/app/inventory/page.tsx:95-103 | the item is appended and the dialog closed |
| Inventory.InventoryPage.PaginatedInventory | src/app/inventory/page.tsx:78-82 | positions `[(p-1)*5, p*5)` of the list, in order |
| Inventory.InventoryPage.PreviousPage | src/app/inventory/page.tsx:105-107 | Previous, page kept in range, list untouched |
| Inventory.InventoryPage.NextPage | src/app/inventory/page.tsx:109-111 | the corrected Next, page kept in range, list untouched |
| Employees.ValidateEmployeeForm | src/app/employees/page.tsx:53-57 | accepted exactly with a name of ≥ 2 UTF-16 units, a valid e-mail and one of the three roles |
| Employees.FormAcceptsEveryRole | src/app/employees/page.tsx:56 | each of the three roles passes the form |
| Employees.NewEmployee | src/app/employees/page.tsx:93-100 | id `emp-(n+1)`, the form's values, onboarding `Pending`, no store |
| Employees.AddAllNumbers | src/app/employees/page.tsx:94-101 | adds keep the earlier list and number ids `emp-1`, `emp-2`, ... |
| Employees.AddsFromEmpty | src/app/employees/page.tsx:72-101 | k adds from the empty list give ids `emp-1` to `emp-k`, all distinct |
| Employees.EmployeesPage.constructor | src/app/employees/page.tsx:69-73 | empty list, nothing selected, dialogs closed, page 1 |
| Employees.EmployeesPage.Add | src/app/employees/page.tsx:92-104 | the list grows by exactly the new employee, the earlier ones kept in order |
| Employees.EmployeesPage.ViewClick | src/app/employees/page.tsx:106-109 | the employee is selected and the dialog opened, the list untouched |
| Employees.EmployeesPage.PaginatedEmployees | src/app/employees/page.tsx:76-80 | positions `[(p-1)*5, p*5)` of the list, in order |
| Employees.EmployeesPage.PreviousPage | src/app/employees/page.tsx:111-113 | Previous, page kept in range, list untouched |
| Employees.EmployeesPage.NextPage | src/app/employees/page.tsx:115-117 | the corrected Next, page kept in range, list untouched |
| TasksChart.Credit | src/components/dashboard/tasks-chart.tsx:31-33 | a task counts, under its employee's name, exactly when it is `Completed` and its assignee is a known employee with a non-empty name |
| TasksChart.Credits | src/components/dashboard/tasks-chart.tsx:30-41 | each task's credit, in task order |
| TasksChart.CreditsSnoc | src/components/dashboard/tasks-chart.tsx:30 | one more task adds its own credit at the end |
| TasksChart.PendingNotCounted | src/components/dashboard/tasks-chart.tsx:31 | a task not completed changes no count |
| TasksChart.UnknownAssigneeNotCounted | src/components/dashboard/tasks-chart.tsx:32-33 | a task whose assignee is no employee changes no count |
| TasksChart.CompletedCounted | src/components/dashboard/tasks-chart.tsx:33-37 | a completed task of a known employee adds one to that name only, so namesakes merge |
| TasksChart.Bars | src/components/dashboard/tasks-chart.tsx:43-47 | bar i has fill index `(i mod 5) + 1`, in 1..5 |
| TasksChart.BarTotalOfEntries | src/components/dashboard/tasks-chart.tsx:43-47 | the bars add up to the entries' total |
| TasksChart.ChartData | src/components/dashboard/tasks-chart.tsx:26-47 | empty when either list is missing; otherwise one bar per credited name, distinct, count ≥ 1 and equal to that name's completed tasks, summing to all credited tasks |
| Login.ValidateLoginForm | src/app/login/page.tsx:39-45 | accepted exactly with a store code, a valid e-mail and a password of ≥ 6 UTF-16 units |
| Login.FirstWithEmail | src/app/login/page.tsx:83 | `find` by e-mail: the first employee with it, none exactly when there is none |
| Login.OnSignIn | src/app/login/page.tsx:82-93 | the sign-in call, with exactly the entered e-mail and password, is made exactly when the first employee with that e-mail has the chosen store; otherwise refused |
| Login.UnknownEmailRefused | src/app/login/page.tsx:84-91 | no employee with the e-mail: refused |
| Login.FirstEmployeeDecides | src/app/login/page.tsx:83-84 | when several share an e-mail, the first one's store decides |
| Login.NoStoreRefused | src/lib/types.ts:16 | an employee with no store is refused |
| Login.OnSignUp | src/app/login/page.tsx:95-99 | always a sign-up call (never a sign-in or a refusal) with the entered e-mail and password, with no store check |
| Login.SignInAsWrittenAlwaysRefused | src/app/login/page.tsx:36 | as written, the lookup uses the static empty list, so every e-mail sign-in is refused |

## Left out

- Rendering, dialogs' markup, toasts, skeletons and badge styling are presentation only. The only state kept is what the handlers change.
- Firestore subscriptions and writes (`useCollection`, `addDocumentNonBlocking`, `updateDocumentNonBlocking`) are foreign asynchronous calls. A collection is a sequence that a write changes at once. The listener's delivery order and any latency are not modelled.
- Tasks.TaskBoard.Submit: the new document's id is a parameter, assumed unused. The store's own id generation and the listener's order by document id are not modelled; the task is appended.
- Firebase Auth, Google sign-in and `src/firebase/non-blocking-login.tsx` are foreign calls. Sign-in and sign-up become an outcome naming the call.
- The wall clock (`new Date()`, the one-second ticker, date-fns formatting) is replaced by parameters for today's date text, the weekday name, the hour and the minute.
- Attendance.TimeClock.ClockIn: the `att-${Date.now()}` id is a parameter assumed unused. Without that, clock-out by id could close several records.
- Tasks.TaskBoard.PaginatedTasks: due dates are ordered as text, which matches date order for the `yyyy-MM-dd` form the task form writes. `Date` parsing, invalid dates (NaN) and Firestore `Timestamp` due dates are not modelled.
- Attendance.NewestFirst: `localeCompare` and `Date` parsing are replaced by plain string order on the date and `HH:mm` texts.
- Sorting.SortBy: the copy is built by stable insertion, but the contract states only sorted-and-permutation, not stability.
- Counting.Tally: the entries' order is not stated. JavaScript lists integer-like keys first in `Object.entries`/`Object.values`; the model does not capture that.
- TasksChart.ChartData: the order of bars is not stated (see Counting.Tally), so which name gets which of the five colours is stated only by position.
- Validation.ValidEmailParts: the address check is a structural reading of zod's e-mail rule (local characters, no leading, trailing or doubled dot, dot-separated domain labels, alphabetic top-level label of two or more letters). It is not the exact regular expression of any zod release.
- Tasks.ValidateTaskForm: zod reports every failing field at once; the model reports the first in schema order. The enum message is abbreviated to `Invalid enum value`. The same holds for the other form validators.
- Inventory.ValidateItemForm: `z.coerce.number()` on arbitrary text, NaN and fractional numbers are not modelled; stock and threshold are integers.
- Reports.CsvSplitsIntoLines: a string value holding a line feed would make the export have more lines than rows + 1. The lemma requires that no value holds one.
- Reports.TaskStatusChartData, Reports.EmployeeTaskData and Reports.InventoryConsumptionData: the page applies them to the static empty lists of `src/lib/data.ts`. The model states them for any list. The `Math.random` chart fills of the consumption and distribution charts are parameters of `Reports.ConsumptionRows` and `Reports.LoadRows`.
- Reports.ExportCsv: building the `Blob`, the object URL and the hidden download link is a browser effect and is left out. Numbers are written as integers because floating point is not modelled.
- Employees.NewEmployee: the page's record carries `avatarUrl: ""`, which `Employee` does not declare, and omits `onboardingChecklist`. The model drops the first and gives an empty checklist.
- Tasks.AssigneeLabelOfEmployees: looking up an id such as `constructor` in a plain object reaches `Object.prototype` in JavaScript; the model's map has no such entries.
- TasksChart.ChartData: the page counts into a plain object. For an employee named `constructor`, `toString` or another `Object.prototype` member, the page draws a `NaN` bar; for one named `__proto__` it draws no bar. The model counts these names like any other.
- Attendance.Known: `employeeMap[record.employeeId]` on a plain object finds an `Object.prototype` member for an id such as `constructor`, so the page draws that record. The model draws only records whose id some employee has.
- Attendance.TimeClock.DisplayedRows: it inherits the `Object.prototype` gap of Attendance.Known.
- The shift-swap AI flow (`src/ai/flows/shift-swap-suggestion.ts`, `src/app/shift-swap/actions.ts`) is a prompt template plus a stub returning a constant empty list. It is not part of this model.
- `src/app/layout.tsx`, `src/app/page.tsx`, `src/app/roster/page.tsx`, `src/app/shift-swap/page.tsx` and `src/components/shared/*` are static pages. They are not part of this model.

## Findings

| source | as written | input that shows it | evidently intended | confidence | as-written member | corrected member |
|---|---|---|---|---|---|---|
| src/app/attendance/page.tsx:177-179 | Next sets `Math.min(prev + 1, totalPages)`, and the button is disabled only when `currentPage === totalPages`. The same code is in src/app/inventory/page.tsx:109-111 and src/app/employees/page.tsx:115-117. | Empty list, page 1: the page count is 0, so the button is enabled, and Next sets page 0. After one add, page 0 is `slice(-5, 0)`, which is empty although the list is not. | Never leave page 1 on an empty list: clamp to `max(totalPages, 1)` | high (not executed) | Pagination.NextAsWrittenLeavesFirstPage | Pagination.StepsStayInRange |
| src/app/login/page.tsx:36 | `onSignIn` looks the e-mail up in `employees` imported from src/lib/data.ts, which is the empty list. | Any valid form values: `find` gives `undefined`, so the store check refuses and no sign-in call is made. | Look the e-mail up in the employee records the app actually keeps | medium (not executed) | Login.SignInAsWrittenAlwaysRefused | Login.FirstEmployeeDecides |
