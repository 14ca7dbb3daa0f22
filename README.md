# Task list bookkeeping, modelled in Dafny

This project models the non-presentational logic of the `TaskList` React
component of a small task-manager front end (`src/components/TaskList.jsx`).
The component keeps the tasks of one selected day, received from a remote
task service. It validates the add form and filters the table by a title
search. After the service confirms a delete, a mark-complete or an update,
it patches its local list. It also builds a CSV export.

Layout, one module per concern:

- `wrappers.dfy` — `Option`, `Result`.
- `text.dfy` (`Text`) — the JavaScript string built-ins the component relies
  on: `trim` (the full WhiteSpace and LineTerminator set), `length` in UTF-16
  code units, `toLowerCase`, `includes` and `join`. `Split` is there only as
  the inverse of `Join`, to state what the joined CSV text contains.
- `tasks.dfy` (`Tasks`) — the records (`Task`, the form `Draft`, the
  `NewTaskRecord` posted on add, `FieldErrors`), the abstract server replies,
  the validator, the search filter and the list updates by id.
- `csv_export.dfy` (`CsvExport`) — the CSV lines and the joined text.
- `colors.dfy` (`Colors`) — the priority chip, row and status chip colours.
- `task_list.dfy` (`TaskListView`) — class `TaskList`. Its fields are the
  component's `useState` variables. Each event handler is a method. Every
  method states the whole new state through `State()`. The invariant
  `Valid()` says two things: the search term is stored lower-cased, and the
  edit dialog is only open over a task.

Server interaction is abstract. Each handler takes what the service
answered as a `Reply`: `Failed` (the request or JSON parse threw), or
`Answered(httpOk, success, status)`. Each handler tests exactly the field
its source tests:

- add: `status == "success"`;
- delete and update: a truthy `success`; the HTTP status is not looked at;
- mark-complete: a 2xx status and then a truthy `success`.

A listing GET is a `Listing`. Dates and ids are opaque inputs. `Day`
carries the two strings the component derives from the selected `Date`:
`toISOString().split("T")[0]` and `toDateString()`.

Behaviour of the code that the model keeps as written:

- Mark-complete flips `isCompleted`. New tasks are posted with `completed`
  (TaskList.jsx:138). `NewTaskRecord.completed` and `Task.isCompleted` are
  kept as two different fields.
- Overlapping date fetches have no last-request-wins guard in the code.
  Fetch results are applied in the order the caller hands them in.
- With an empty list, `tasksData[0]` is `undefined` and
  `Object.keys(undefined)` (TaskList.jsx:282) throws a TypeError. No "no data"
  value is returned. The model says `Failure(NoFirstRecord)`.
- `handleInputChange` re-validates with the lower-case key as the field name,
  so its message reads `title must be min 5 characters`. `validateForm` says
  `Title ...`.
- The edit dialog posts the edited task without any validation.
- The table renders `filteredTasks` only when it is non-empty
  (TaskList.jsx:411-412); a search that matches nothing shows every task
  (TaskList.jsx:453-454). `ShownRows` models the rendered rows.
- CSV values are not quoted. `CommaInTitleAddsColumn` shows that a comma in
  a title adds a column.
- The description input is multi-line (TaskList.jsx:367), and a line break in
  a description is not quoted either: `NewlineInDescriptionAddsLine` shows that
  it splits the task's row across two lines of the export.

## Model

| member | source | states |
|---|---|---|
| Text.TrimStart | src/components/TaskList.jsx:96 | drops leading white space; its meaning is stated by `Text.TrimStartSpec` |
| Text.TrimEnd | src/components/TaskList.jsx:96 | drops trailing white space; its meaning is stated by `Text.TrimEndSpec` |
| Text.Trim | src/components/TaskList.jsx:96 | `String.prototype.trim`; characterised by `Text.TrimShape`, `Text.TrimBlank` and `Text.TrimOfPadded` |
| Text.TrimStartSpec | src/components/TaskList.jsx:96 | what `trim` drops at the front is all white space, and what it keeps is a suffix starting with a non-space |
| Text.TrimEndSpec | src/components/TaskList.jsx:96 | what `trim` drops at the end is all white space, and what it keeps is a prefix ending with a non-space |
| Text.TrimShape | src/components/TaskList.jsx:96 | a trimmed value is no longer than the input and neither starts nor ends with white space |
| Text.TrimBlank | src/components/TaskList.jsx:96 | trimming gives the empty string exactly when the value is white space only |
| Text.TrimOfPadded | src/components/TaskList.jsx:96 | trimming white space + core + white space gives the core, so the contract determines `trim` |
| Text.Utf16Length | src/components/TaskList.jsx:96 | `.length` counts UTF-16 code units: between one and two per code point |
| Text.Utf16LengthBmp | src/components/TaskList.jsx:96 | without code points above U+FFFF, `.length` is the number of characters |
| Text.ToLower | src/components/TaskList.jsx:92-93 | lower-casing keeps the length, leaves no upper-case letter, and changes only upper-case letters, each to its lower-case form |
| Text.ToLowerIdempotent | src/components/TaskList.jsx:92 | lower-casing an already lower-cased term changes nothing |
| Text.Includes | src/components/TaskList.jsx:93 | `String.prototype.includes`: the term occurs at some position; see `Text.IncludesEmpty` and `Text.NoUpperNotIncludes` |
| Text.IncludesEmpty | src/components/TaskList.jsx:93 | every title includes the empty term |
| Text.NoUpperNotIncludes | src/components/TaskList.jsx:93 | a string without upper-case letters never includes a term that has one |
| Text.Join | src/components/TaskList.jsx:282-286 | `Array.prototype.join`; its inverse is `Text.Split`, and `Text.JoinSplit` and `Text.SplitJoin` tie the two together |
| Text.Split | src/components/TaskList.jsx:281-286 | splitting at a separator gives at least one piece, and no piece holds the separator |
| Text.JoinSplit | src/components/TaskList.jsx:281-286 | joining the pieces of a split with the separator gives back the text |
| Text.SplitJoin | src/components/TaskList.jsx:281-286 | splitting a join of separator-free pieces gives back exactly those pieces |
| Tasks.TooShort | src/components/TaskList.jsx:96 | the message starts with the field name and is longer than it |
| Tasks.ValidateField | src/components/TaskList.jsx:95-98 | `validateField`; its verdict is stated by `Tasks.ValidateFieldIff` |
| Tasks.ValidateFieldIff | src/components/TaskList.jsx:95-98 | `validateField` returns "" iff the trimmed value has length at least 5, otherwise `<field> must be min 5 characters` |
| Tasks.BlankRejected | src/components/TaskList.jsx:95-98 | a white-space-only value is rejected, whatever its length |
| Tasks.PaddingIrrelevant | src/components/TaskList.jsx:95-98 | white space around a value never changes the verdict |
| Tasks.SameTrimSameVerdict | src/components/TaskList.jsx:95-98 | the verdict depends only on the trimmed value |
| Tasks.FormErrors | src/components/TaskList.jsx:100-107 | the `errors` object `validateForm` builds for title and description; stated by `Tasks.ValidateFormIff` |
| Tasks.FormPasses | src/components/TaskList.jsx:109 | the form passes when neither message is set; stated by `Tasks.ValidateFormIff` |
| Tasks.ValidateFormIff | src/components/TaskList.jsx:100-110 | the form passes iff the title and the description each pass; each recorded message is non-empty iff its field fails |
| Tasks.ShortTitleRejected | src/components/TaskList.jsx:100-110 | the title `abc` is refused with the title message, whatever the description |
| Tasks.ThreeLettersShort | src/components/TaskList.jsx:96 | `"abc".trim().length` is below the minimum |
| Tasks.SetDraftField | src/components/TaskList.jsx:113 | `{ ...prev, [field]: value }` on the add form; `TaskListView.TaskList.HandleInputChange` states its effect |
| Tasks.SetTaskField | src/components/TaskList.jsx:514-537 | the edit fields' `{ ...currentTask, <field>: value }`; `TaskListView.TaskList.HandleEditChange` states its effect |
| Tasks.ErrorsAfterInput | src/components/TaskList.jsx:112-115 | typing re-validates only a field that shows a message, and clears it iff the new value is long enough; the other field's message and a field without a message are kept; a message it sets reads `<lower-case key> must be min 5 characters` |
| Tasks.Refreshed | src/components/TaskList.jsx:117-126 | a listing replaces the tasks and a failed fetch keeps them; `TaskListView.TaskList.FetchTasks` states it |
| Tasks.BuildRecord | src/components/TaskList.jsx:133-140 | the record `handleAddTask` posts; `TaskListView.TaskList.HandleAddTask` states its fields |
| Tasks.AddAccepted | src/components/TaskList.jsx:151 | the add reply is accepted iff it parsed and its `status` is `success` |
| Tasks.Confirmed | src/components/TaskList.jsx:177 | the delete and update reply is accepted iff it parsed and `success` is truthy, whatever the HTTP status |
| Tasks.CompleteConfirmed | src/components/TaskList.jsx:197-202 | the complete reply is accepted iff it parsed, the HTTP status is 2xx and `success` is truthy |
| Tasks.Keep | src/components/TaskList.jsx:93 | `filter` keeps an order-preserving subsequence, holding each satisfying element as often as the input does and no other |
| Tasks.Filter | src/components/TaskList.jsx:93 | `filteredTasks` is an ordered subsequence of `tasks` holding exactly the tasks whose lower-cased title includes the term, each as often as in `tasks` |
| Tasks.FilterEmptyTerm | src/components/TaskList.jsx:93 | an empty term shows every task in order |
| Tasks.FilterUpperTermEmpty | src/components/TaskList.jsx:92-93 | a term with an upper-case letter matches nothing, which is why the term is stored lower-cased |
| Tasks.ShownRows | src/components/TaskList.jsx:411-454 | the table body is empty iff there are no tasks, and shows only tasks of the list |
| Tasks.ShownRowsWhenFound | src/components/TaskList.jsx:412-413 | when some task matches, exactly `filteredTasks` is shown, and every shown row matches |
| Tasks.ShownRowsWhenNoneFound | src/components/TaskList.jsx:453-454 | when nothing matches, every task is shown, in order |
| Tasks.FilterIdempotent | src/components/TaskList.jsx:93 | searching the result again with the same term changes nothing |
| Tasks.RemoveById | src/components/TaskList.jsx:178 | after a delete no task with the id remains; all other tasks stay, each as often as before and in their relative order |
| Tasks.RemoveAbsent | src/components/TaskList.jsx:178 | deleting an id no task carries leaves the list unchanged |
| Tasks.RemovePresent | src/components/TaskList.jsx:178 | deleting an id some task carries makes the list shorter |
| Tasks.ToggleById | src/components/TaskList.jsx:203-207 | completing keeps the length; exactly the tasks with the id have `isCompleted` flipped and nothing else about them changes; every other task is identical |
| Tasks.ToggleTwice | src/components/TaskList.jsx:203-207 | completing the same id twice restores the list |
| Tasks.ToggleThenRemove | src/components/TaskList.jsx:203-207 | completing touches only the id's tasks: deleting the id afterwards gives the same list as deleting alone |
| Tasks.ReplaceById | src/components/TaskList.jsx:257-261 | an update keeps the length, replaces every task with the edited id wholesale, and leaves every other position as it was |
| Tasks.ReplaceIdempotent | src/components/TaskList.jsx:257-261 | saving the same edit twice is the same as saving it once |
| Tasks.ReplaceThenRemove | src/components/TaskList.jsx:257-261 | an update touches only the edited id's tasks: the others, in order, are as before |
| Tasks.StatusText | src/components/TaskList.jsx:277 | the status is `Completed` iff `isCompleted`, else `Not Completed` |
| CsvExport.RowValues | src/components/TaskList.jsx:273-279 | the values of one row object, in key order; the Date value is the selected day; `CsvExport.RowFields` states them |
| CsvExport.CsvLines | src/components/TaskList.jsx:281-284 | the header line followed by the rows; `CsvExport.ExportLines` states the result |
| CsvExport.Rows | src/components/TaskList.jsx:273-283 | one line per task, in order, each the comma join of title, description, priority, status word and the selected day |
| CsvExport.ExportCsv | src/components/TaskList.jsx:272-286 | the export fails exactly when there are no tasks (no first row to take the keys from) |
| CsvExport.HeaderColumns | src/components/TaskList.jsx:282 | the header line splits into exactly `Title`, `Description`, `Priority`, `Status`, `Date` |
| CsvExport.RowFields | src/components/TaskList.jsx:273-283 | a comma-free row splits into exactly the title, description, priority, status word and selected day; the Date column is taken from the selected day, not from `t.date` |
| CsvExport.CommaInTitleAddsColumn | src/components/TaskList.jsx:283 | values are not quoted, so a title `a,b` yields a six-field row |
| CsvExport.NewlineInDescriptionAddsLine | src/components/TaskList.jsx:283-286 | line breaks are not quoted: a one-task export whose description holds a line break has three lines instead of two |
| CsvExport.LinesPlain | src/components/TaskList.jsx:281-284 | when no value holds a line break, no line of the export does |
| CsvExport.ExportLines | src/components/TaskList.jsx:281-286 | for a non-empty list without line breaks, the text has `|tasks| + 1` lines: the header, then each task's row in order |
| Colors.PriorityColor | src/components/TaskList.jsx:217-232 | `default` once completed; otherwise `success`/`warning`/`error` iff low/medium/high, `default` for any other priority |
| Colors.RowColor | src/components/TaskList.jsx:234 | grey background iff completed, transparent otherwise |
| Colors.StatusChipColor | src/components/TaskList.jsx:235 | `success` iff completed, `error` otherwise |
| Colors.ColouredChipMeansOpen | src/components/TaskList.jsx:217-232 | a coloured priority chip only appears on an open task with a known priority |
| Colors.StatusChipAgreesWithLabel | src/components/TaskList.jsx:235 | the status chip colour and the grey row agree with the status label |
| TaskListView.TaskList.constructor | src/components/TaskList.jsx:85-90 | the initial state: no tasks, the given day, add dialog closed, empty form with priority `low`, no messages, empty term; and, from the `useState` calls at TaskList.jsx:236-237, edit dialog closed with no task being edited |
| TaskListView.TaskList.HandleDateChange | src/components/TaskList.jsx:91 | only `selectedDate` changes |
| TaskListView.TaskList.HandleSearch | src/components/TaskList.jsx:92 | only the term changes, and it is stored lower-cased |
| TaskListView.TaskList.FilteredTasks | src/components/TaskList.jsx:93 | `filteredTasks` is an ordered subsequence of `tasks`: exactly the matching tasks, each as often as in `tasks`, and all of them for an empty term |
| TaskListView.TaskList.TableRows | src/components/TaskList.jsx:411-454 | the rendered rows: exactly `filteredTasks` when some task matches the term, every task in order when none does (so all of them for an empty term); empty only when `tasks` is |
| TaskListView.TaskList.ValidateForm | src/components/TaskList.jsx:100-110 | records both fields' messages in `errors`, changes nothing else, and passes iff neither message is set |
| TaskListView.TaskList.HandleInputChange | src/components/TaskList.jsx:112-115 | stores the value in the form and updates `errors` as `ErrorsAfterInput` says; nothing else changes |
| TaskListView.TaskList.FetchTasks | src/components/TaskList.jsx:117-126 | a listing replaces `tasks`; a failed fetch leaves the whole state unchanged |
| TaskListView.TaskList.HandleAddTask | src/components/TaskList.jsx:129-162 | an invalid form posts nothing; otherwise it posts the form's title, description and priority with the id, `completed = false` and the selected day; only an accepted reply resets the form to `{"", "", low}`, closes the dialog and re-fetches; `errors` is always set |
| TaskListView.TaskList.HandleDelete | src/components/TaskList.jsx:165-185 | only on a confirmed success are the id's tasks removed; otherwise, and in every other field, the state is unchanged |
| TaskListView.TaskList.HandleComplete | src/components/TaskList.jsx:186-214 | only on a 2xx reply with `success` are the id's tasks toggled; the length is always kept |
| TaskListView.TaskList.HandleEdit | src/components/TaskList.jsx:239-242 | the task becomes `currentTask` and the edit dialog opens |
| TaskListView.TaskList.HandleEditChange | src/components/TaskList.jsx:514-537 | one field of the task being edited is replaced |
| TaskListView.TaskList.HandleUpdateTask | src/components/TaskList.jsx:244-270 | posts `currentTask`; on a confirmed success replaces the id's tasks with it, closes the dialog and clears `currentTask`; otherwise nothing changes |
| TaskListView.TaskList.OpenAddDialog | src/components/TaskList.jsx:340 | only the add dialog opens |
| TaskListView.TaskList.CloseAddDialog | src/components/TaskList.jsx:388 | only the add dialog closes; the draft and its messages stay |
| TaskListView.TaskList.CloseEditDialog | src/components/TaskList.jsx:506 | only the edit dialog closes; the task being edited stays |
| TaskListView.TaskList.ExportText | src/components/TaskList.jsx:272-286 | the export is `ExportCsv` of the current tasks with the selected day's display string, whose text `CsvExport.ExportLines` fixes; it fails exactly when there are no tasks |

## Left out

- HTTP requests, JSON encoding and parsing, URLs and `console.error` logging. They become the abstract `Reply` and `Listing` inputs.
- Asynchrony between handlers: `handleDelete` writes back a filter of the render's own `tasks` (TaskList.jsx:178), while `handleComplete` and `handleUpdateTask` use the functional `prevTasks` form (TaskList.jsx:203, 257). A complete or update reply that lands while a delete is in flight is lost when the delete writes back its stale list. Each handler is one atomic step here, so this lost update is not modelled.
- Asynchrony: the `useEffect` re-fetch on a date change, and how overlapping requests interleave. `HandleDateChange` and `FetchTasks` are separate steps, applied in the order the caller gives.
- `Date`, `toISOString`, `toDateString` and `Date.now()`. They depend on time zone and clock, so the day strings and the id are opaque inputs.
- The blob, the download anchor and the file name `tasks_<day>.csv`. They are DOM side effects with no logic to model.
- Themes, JSX rendering, animation and MUI components, apart from the handlers bound inline in the JSX. All of `src/App.js` is left out too, since it is layout only.
- Text.ToLower: does not model Unicode case mapping, because a faithful `toLowerCase` needs the Unicode tables. Only the ASCII letters A to Z are lowered.
- Text.Utf16Length: a lone surrogate cannot occur in a Dafny string, so strings holding one are not modelled.
- JavaScript loose typing: a missing `isCompleted` reads as `false`, and an absent `errors.priority` is modelled as "". The initial `errors` value `false` is modelled as "", since both are falsy. Ids are compared as numbers.
- TaskListView.TaskList.HandleUpdateTask: requires the edit dialog to be open, because its Update button only exists inside that dialog. `Valid()` then guarantees that a task is being edited.
