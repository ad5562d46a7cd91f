# TaskBuddy core, modelled in Dafny

TaskBuddy is a personal task manager. A signed-in user keeps tasks (title,
description, category, due date, status, attachments, and a history of status
changes and field updates) and sees them as a list grouped by status or as a
board. This project models the logic that sits between the user interface
and the store:

- **filtering** (`filter_helpers.dfy`): the due-date, category and
  case-insensitive search filter applied to the task list;
- **the task form** (`task_form.dfy`): the activity timeline built from a
  task's history and sorted newest first, and the submit handler that
  validates the form and builds the task record;
- **the dashboard** (`dashboard.dfy`): the history the update path records
  before it writes a task, the status-change, delete, edit and submit
  handlers, the selection list, and the three status lists;
- **the form's description editor** (`render_form.dfy`): the bold, italic and
  strikethrough wrappers, the list buttons, and the submit-disabled test;
- **the attachment picker** (`file_upload.dfy`): removing a picked file,
  merging dropped files, the upload guard and the attachment list an upload
  writes, and the preview test on MIME types.

`tasks.dfy` holds the task record of `src/types/Task.ts`; `seqs.dfy` holds the
order-preserving `Select` (JavaScript's `Array.prototype.filter`) and `Map`
with their lemmas (subsequence, multiplicities, idempotence, congruence,
concatenation, permutation invariance); `wrappers.dfy` holds `Option`.

Modelling choices:

- Dates stay strings, as in the source. A `DateParser` (`string -> Option<int>`)
  stands for `new Date(s).getTime()`. Where the source compares dates, the model
  requires that they parse (an invalid date gives NaN comparisons in the source).
- The current time is a parameter: the filter takes a `Clock` with `now` and the
  instant one calendar month later (as `setMonth` computes it). The form and the
  dashboard take `now` as the ISO string `new Date().toISOString()` would give.
  A calendar day is `instant / 86_400_000`.
- Optional task arrays (`attachments`, `statusChanges`, `updates`) are sequences,
  with an absent array shown as the empty one, as the source's `|| []` treats it.
  `order` is an `Option<int>`.
- The store is not modelled. The dashboard's class records what it asks the
  store to do, in order, as a log of `AddDoc`, `UpdateDoc` and `DeleteDoc` writes.
  The file upload returns the storage path and the attachment list it would write.
- JavaScript's `!==` on the `attachments` array compares identity. The update
  path therefore takes a flag telling whether the incoming array is the stored
  one. It is on the status-change path, where the spread copies the reference.
  It is off on the form path, whose `attachments: []` is a fresh array.

Consequences of the code as written, proved as lemmas:

- A real status change from the dashboard records the status change twice:
  once in the handler and once in the update path. Both entries have the same
  `from` and `to`, each dated by its own clock reading (`StatusChangeRecordedTwice`).
- An edit submitted from the form starts from empty history arrays. The written
  document therefore holds only the new history entries, and "attachments" is
  always recorded as an updated field (`FormEditHistory`). The form's draft has
  no attachments (`HandleSubmit`) and the update path keeps them as they are
  (`PreparedHistory`), so such an edit writes an empty attachment list.
- The only upload path writes attachment records without `uploadedAt`
  (`UploadFile`). So any task with an uploaded file falls outside the
  timeline's precondition (`HistoryDated`); in the source its sort then
  compares NaN.
- Each upload started by one drop writes the list as it was before the drop,
  plus only its own file (`UploadCarriesOnlyItsOwnFile`).

Where the `Task` type in `src/types/Task.ts` and the code that fills it differ,
the model follows the code. The type declares `dueDate` as one of the filter's
literal names, but the form stores a date string in it; the model keeps a string. The filter's
category is the closed set All, Work and Personal of the `Task` type. Any
value other than Work or Personal imposes no restriction, as in the code.

## Model

| member | source | states |
|---|---|---|
| Tasks.StatusName | src/types/Task.ts:11 | the three status names "Todo", "In-Progress" and "Completed"; none is empty |
| Tasks.StatusNameInjective | src/pages/DashBoard.tsx:77-80 | distinct statuses have distinct names, so the model's comparison of status values is the source's `!==` on status strings |
| FilterHelpers.WithinDueDate | src/utils/filterHelpers.ts:17-32 | (definition) Today: due day is today's; Tomorrow: the next day; One Week: due at or before now plus seven days; One Month: due at or before the month bound; All Dates: always |
| FilterHelpers.WithinCategory | src/utils/filterHelpers.ts:35-41 | (definition) Work or Personal requires that category; any other value passes every task |
| FilterHelpers.Includes | src/utils/filterHelpers.ts:46-47 | (definition) `includes`: the needle is a prefix of the haystack or of one of its suffixes |
| FilterHelpers.MatchesSearch | src/utils/filterHelpers.ts:44-47 | (definition) the query is empty, or its lower-case form is in the lower-case title or description |
| FilterHelpers.Lower | src/utils/filterHelpers.ts:46-47 | lowercasing keeps the length and maps each character to its lower-case letter |
| FilterHelpers.IncludesAt | src/utils/filterHelpers.ts:46-47 | `includes` holds iff the needle occurs at some position of the haystack |
| FilterHelpers.FilterTasks | src/utils/filterHelpers.ts:14-49 | the result is an order-preserving subsequence of the input; each kept task passes the due-date, category and search checks; each passing task is kept as often as it occurs |
| FilterHelpers.FilterIdentity | src/utils/filterHelpers.ts:17-47 | all due dates, category All and an empty query return the input unchanged |
| FilterHelpers.FilterIdempotent | src/utils/filterHelpers.ts:14 | filtering the result again with the same arguments and clock changes nothing |
| FilterHelpers.FilterByCategory | src/utils/filterHelpers.ts:35-41 | with Work or Personal the result is the All result restricted to that category, and every kept task has it |
| FilterHelpers.SearchIgnoresCase | src/utils/filterHelpers.ts:44-47 | two queries that lowercase alike give the same result |
| FilterHelpers.SearchMeaning | src/utils/filterHelpers.ts:44-47 | the empty query matches every task; any other query matches iff its lower-case form occurs in the lower-case title or description |
| FilterHelpers.TodayAndTomorrow | src/utils/filterHelpers.ts:18-23 | Today keeps a task iff its due day is today, Tomorrow iff it is the next day, and no task passes both |
| FilterHelpers.OverdueWithinWeekAndMonth | src/utils/filterHelpers.ts:24-31 | One Week and One Month are upper bounds only: a task due in the past passes both |
| TaskForm.Events | src/components/TaskForm.tsx:72-92 | (definition) the creation event, then one event per status change, attachment and update, in that order |
| TaskForm.Insert | src/components/TaskForm.tsx:93 | inserting an event adds exactly that event, one longer, starting with it or with the old head |
| TaskForm.InsertNewestFirst | src/components/TaskForm.tsx:93 | inserting into a newest-first list keeps it newest first |
| TaskForm.SortNewestFirst | src/components/TaskForm.tsx:93 | the sort returns a permutation of its input, newest first by parsed date |
| TaskForm.NewestFirstThroughout | src/components/TaskForm.tsx:93 | newest first on adjacent events means newest first on every pair |
| TaskForm.HistoryDatedEvents | src/components/TaskForm.tsx:72-93 | when every history date parses, every listed event has a parsable date |
| TaskForm.Timeline | src/components/TaskForm.tsx:69-93 | no timeline without an initial task; otherwise a permutation of the creation, status, file and update events, sorted newest first |
| TaskForm.SelectEvents | src/components/TaskForm.tsx:72-92 | splitting the listed events by kind gives each part's events of that kind |
| TaskForm.CreationEvents | src/components/TaskForm.tsx:73-77 | the only creation event is "Created task", dated `createdAt` |
| TaskForm.StatusChangeEvents | src/components/TaskForm.tsx:78-82 | the status events are exactly one per status change, in order |
| TaskForm.FileEvents | src/components/TaskForm.tsx:83-87 | the file events are exactly one per attachment, in order |
| TaskForm.UpdateEvents | src/components/TaskForm.tsx:88-92 | the update events are exactly one per update entry, in order |
| TaskForm.TimelineCounts | src/components/TaskForm.tsx:72-93 | the timeline has 1 + status changes + attachments + updates events, exactly one creation event, and as many events of each kind as its array has entries |
| TaskForm.InTimeline | src/components/TaskForm.tsx:72-93 | an event is in the timeline iff it is one of the listed events |
| TaskForm.TimelineMessages | src/components/TaskForm.tsx:79-90 | each history entry appears with its message ("Changed status from … to …", "Uploaded file: …", "Updated task: …") and its own date |
| TaskForm.OneStatusChangeTimeline | src/components/TaskForm.tsx:72-93 | a task with one status change dated after its creation shows that change first, then the creation |
| TaskForm.Trim | src/components/TaskForm.tsx:48 | (definition) `trim`: drops JavaScript whitespace and line terminators from both ends |
| TaskForm.TrimEmptyIffBlank | src/components/TaskForm.tsx:48 | a string trims to empty iff every character is JavaScript whitespace |
| TaskForm.HandleSubmit | src/components/TaskForm.tsx:46-63 | no record iff the title or due date is blank or no category is chosen; otherwise the fields are copied, `completed` iff Completed, no attachments, `createdAt` kept or set to now, and the id set iff the initial task has a non-empty one |
| TaskForm.DisabledImpliesRejected | src/components/RenderForm.tsx:264 | whenever the submit button is disabled, the submit handler also rejects the form |
| TaskForm.BlankTitleEnabledButRejected | src/components/TaskForm.tsx:48 | a title of one space enables the button, yet the handler rejects the form |
| RenderForm.SubmitDisabled | src/components/RenderForm.tsx:264 | (definition) disabled iff the title or due date is the empty string or no category is chosen; the status is never empty |
| RenderForm.Marker | src/components/RenderForm.tsx:108 | the markers are "**", "*" and "~~", of lengths 2, 1 and 2 |
| RenderForm.Wrap | src/components/RenderForm.tsx:103-110 | the text before the selection, a marker, the selected text, the marker again, then the text after it |
| RenderForm.ApplyStyle | src/components/RenderForm.tsx:99-153 | each style button grows the description by twice its marker and leaves the text outside the selection unchanged |
| RenderForm.UnwrapRestores | src/components/RenderForm.tsx:105-110 | taking out both inserted markers gives back the original description |
| RenderForm.EmptySelection | src/components/RenderForm.tsx:105-110 | an empty selection puts the two markers side by side at the cursor |
| RenderForm.ListSuffix | src/components/RenderForm.tsx:162-171 | the list suffixes start with a newline; the bulleted one is five characters long and the numbered one four |
| RenderForm.AppendListItem | src/components/RenderForm.tsx:162-171 | the list buttons keep the description as its prefix and append exactly the suffix |
| DashBoard.Strip | src/pages/DashBoard.tsx:113-118 | the written document is the task without `id`; adding the id back gives the task |
| DashBoard.Find | src/pages/DashBoard.tsx:79 | the first cached task with the id, and none iff no task has it |
| DashBoard.Differs | src/pages/DashBoard.tsx:99 | (definition) `!==` per key: values for the scalar keys and `order`, array identity for `attachments` |
| DashBoard.ChangedFields | src/pages/DashBoard.tsx:94-100 | the changed keys form a subsequence of the key order and are exactly the present keys whose value differs |
| DashBoard.Prepared | src/pages/DashBoard.tsx:77-111 | (definition) the status entry step, then the field update step, as the mutation performs them; its properties are `PreparedHistory` and the lemmas after it |
| DashBoard.PreparedHistory | src/pages/DashBoard.tsx:77-111 | the incoming task's own history gains one status entry iff the status differs or no task is stored, and one update per changed key in key order when a task is stored; every other field is kept |
| DashBoard.ChangedIgnoresHistory | src/pages/DashBoard.tsx:94-100 | the changed keys do not depend on the `statusChanges` and `updates` arrays |
| DashBoard.PreparedUnknownTask | src/pages/DashBoard.tsx:77-90 | with no stored task the status entry runs from "" and no update is added |
| DashBoard.UpdateEntriesAreChangedKeys | src/pages/DashBoard.tsx:92-111 | the old updates stay as a prefix; each new entry is dated now, names a present key whose value differs, and there are at most nine |
| DashBoard.DraftTask | src/pages/DashBoard.tsx:181 | (definition) `taskData as Task`: the draft's fields under the id, no `order` key and empty history |
| DashBoard.SubmitRoute | src/pages/DashBoard.tsx:179-184 | the update path iff the draft's id is present and non-empty, carrying the draft's fields under that id; otherwise the add path with the draft as it is |
| DashBoard.FormSubmitRoute | src/pages/DashBoard.tsx:179-184 | a form submit goes to the update path iff it edits a task with a non-empty id, and then under that id |
| DashBoard.FormEditHistory | src/pages/DashBoard.tsx:82-109 | an edit from the form writes only the new history entries, and always records "attachments" as updated |
| DashBoard.StatusRequest | src/pages/DashBoard.tsx:154-164 | the handler submits the task with the new status and one more status entry from the old status; nothing else changes |
| DashBoard.StatusChangeRecordedTwice | src/pages/DashBoard.tsx:151-165 | a real status change ends with two status entries with the same `from` and `to`, dated by the handler's and the mutation's clock readings, one "status" update dated by the mutation, and `completed` unchanged |
| DashBoard.SameStatusRecordedOnce | src/pages/DashBoard.tsx:151-165 | choosing the current status records one entry from that status to itself, dated by the handler, and no update |
| DashBoard.ChangedOnlyStatus | src/pages/DashBoard.tsx:94-100 | when the submitted task differs from the stored one only in status and history, "status" is the only changed key |
| DashBoard.NothingChanged | src/pages/DashBoard.tsx:94-100 | when it differs only in history, no key has changed |
| DashBoard.Selection | src/pages/DashBoard.tsx:141-149 | selecting appends the id; deselecting drops every occurrence and keeps every other id, in order |
| DashBoard.Column | src/pages/DashBoard.tsx:311 | a status list is an order-preserving filter holding every filtered task of that status and no other |
| DashBoard.ColumnsPartition | src/pages/DashBoard.tsx:311-337 | the three status lists together hold each filtered task exactly as often as the filtered list does |
| DashBoard.Dashboard.UpdateTask | src/pages/DashBoard.tsx:69-118 | appends one update of the task's id with the prepared task minus its id, and changes nothing else |
| DashBoard.Dashboard.SelectTask | src/pages/DashBoard.tsx:141-149 | the selection becomes the new selection list; nothing else changes |
| DashBoard.Dashboard.ChangeStatus | src/pages/DashBoard.tsx:151-166 | no write for an unknown id; otherwise one update with the prepared status request, the handler's and the mutation's clock readings kept apart |
| DashBoard.Dashboard.EditTask | src/pages/DashBoard.tsx:168-171 | the form opens on the task; nothing is written |
| DashBoard.Dashboard.DeleteTasks | src/pages/DashBoard.tsx:172-177 | one delete per id, in order, and the selection becomes empty |
| DashBoard.Dashboard.SubmitTask | src/pages/DashBoard.tsx:179-187 | an add of the draft or an update of the draft's task as the route says, then the form closes and the edited task is cleared |
| FileUpload.RemoveFile | src/components/FileUpload.tsx:63-67 | for an index in range, the list without that element, one shorter; otherwise the list unchanged |
| FileUpload.UploadFile | src/components/FileUpload.tsx:23-35 | nothing without a task id; otherwise the user's path for the task and file, and the picked files followed by a record of this file with no upload time |
| FileUpload.OnDrop | src/components/FileUpload.tsx:44-52 | the picked list becomes the old one followed by the dropped files, and one upload is started per dropped file, in order |
| FileUpload.UploadCarriesOnlyItsOwnFile | src/components/FileUpload.tsx:33-35 | each upload's list holds exactly one stored record, its own file's |
| FileUpload.DropWithoutTask | src/components/FileUpload.tsx:25 | a drop without a task id uploads nothing |
| FileUpload.IsImageFile | src/components/FileUpload.tsx:69-71 | a preview is shown iff the MIME type is "image/" followed by some string, or is exactly "application/pdf" |

## Left out

- Store, file storage and authentication calls are foreign I/O. Writes are recorded as a log instead. The user id and the download address are parameters.
- Query caching, invalidation and the order in which asynchronous mutations finish are library behaviour and concurrency. This includes concurrent uploads overwriting one another's attachment list.
- Real date semantics (parsing, time zones, `toDateString`, `setDate`, `setMonth`) are replaced by a parser parameter, a day number and the month bound given by the clock. A date that does not parse is excluded by precondition.
- FilterHelpers.Lower: lowercases ASCII letters only, not the full Unicode mapping of `toLowerCase`.
- String lengths count characters, not UTF-16 code units.
- RenderForm.ApplyStyle: as written, the three style buttons throw. They look up an element with id "description" (src/components/RenderForm.tsx:100-102, 121-123, 142-144), but the text area has no id, so the lookup finds nothing and reading `selectionStart` raises a TypeError before the description is set. `Wrap` and `ApplyStyle` give the edit these handlers are evidently meant to make, with the selection bounds as parameters (0 <= start <= end <= length).
- The character counter under the description only displays the length and is not modelled.
- The order of updated fields follows the task record's key order. On the form path that order is the record literal's (src/components/TaskForm.tsx:50-59), which the model's key list reproduces, followed by `order`. On the status-change path at most one update, "status", can be added (`ChangedOnlyStatus`, `NothingChanged`), so the key order of a loaded task does not matter.
- The store's handling of a missing array as opposed to an empty one, and the merge semantics of a partial update, are not modelled.
- The `[key: string]: any` index signature of the task type is not modelled: a task has only its declared keys.
- The form's `!status` test never fires, because the status is a closed enumeration that cannot be empty.
- The filter's due-date and category arguments are closed enumerations, so other values are not modelled.
- DashBoard.Dashboard.UpdateTask: every `new Date()` within one run of the update mutation is the same `now`. The status handler's reading is a separate parameter (`ChangeStatus`).
- TaskForm.SortNewestFirst: the sort is proved sorted and a permutation; the order of events with the same date (kept in list order by the engine's stable sort) is not stated.
- The batch actions bar, login, routing, user profile, skeleton loader, and the item and board rendering are not part of this model.
- FileUpload.RemoveFile: the index is a natural number; a negative index, which `splice` counts from the end, is not modelled (the source only passes list positions).
