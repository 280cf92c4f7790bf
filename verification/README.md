# Task dashboard: the task-collection core, in Dafny

This project models the logic at the centre of a small personal task manager: a REST
backend that keeps each user's tasks, and a single-page client that lists, searches,
filters, sorts, creates, edits, completes and deletes them. Four parts are modelled.

- **The task list** (`TaskListView`, `TaskListUpdates`): the status filter
  (`all` / `pending` / `completed`), the comparator the view is sorted with (dated tasks
  first, ascending by due date; undated tasks newest first), the pending and completed
  counters, and how the in-memory collection is reconciled after each call — replace on
  fetch, prepend on create, replace by id on edit and toggle, remove by id on delete, and
  no change when a call is rejected.
- **The client task calls** (`TaskApi`): the case-insensitive title search applied after
  fetching, the bodies sent for create, edit and toggle, and `toggleComplete` taken as one
  atomic read-then-write step against the server's store.
- **The server's task controller** (`TaskController`): create, list, update and delete
  over a store of task documents. Update and delete look a document up by task id
  together with the calling user; list selects by the calling user alone; create stores a
  new document owned by the caller under an id the store assigns. The store is a finite
  map from id to document.
- **The overdue marker** (`TaskItem`): a pure predicate over due date, completion and now.

`ClientServerSync` ties the two sides together. The client's collection and the
caller's documents on the server are compared by task id. A successful create, edit,
toggle or delete, once the task list has reconciled it, keeps the two id sets equal, and
a fetch without a search answered with the caller's tasks makes them equal. A fetch with
a search does not: it leaves the client holding only the title matches.

Shared pieces: `Wrappers` (Option, and Result for an asynchronous call that resolves or
rejects), `Seqs` (order-preserving `Filter`, the subsequence relation, and their laws),
`TaskTypes` (the client's `Task` and `TaskFormData`).

Modelling choices:

- Timestamps are integers; `dueDate` is `Option<int>`. Ids are strings.
- `toLowerCase` is ASCII lower-casing (`TaskApi.Lower`).
- The HTTP calls are inputs. The list fetch is the `fetched` sequence. A call's outcome
  is a `Result` handed to the reconciliation functions.
- The sort is modelled as a stable insertion sort under the source's comparator, since
  `Array.prototype.sort` is stable. Its contract is a permutation, sorted by the
  comparator, with ties in input order (`SortViewStable`). Any ordered list whose tie classes are
  the input's, in input order, is this result (`SortViewUnique`).
- The document schema is not part of this model. The values it fills in on creation are a
  `Defaults` parameter of `CreateTask`. Whether it accepts the title is an `accepts`
  parameter. The id the store assigns is a `freshId` parameter that must not be in use.
- The update body reaches the store verbatim, so `Patch` carries every field the client
  can send plus the owner field `user`.

Behaviour of the code worth knowing, which the model reproduces:

- The owner is not fixed after creation, unless the document schema, which is not part of
  this model, marks `user` immutable. The update handler passes the request body to
  the store unchanged (backend/src/controllers/task.controller.js:16), so a body naming
  `user` hands the task to that user (`TaskController.UpdateCanReassignOwner`). Ownership
  isolation holds only for bodies that do not name `user` (`TaskController.UpdateIsolation`).
- Create keeps only the title. The client sends title, description and `completed: false`
  and never the due date (frontend/src/services/api.ts:109-113); the create handler reads
  only `req.body.title` (backend/src/controllers/task.controller.js:4). A created task
  therefore depends only on the form's title (`TaskApi.CreateKeepsOnlyTitle`).
- An update of a task the caller does not own, or of a missing one, is not an error: the
  handler answers `null` and changes nothing (backend/src/controllers/task.controller.js:14-19,
  `TaskController.UpdateTask`).

## Model

| member | source | states |
|---|---|---|
| `TaskItem.IsOverdue` | frontend/src/components/TaskItem.tsx:63-65 | a task without a due date is never overdue; a completed task is never overdue; a task due at or after now is not overdue (strict `<`); a pending task due strictly before now is overdue |
| `TaskItem.OverdueStaysOverdue` | frontend/src/components/TaskItem.tsx:65 | a task that is overdue at some time stays overdue at every later time |
| `TaskItem.ToggleClearsOverdue` | frontend/src/components/TaskItem.tsx:65 | for a task whose due date has passed, the marker is on while pending and off once completed |
| `TaskListView.FilterByStatus` | frontend/src/components/TaskList.tsx:109-112 | the filtered list holds each task passing the status filter exactly as often as the collection does, and nothing else, in collection order |
| `TaskListView.FilterByStatusCases` | frontend/src/components/TaskList.tsx:109-112 | `pending` keeps exactly the open tasks, `completed` exactly the done ones, `all` the whole collection unchanged |
| `TaskListView.Compare` | frontend/src/components/TaskList.tsx:113-121 | a dated task sorts before an undated one; two dated tasks are ordered by due date, earlier first; two undated tasks by creation time, newer first |
| `TaskListView.CompareIsConsistent` | frontend/src/components/TaskList.tsx:113-121 | the comparator orders any two tasks one way or the other, is antisymmetric in sign and transitive, and its ties form an equivalence, so the sort is well defined |
| `TaskListView.SortView` | frontend/src/components/TaskList.tsx:113-121 | the sorted view is a permutation of its input and every earlier task may precede every later one under the comparator |
| `TaskListView.InsertSorted` | frontend/src/components/TaskList.tsx:113-121 | placing one task into an ordered list keeps the list ordered |
| `TaskListView.View` | frontend/src/components/TaskList.tsx:108-122 | the view holds each task passing the status filter as often as the collection does, nothing else, and is ordered by the comparator |
| `TaskListView.ViewIsFilteredPermutation` | frontend/src/components/TaskList.tsx:108-122 | the view adds, drops and duplicates nothing: it is a permutation of the status-filtered collection |
| `TaskListView.ViewDatedFirst` | frontend/src/components/TaskList.tsx:118-119 | every task with a due date is shown before every task without one |
| `TaskListView.ViewOrderWithinGroups` | frontend/src/components/TaskList.tsx:115-120 | dated tasks are shown in ascending due date; undated tasks in descending creation time |
| `TaskListView.SortViewStable` | frontend/src/components/TaskList.tsx:113-121 | tasks the comparator ties (same due date, or both undated with the same creation time) keep their relative collection order |
| `TaskListView.SortedTiesDetermine` | frontend/src/components/TaskList.tsx:113-121 | two lists both ordered by the comparator, with the same tasks in each tie class in the same order, are equal |
| `TaskListView.SortViewUnique` | frontend/src/components/TaskList.tsx:113-121 | the sorted view is the only ordered list whose tie classes hold the input's tasks in input order |
| `TaskListView.SortViewIdempotent` | frontend/src/components/TaskList.tsx:108-122 | recomputing the sort on its own output leaves it unchanged |
| `TaskListView.ViewExample` | frontend/src/components/TaskList.tsx:113-121 | an undated task, a task due at 20 and one due at 10 are shown as due 10, due 20, undated |
| `TaskListView.CompletedCount` | frontend/src/components/TaskList.tsx:99 | the completed counter is at most the collection size and is zero exactly when no task is completed |
| `TaskListView.PendingCount` | frontend/src/components/TaskList.tsx:100 | the pending counter is at most the collection size and is zero exactly when every task is completed |
| `TaskListView.CountsPartition` | frontend/src/components/TaskList.tsx:99-100 | pending count plus completed count is the size of the collection |
| `TaskListView.CountsIgnoreOrder` | frontend/src/components/TaskList.tsx:99-100 | the counters depend only on which tasks the collection holds, not on their order |
| `TaskListView.CountsMatchViews` | frontend/src/components/TaskList.tsx:99-112 | the pending and completed counters equal the lengths of the `pending` and `completed` views |
| `TaskListUpdates.RemoveById` | frontend/src/components/TaskList.tsx:90 | after the removal no entry carries the id; every other entry keeps its multiplicity and the order is kept |
| `TaskListUpdates.ReplaceById` | frontend/src/components/TaskList.tsx:64 | same length; entries with the id become the returned task; every other entry stays where it was |
| `TaskListUpdates.AfterFetch` | frontend/src/components/TaskList.tsx:29-38 | a successful fetch replaces the collection; a failed one leaves it as it was |
| `TaskListUpdates.AfterCreate` | frontend/src/components/TaskList.tsx:45-57 | a successful create yields the new task followed by the old collection unchanged; a failed one changes nothing |
| `TaskListUpdates.AfterUpdate` | frontend/src/components/TaskList.tsx:59-72 | with no task being edited, or on failure, nothing changes; otherwise length and positions are kept and only entries with the returned task's id change, to that task |
| `TaskListUpdates.AfterToggle` | frontend/src/components/TaskList.tsx:74-84 | on failure nothing changes; otherwise length and positions are kept and only entries with the toggled id change, to the returned task |
| `TaskListUpdates.AfterDelete` | frontend/src/components/TaskList.tsx:86-97 | on failure nothing changes; on success no entry keeps the id and the rest keep their multiplicity and order |
| `TaskListUpdates.ReplaceAbsentId` | frontend/src/components/TaskList.tsx:64 | replacing an id the collection does not hold changes nothing |
| `TaskListUpdates.ReplaceIdempotent` | frontend/src/components/TaskList.tsx:64 | replacing twice with the same task is replacing once, and ids stay at their positions |
| `TaskListUpdates.RemoveAbsentId` | frontend/src/components/TaskList.tsx:90 | removing an id the collection does not hold changes nothing |
| `TaskListUpdates.RemoveIdempotent` | frontend/src/components/TaskList.tsx:90 | removing the same id twice is removing it once |
| `TaskListUpdates.CreateThenDelete` | frontend/src/components/TaskList.tsx:45-97 | creating a task with a fresh id and then deleting it restores the collection |
| `TaskListUpdates.ToggleReconcilesLikeUpdate` | frontend/src/components/TaskList.tsx:59-84 | when the server returns a task with the toggled id, a toggle reconciles exactly like an edit |
| `TaskApi.Lower` | frontend/src/services/api.ts:96-97 | lower-casing keeps the length, maps each character on its own, and leaves no ASCII capital |
| `TaskApi.Contains` | frontend/src/services/api.ts:97 | the empty query is contained in every title; a contained query is no longer than the title |
| `TaskApi.TitleMatches` | frontend/src/services/api.ts:97 | a task matches exactly when the query occurs at some offset of its lower-cased title |
| `TaskApi.ContainsAt` | frontend/src/services/api.ts:97 | `includes` holds exactly when the query occurs at some offset of the title |
| `TaskApi.List` | frontend/src/services/api.ts:90-101 | with no search or an empty one the fetched list comes back unchanged; otherwise exactly the tasks whose lower-cased title contains the lower-cased query, each as often as fetched; always a subsequence of the fetched list |
| `TaskApi.ListIgnoresQueryCase` | frontend/src/services/api.ts:96-97 | a query and its lower-cased form give the same result |
| `TaskApi.ListIdempotent` | frontend/src/services/api.ts:95-98 | searching the result again with the same query changes nothing |
| `TaskApi.ListSearchesTitleOnly` | frontend/src/services/api.ts:97 | for any fetched list and non-empty query, a task whose lower-cased title does not contain the lower-cased query is left out, whatever its description |
| `TaskApi.ListExample` | frontend/src/services/api.ts:95-98 | "MIL" over "Buy Milk" and "Walk dog" keeps only "Buy Milk" |
| `TaskApi.CreatePayload` | frontend/src/services/api.ts:108-115 | the create body always has `completed` false and carries the form's title and description; it has no due date |
| `TaskApi.CreateKeepsOnlyTitle` | frontend/src/services/api.ts:109-113 | two forms with the same title create the same document: description and due date are lost between client and server |
| `TaskApi.UpdatePayload` | frontend/src/services/api.ts:117-123 | the edit body carries title, description and due date from the form and never `completed` or `user` |
| `TaskApi.TogglePatch` | frontend/src/services/api.ts:129-132 | the toggle body holds exactly the negated completion flag and no other field |
| `TaskApi.ToggleComplete` | frontend/src/services/api.ts:129-132 | toggling a task the caller owns flips its completion flag, changes nothing else in the store and returns the new record; otherwise nothing changes |
| `TaskApi.ToggleTwiceRestores` | frontend/src/services/api.ts:129-132 | toggling twice with nothing in between restores the store |
| `TaskController.CreateTask` | backend/src/controllers/task.controller.js:3-6 | the new document has the assigned id, is owned by the caller and takes only the title from the body; other fields are the schema's; no other document changes |
| `TaskController.GetTasks` | backend/src/controllers/task.controller.js:8-11 | the answer is exactly the stored documents owned by the caller |
| `TaskController.ApplyPatch` | backend/src/controllers/task.controller.js:14-18 | fields present in the body are overwritten, absent ones kept, the id never changes |
| `TaskController.UpdateTask` | backend/src/controllers/task.controller.js:13-20 | with no (id, caller) match the store is unchanged and the answer is null; with a match only that document changes and the answer is the document after the update |
| `TaskController.DeleteTask` | backend/src/controllers/task.controller.js:22-25 | the answer is always success; the store loses the (id, caller) document if there is one and nothing else |
| `TaskController.CreateIsolation` | backend/src/controllers/task.controller.js:3-11 | a create adds exactly the new document to the caller's list and leaves every other user's list as it was |
| `TaskController.UpdateIsolation` | backend/src/controllers/task.controller.js:13-20 | an update leaves every other user's list as it was unless the body names that user as owner |
| `TaskController.UpdateCanReassignOwner` | backend/src/controllers/task.controller.js:14-18 | in any store, any update body naming another `user` moves the caller's document into that user's list and out of the caller's |
| `TaskController.DeleteIsolation` | backend/src/controllers/task.controller.js:22-25 | a delete leaves every other user's list as it was |
| `TaskController.ForeignLooksMissing` | backend/src/controllers/task.controller.js:13-25 | updating or deleting another user's task answers and acts exactly as for an id the store does not hold |
| `TaskController.EmptyPatchIsNoOp` | backend/src/controllers/task.controller.js:14-18 | an update with an empty body leaves the store as it was |
| `TaskController.DeleteIdempotent` | backend/src/controllers/task.controller.js:22-25 | a repeated delete gives the same answer and the same store |
| `ClientServerSync.CreateKeepsSync` | frontend/src/components/TaskList.tsx:45-57 | if the client held exactly the ids the caller owns, it still does after a create is stored and the answer prepended |
| `ClientServerSync.DeleteKeepsSync` | frontend/src/components/TaskList.tsx:86-97 | since the server answers every delete with success and the client then drops the id, the id sets stay equal whether or not the caller owned the task |
| `ClientServerSync.UpdateKeepsSync` | frontend/src/components/TaskList.tsx:59-72 | an edit sent from the form and reconciled in place keeps the client's ids equal to the caller's |
| `ClientServerSync.ToggleKeepsSync` | frontend/src/components/TaskList.tsx:74-84 | a toggle answered with the toggled task keeps the client's ids equal to the caller's |
| `ClientServerSync.FetchKeepsSync` | frontend/src/components/TaskList.tsx:29-38 | in a well-formed store, a fetch without a search answered with one task per document the list handler returns, under that document's id, leaves the client holding exactly the caller's ids |
| `ClientServerSync.FetchWithSearchLosesIds` | frontend/src/services/api.ts:95-98 | a fetch with a non-empty search that some owned task's title does not match leaves the client out of step with the caller's ids |
| `ClientServerSync.ReplaceKeepsIds` | frontend/src/components/TaskList.tsx:64 | replacing entries by id with a task of that id keeps the set of ids in the collection |

## Left out

- Rendering, notifications, loading flags, the per-id `deletingId` / `togglingId` slots and the 300 ms debounce before a fetch: user interface and timing, not collection logic.
- The race inside `toggleComplete` between its read and its write: the toggle is one atomic step here.
- The client's `id` is taken to be the document's `_id`, the store key. The handlers answer with the stored document, and the document schema that would expose `_id` as `id` is not part of this model.
- The read half of the toggle goes to `GET /tasks/:id`. The shown task controller exports no single-task handler (only create, list-all, update and delete), so nothing in the shown code backs the assumption made here that this read returns the caller's own document.
- The HTTP transport, the bearer-token interceptor and local storage: network and browser I/O. The client's `get`, `update` and `delete` calls are plain requests; only the bodies they send and the outcomes they resolve to are modelled.
- Session state, profile editing, sign-up and the form validators: outside the task collection, and the validators are not part of this model.
- The document schema: defaults, title validation and timestamps. Defaults and title acceptance are parameters of `CreateTask`; `createdAt` and `updatedAt` are not kept on the server side.
- Fields of an update body other than title, description, completed, due date and owner, and an update body that sets the due date to `null`.
- What the server does when the store rejects a create or cannot parse an id: error handling outside the shown handlers.
- The client's handling of a `null` update answer: the client's calls are modelled as resolving to a task or rejecting.
- Date parsing: every date is an integer timestamp, so an unparsable date (which would compare as `NaN`) and an empty due-date string are not modelled.
- Unicode case mapping: lower-casing covers ASCII letters only.
