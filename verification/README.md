# Task manager: store, handlers, validator and client decisions in Dafny

This project models the core of a small task-tracking application: a REST
API over a document collection of tasks, a request-body validator, and the
decision logic of the browser client that lists, filters, creates, edits
and deletes tasks.

- `task_model.dfy` (module `TaskModel`): the Task document. It has a title,
  an optional description, a status drawn from Pending / In Progress /
  Completed (default Pending) and creation/update timestamps. `BuildTask` is
  the schema's construction of a new document: the title is required and the
  status must come from the enumeration.
- `task_controller.dfy` (module `TaskController`): the store is a
  `map<nat, Task>` with a fresh-id counter and a logical clock in place of
  wall time. The five handlers (`GetTasks`, `GetTask`, `CreateTask`,
  `UpdateTask`, `DeleteTask`) are pure transitions `(store, request) ->
  (store', response)`. A response is either `Sent(code, body)` or
  `Raised(code?, error)`: an error handed to the error middleware, with the
  status code the handler set before throwing.
- `validation.dfy` (module `Validation`): the `validateTask` rule chain as a
  function from an optional title, description and status to the list of
  failure messages. It includes whitespace trimming and its characterisation.
- `client.dfy` (module `Client`): the client's globals are gathered into an
  explicit `UiState`. The module covers the status badge class, list URL
  construction, the create/edit modal transitions, the PUT/POST choice on
  submit, the delete confirmation gate, and rendering as an abstract list of
  cards.
- `end_to_end.dfy` (module `EndToEnd`): lemmas that connect the parts. The
  validator is checked against the create handler's own title test. The
  client's list URLs and form bodies are checked against the list and create
  handlers, on the assumption that each request reaches the handler: as
  written, the client's path and the server's mount point differ (see "Left
  out").

The store invariant `TaskController.Valid` holds for every store reachable
from the empty one (`ReachableIsValid`). It says: ids lie below the counter;
`createdAt <= updatedAt < clock`; a larger id was created strictly later.
The listing's completeness and its newest-first order are proved for such
stores.

## Model

| member | source | states |
|---|---|---|
| TaskModel.ParseStatus | backend/models/Task.js:13-17 | exactly the three enumerated names are admitted as statuses, and each parses to the status carrying that name |
| TaskModel.BuildTask | backend/models/Task.js:3-22 | a document is built iff the title is present and nonempty and the status is absent or enumerated; it then holds the submitted title and description, Pending when no status was given, and equal creation and update times; otherwise every violated rule is reported |
| TaskController.Scan | backend/controllers/taskController.js:13 | yields each stored matching task below the bound exactly once, as stored, in strictly decreasing id order |
| TaskController.StatusFilter | backend/controllers/taskController.js:8-12 | the list query has no status condition iff the `status` parameter is absent, empty or "All"; otherwise the condition is exactly that text |
| TaskController.ListTasks | backend/controllers/taskController.js:8-14 | the listing contains only stored tasks that satisfy the status condition, never one twice; in a reachable store it contains all of them, ordered by createdAt non-increasing |
| TaskController.GetTasks | backend/controllers/taskController.js:6-18 | listing answers 200 with the filtered newest-first list and leaves the store unchanged |
| TaskController.GetTask | backend/controllers/taskController.js:23-36 | get leaves the store unchanged and answers 404 "Task not found" iff the id is absent, otherwise 200 with that stored task |
| TaskController.CreateTask | backend/controllers/taskController.js:41-58 | a falsy (absent or empty, untrimmed) title gives 400 "Please add a text field" with the store unchanged; a 201 happens iff the title is truthy and the status acceptable, and adds exactly one task under the fresh id with the submitted fields, Pending by default, stamped with the current clock |
| TaskController.Merge | backend/controllers/taskController.js:72-74 | provided fields overwrite, absent fields are kept, createdAt is kept and updatedAt becomes the update time |
| TaskController.UpdateTask | backend/controllers/taskController.js:63-80 | an absent id gives 404 with the store unchanged; otherwise only that task changes, to the merged record, which is returned with 200 |
| TaskController.DeleteTask | backend/controllers/taskController.js:85-100 | an absent id gives 404 with the store unchanged; otherwise exactly that id is removed, every other task is untouched and the body is `{id}` with 200 |
| TaskController.Handle | backend/controllers/taskController.js:6-100 | list and get never change the store, and no error response changes it |
| TaskController.HandlePreservesValid | backend/models/Task.js:19-21 | every handler keeps ids below the counter, timestamps ordered and creation order consistent with ids |
| TaskController.RunPreservesValid | backend/models/Task.js:19-21 | any sequence of requests from a valid store ends in a valid store |
| TaskController.ReachableIsValid | backend/models/Task.js:19-21 | every store reachable from the empty store is valid |
| TaskController.ListAllReturnsEverything | backend/controllers/taskController.js:10-13 | an absent, empty or "All" status returns exactly every stored task |
| TaskController.ListFilteredReturnsExactlyMatching | backend/controllers/taskController.js:10-13 | any other status returns exactly the tasks whose status has that name |
| TaskController.ListUnknownStatusIsEmpty | backend/controllers/taskController.js:10-13 | a status outside the enumeration lists nothing |
| TaskController.CreateThenGet | backend/controllers/taskController.js:48-54 | a created task read back by its returned id shows the submitted title and description, and the submitted status, or Pending when none was given |
| TaskController.CreatedTaskIsListedFirst | backend/controllers/taskController.js:13 | in a reachable store the newly created task heads the unfiltered listing |
| TaskController.UpdateRefreshesTimestamp | backend/models/Task.js:19-21 | an update keeps createdAt and leaves updatedAt strictly later than both createdAt and the old updatedAt |
| TaskController.UpdateThenGet | backend/controllers/taskController.js:63-76 | a task read back after an update shows each provided field, keeps each absent one, its id and its createdAt |
| TaskController.DeleteThenGet | backend/controllers/taskController.js:87-96 | right after a delete the id reads as 404, and the next create does not reuse it |
| TaskController.StaysAbsent | backend/controllers/taskController.js:6-100 | an id below the counter that is not stored is never stored again, whatever requests follow |
| TaskController.DeletedStaysDeleted | backend/controllers/taskController.js:87-96 | after a delete and any later requests, the id still reads as 404 and a create at that point hands out another id |
| TaskModel.StatusNameRoundTrip | backend/models/Task.js:15 | status names are distinct, enumerated, and parse back to their status |
| Validation.TrimStart | backend/src/middleware/validation.js:5 | left trimming never lengthens the text; what it removes is characterised by TrimStartSplits |
| Validation.TrimEnd | backend/src/middleware/validation.js:5 | right trimming never lengthens the text; what it removes is characterised by TrimEndSplits |
| Validation.Trim | backend/src/middleware/validation.js:5 | trimming never lengthens the text; the split it makes is characterised by TrimCharacterised |
| Validation.TrimEmptyIffBlank | backend/src/middleware/validation.js:5-7 | trimming leaves the empty text exactly when the text is white space throughout, which is when the title rule reports it missing |
| Validation.TrimStartSplits | backend/src/middleware/validation.js:5 | what trimming removes in front is all whitespace, and what remains does not start with whitespace |
| Validation.TrimEndSplits | backend/src/middleware/validation.js:5 | what trimming removes behind is all whitespace, and what remains does not end with whitespace |
| Validation.TrimCharacterised | backend/src/middleware/validation.js:5 | the trimmed text is a slice of the input with only whitespace around it, and it neither starts nor ends with whitespace |
| Validation.TrimsToUnique | backend/src/middleware/validation.js:5 | that characterisation determines the trimmed text uniquely |
| Validation.TrimIgnoresPadding | backend/src/middleware/validation.js:5-8 | whitespace added at either end never changes the trimmed text |
| Validation.TitleErrors | backend/src/middleware/validation.js:4-9 | after trimming, an empty title (an absent one included) yields "Title is required", one longer than 100 yields "Title cannot exceed 100 characters", length 1 to 100 yields nothing |
| Validation.DescriptionErrors | backend/src/middleware/validation.js:11-15 | an absent description passes; a present one fails with "Description cannot exceed 500 characters" iff its trimmed length exceeds 500 |
| Validation.StatusErrors | backend/src/middleware/validation.js:17-20 | an absent status passes; a present one fails with "Status must be Pending, In Progress, or Completed" iff it is not one of the three names |
| Validation.ValidateTask | backend/src/middleware/validation.js:3-21 | the error list is empty iff the body meets all three rules, and each rule's message is present iff that rule fails |
| Validation.ValidateTaskInFieldOrder | backend/src/middleware/validation.js:3-21 | messages appear in the chain's field order, at most one per field |
| Validation.TitlePaddingDoesNotMatter | backend/src/middleware/validation.js:4-9 | surrounding whitespace on the title never changes the outcome |
| Validation.DescriptionPaddingDoesNotMatter | backend/src/middleware/validation.js:11-15 | surrounding whitespace on the description never changes the outcome |
| Client.StatusClass | frontend/js/app.js:205-212 | a class is produced iff the status is one of the three names, and "" otherwise |
| Client.StatusClassesDistinct | frontend/js/app.js:205-212 | the three statuses get three different classes |
| Client.CardsOf | frontend/js/app.js:77-103 | one card per task, card i showing task i |
| Client.CardOf | frontend/js/app.js:81-89 | a card shows the task's id, title and status, its description or "" when missing, and a badge class iff the status is one of the three names |
| Client.RenderTasks | frontend/js/app.js:64-104 | an empty list renders the empty-state placeholder; otherwise one card per task in input order, with "" for a missing description |
| Client.ListUrl | frontend/js/app.js:46-49 | the URL has no query iff the filter is "All", otherwise it is the API URL with `?status=` and the filter |
| Client.FetchDone | frontend/js/app.js:51-60 | on success the cache becomes `data`, or the empty list when it is missing, and is rendered; on failure the state is kept and the failure view and an error toast are shown |
| Client.OpenModal | frontend/js/app.js:161-168 | create mode: not editing, no current id, empty title and description, status Pending, modal shown, cache kept |
| Client.FindTask | frontend/js/app.js:171 | returns the first cached task with the id, and nothing iff no cached task has it |
| Client.OpenEditModal | frontend/js/app.js:170-183 | an id not in the cache changes nothing; otherwise edit mode on that id with the form filled from the task, "" for a missing description |
| Client.CloseModal | frontend/js/app.js:185-187 | closing hides the modal and keeps the cache, the edit mode, the edited id and the form |
| Client.IdText | frontend/js/app.js:119 | a present id is written into the URL as itself, a missing one as the text "null" |
| Client.Submit | frontend/js/app.js:110-130 | PUT to API_URL/currentTaskId when editing, POST to API_URL otherwise, both with the form's title, description and status as body |
| Client.SubmitDone | frontend/js/app.js:132-139 | success closes the modal, toasts "updated" or "created" by mode and re-fetches the current filter; failure only toasts an error |
| Client.DeleteRequest | frontend/js/app.js:143-149 | no request unless confirmed; otherwise DELETE on API_URL/id with no body |
| Client.DeleteDone | frontend/js/app.js:151-157 | a re-fetch happens iff the delete succeeded; success toasts "Task deleted", failure an error |
| Client.Apply | frontend/js/app.js:21-39 | only a fetch changes the cache; only the add and edit buttons change the mode or the edited id; entering edit mode records an id; add opens create mode; close hides the modal |
| Client.ApplyKeepsCoherent | frontend/js/app.js:161-183 | no event can enter edit mode without an id |
| Client.EditingAlwaysHasId | frontend/js/app.js:118-119 | after any sequence of events from a state whose edit mode has an id, an edit submission targets API_URL/<the edited id>, never the text "null" |
| Client.InitialPutTargetsEditedTask | frontend/js/app.js:11-13 | from the page's initial globals, after any sequence of events, edit mode has an id and a PUT goes to its URL |
| Client.EditThenSubmit | frontend/js/app.js:170-183 | opening a cached task for edit and submitting sends PUT to its URL with its fields |
| Client.AddThenSubmit | frontend/js/app.js:161-168 | after the create modal opens, the typed form is POSTed to the collection URL |
| EndToEnd.ValidatedBodyIsCreated | backend/controllers/taskController.js:43-54 | every body the rule chain accepts passes the create handler with 201 |
| EndToEnd.QueryStatus | backend/controllers/taskController.js:8 | the `status` query value read off a URL of the client's form is exactly the text after `?status=` |
| EndToEnd.ListUrlRoundTrip | frontend/js/app.js:46-49 | the query read back from a client list URL is the filter it was built from, and absent for "All" |
| EndToEnd.BlankTitleDivergence | backend/controllers/taskController.js:43-46 | in every store, every nonempty whitespace-only title is created by the handler, whose test does not trim, while the rule chain reports "Title is required" |
| EndToEnd.ClientFilterAgreesWithServer | frontend/js/app.js:46-49 | the server lists, for the client's URL, exactly what it lists for the filter value itself ("All" meaning everything) |
| EndToEnd.ClientFormCreate | frontend/js/app.js:114-130 | a client form with an enumerated status is created iff its title is nonempty, carrying the form's fields |
| EndToEnd.CreateModalStatusAccepted | frontend/js/app.js:161-166 | in every store, the create modal's default status is accepted by the create handler and stored as Pending |

## Left out

- Express bootstrap, CORS, logging, static serving, the route table and the port are framework wiring. The route table imports handlers under other names, from a controller file that is not part of this model.
- The validator is modelled as a standalone function, because no route attaches it. Its write-back of trimmed values into the request body is not modelled.
- Mongoose internals are abstracted to a map with a fresh-id counter: ObjectId format, CastError on malformed ids, persistence and `$set` mechanics.
- The text of Mongoose's enum-violation message is not modelled, nor what the error middleware makes of an error. That middleware is not part of this model; only the status code the handler set is kept.
- The update path runs no schema validation, so update bodies are restricted to well-typed values. Unknown body fields and non-string values are not modelled.
- Query parameters that repeat (arrays) and non-string body values are not modelled.
- The gap between the existence check and the write in update and delete is not modelled, because the store is sequential.
- Wall-clock time is replaced by a logical clock that advances on every successful create and every update of a present id.
- Browser behaviour is not modelled: DOM updates, HTML escaping, date formatting, the loading spinner, toast timers and the global exposure of handlers. `confirm` is a boolean input; `fetch` outcomes are inputs.
- The initial form values and modal heading come from the page markup, which is not part of this model. `taskForm.reset()` is taken to clear the title and description.
- Percent-encoding of the query string by the browser and its decoding by the server are not modelled; URLs are plain strings.
- EndToEnd.QueryStatus: reads the `status` parameter as the plain text after `?status=`. The server's query parser instead stops at `&`, decodes `+` to a space and percent escapes, and the browser drops a `#` fragment; for a filter such as `Pending&x` the server reads `Pending`. The URL lemmas (ListUrlRoundTrip, ClientFilterAgreesWithServer) are therefore faithful for the page's filter values, All, Pending, In Progress and Completed, which contain none of `&`, `#`, `+` or `%`, and not for arbitrary text.
- The client sends its requests under `/api/tasks`, while the server mounts the modelled handlers under `/tasks`, and its catch-all GET route would answer the client's list request with the page itself. The EndToEnd lemmas assume each request reaches the handler it is meant for; the routing that decides this is not modelled.
- The client reads `result.data` while the list handler sends a bare array. Each side is modelled as written and not reconciled.
- Lengths are `seq<char>` lengths, not UTF-16 code units with the validator's surrogate-pair and presentation-selector adjustments. Trimming removes the script language's white space and line terminators.
- TaskController.ListTasks: completeness and newest-first order are stated only for stores satisfying `Valid`. That covers every reachable store, because the model produces the order by scanning ids downward rather than by sorting on createdAt.
- Validation.TrimStart: its own contract says only that the result is no longer than the input. What it removes and what it leaves are stated by lemma TrimStartSplits, so that proofs using TrimStart do not carry those facts unless they ask for them.
- Validation.TrimEnd: its own contract says only that the result is no longer than the input. The full statement is lemma TrimEndSplits, for the same reason.
- Validation.Trim: its own contract says only that the result is no longer than the input. The full statement is lemma TrimCharacterised, with TrimsToUnique and TrimEmptyIffBlank.
