/**
  The task store and the five request handlers over it. Each handler is a
  pure transition from a store and a request to the next store and the
  response: a status code with a body, or an error handed on to the error
  middleware together with the status code the handler chose (if any).
 */
module TaskController {
  import opened TaskModel

  /**
    The document collection: tasks keyed by identifier, the identifier the
    next created task receives, and a logical clock standing in for the
    timestamps.
   */
  datatype Store = Store(tasks: map<nat, Task>, nextId: nat, clock: nat)

  const EmptyStore := Store(map[], 0, 0)

  /**
    What every store reachable from `EmptyStore` satisfies: identifiers lie
    below the counter, timestamps lie before the clock with the creation time
    first, and a larger identifier was created strictly later.
   */
  ghost predicate Valid(st: Store) {
    && (forall id :: id in st.tasks ==> id < st.nextId)
    && (forall id :: id in st.tasks ==> st.tasks[id].createdAt <= st.tasks[id].updatedAt < st.clock)
    && (forall i, j :: i in st.tasks && j in st.tasks && i < j ==> st.tasks[i].createdAt < st.tasks[j].createdAt)
  }

  const NotFoundMessage := "Task not found"
  const MissingTitleMessage := "Please add a text field"

  /** The successful response bodies: one task, a list of tasks, or the id of a deleted task. */
  datatype Body = TaskBody(record: Record) | TaskList(records: seq<Record>) | Deleted(id: nat)

  /** An error thrown by a handler with its message, or a document the schema refused. */
  datatype Error = Thrown(message: string) | SchemaRejected(errors: set<SchemaError>)

  /**
    `Sent(code, body)` is a response written by the handler; `Raised(code, e)`
    is an error passed on to the error middleware, with the status code the
    handler set before throwing, or `None` when it set none.
   */
  datatype Response = Sent(code: nat, body: Body) | Raised(setCode: Option<nat>, error: Error)

  datatype Step = Step(store: Store, response: Response)

  /** The fields of a create request body; `None` is an absent field. */
  datatype CreateBody = CreateBody(title: Option<string>, description: Option<string>, status: Option<string>)

  /** The fields of an update request body, restricted to well-typed values. */
  datatype UpdateBody = UpdateBody(title: Option<string>, description: Option<string>, status: Option<Status>)

  const NotFound := Raised(Some(404), Thrown(NotFoundMessage))

  // ---------------------------------------------------------------- listing

  /**
    The status condition the list handler puts into its query: none when the
    `status` parameter is absent, empty or "All", otherwise exactly that text.
   */
  function StatusFilter(query: Option<string>): (f: Option<string>)
    ensures f.None? <==> query.None? || query.value == "" || query.value == "All"
    ensures f.Some? ==> f == query
  {
    if query.Some? && query.value != "" && query.value != "All" then query else None
  }

  /** A task satisfies the query when there is no condition or its status text equals it. */
  predicate Matches(t: Task, filter: Option<string>) {
    filter.None? || StatusName(t.status) == filter.value
  }

  /** Every entry of `rs` is the stored task under its id, and satisfies `filter`. */
  ghost predicate Drawn(rs: seq<Record>, tasks: map<nat, Task>, filter: Option<string>) {
    forall k :: 0 <= k < |rs| ==> rs[k].id in tasks && rs[k].task == tasks[rs[k].id] && Matches(rs[k].task, filter)
  }

  ghost predicate IdsDescending(rs: seq<Record>) {
    forall k, l :: 0 <= k < l < |rs| ==> rs[k].id > rs[l].id
  }

  ghost predicate Lists(rs: seq<Record>, id: nat) {
    exists k :: 0 <= k < |rs| && rs[k].id == id
  }

  /** Putting the task with id `n - 1` in front of the scan below it gives a scan below `n`. */
  lemma ScanStep(tasks: map<nat, Task>, filter: Option<string>, n: nat, rest: seq<Record>)
    requires n > 0 && n - 1 in tasks && Matches(tasks[n - 1], filter)
    requires Drawn(rest, tasks, filter)
    requires forall k :: 0 <= k < |rest| ==> rest[k].id < n - 1
    requires IdsDescending(rest)
    requires forall id :: id < n - 1 && id in tasks && Matches(tasks[id], filter) ==> Lists(rest, id)
    ensures var rs := [Record(n - 1, tasks[n - 1])] + rest;
      && Drawn(rs, tasks, filter)
      && (forall k :: 0 <= k < |rs| ==> rs[k].id < n)
      && IdsDescending(rs)
      && (forall id :: id < n && id in tasks && Matches(tasks[id], filter) ==> Lists(rs, id))
  {
    var rs := [Record(n - 1, tasks[n - 1])] + rest;
    assert forall k :: 1 <= k < |rs| ==> rs[k] == rest[k - 1];
    forall id | id < n && id in tasks && Matches(tasks[id], filter) ensures Lists(rs, id) {
      if id == n - 1 {
        assert rs[0].id == id;
      } else {
        var k :| 0 <= k < |rest| && rest[k].id == id;
        assert rs[k + 1].id == id;
      }
    }
  }

  /** The matching tasks with identifiers below `n`, largest identifier first. */
  function Scan(tasks: map<nat, Task>, filter: Option<string>, n: nat): (rs: seq<Record>)
    ensures Drawn(rs, tasks, filter)
    ensures forall k :: 0 <= k < |rs| ==> rs[k].id < n
    ensures IdsDescending(rs)
    ensures forall id :: id < n && id in tasks && Matches(tasks[id], filter) ==> Lists(rs, id)
    decreases n
  {
    if n == 0 then []
    else
      var rest := Scan(tasks, filter, n - 1);
      if n - 1 in tasks && Matches(tasks[n - 1], filter) then
        ScanStep(tasks, filter, n, rest);
        [Record(n - 1, tasks[n - 1])] + rest
      else
        rest
  }

  /**
    The list query: the tasks matching the status condition, newest first.
    Every returned entry is a stored task satisfying the condition and none
    appears twice; in a reachable store every such task is returned and the
    creation times do not increase along the list.
   */
  function ListTasks(st: Store, query: Option<string>): (rs: seq<Record>)
    ensures Drawn(rs, st.tasks, StatusFilter(query))
    ensures forall k, l :: 0 <= k < l < |rs| ==> rs[k].id != rs[l].id
    ensures Valid(st) ==> forall id :: id in st.tasks && Matches(st.tasks[id], StatusFilter(query)) ==> Lists(rs, id)
    ensures Valid(st) ==> forall k, l :: 0 <= k < l < |rs| ==> rs[k].task.createdAt >= rs[l].task.createdAt
  {
    Scan(st.tasks, StatusFilter(query), st.nextId)
  }

  /** GET /tasks: lists the matching tasks with status 200 and leaves the store as it is. */
  function GetTasks(st: Store, query: Option<string>): (r: Step)
    ensures r.store == st
    ensures r.response == Sent(200, TaskList(ListTasks(st, query)))
  {
    Step(st, Sent(200, TaskList(ListTasks(st, query))))
  }

  // ----------------------------------------------------------- single tasks

  /** GET /tasks/:id: the stored task with status 200, or 404 "Task not found"; the store is unchanged. */
  function GetTask(st: Store, id: nat): (r: Step)
    ensures r.store == st
    ensures r.response.Raised? <==> id !in st.tasks
    ensures r.response.Raised? ==> r.response == Raised(Some(404), Thrown("Task not found"))
    ensures r.response.Sent? ==> r.response.code == 200 && r.response.body == TaskBody(Record(id, st.tasks[id]))
  {
    if id !in st.tasks then Step(st, NotFound)
    else Step(st, Sent(200, TaskBody(Record(id, st.tasks[id]))))
  }

  /** The title test of the create handler: absent and empty titles are falsy, nothing is trimmed. */
  predicate Falsy(title: Option<string>) {
    title.None? || title.value == ""
  }

  /**
    POST /tasks. A falsy title is answered with 400 "Please add a text field".
    Otherwise the schema builds the document at the current clock: if it is
    accepted, it is stored under a fresh id and returned with 201; if the
    schema refuses it, the error is handed on with no status code set. Only
    a 201 changes the store, and then by exactly the one new task.
   */
  function CreateTask(st: Store, body: CreateBody): (r: Step)
    ensures Falsy(body.title) ==> r == Step(st, Raised(Some(400), Thrown("Please add a text field")))
    ensures r.response.Sent? <==> !Falsy(body.title) && (body.status.None? || IsStatusName(body.status.value))
    ensures r.response.Raised? ==> r.store == st
    ensures r.response.Sent? ==>
      && r.response.code == 201
      && r.response.body.TaskBody?
      && r.response.body.record.id == st.nextId
      && r.store.tasks == st.tasks[st.nextId := r.response.body.record.task]
      && r.store.nextId == st.nextId + 1
      && r.store.clock == st.clock + 1
    ensures r.response.Sent? ==>
      var t := r.response.body.record.task;
      && t.title == body.title.value
      && t.description == body.description
      && (body.status.None? ==> t.status == Pending)
      && (body.status.Some? ==> StatusName(t.status) == body.status.value)
      && t.createdAt == t.updatedAt == st.clock
  {
    if Falsy(body.title) then
      Step(st, Raised(Some(400), Thrown(MissingTitleMessage)))
    else
      match BuildTask(body.title, body.description, body.status, st.clock)
      case Refused(errors) => Step(st, Raised(None, SchemaRejected(errors)))
      case Accepted(t) =>
        var id := st.nextId;
        Step(Store(st.tasks[id := t], id + 1, st.clock + 1), Sent(201, TaskBody(Record(id, t))))
  }

  /** The update document: provided fields overwrite, absent ones are kept, `updatedAt` becomes `now`. */
  function Merge(t: Task, body: UpdateBody, now: nat): (u: Task)
    ensures u.title == (if body.title.Some? then body.title.value else t.title)
    ensures u.description == (if body.description.Some? then body.description else t.description)
    ensures u.status == (if body.status.Some? then body.status.value else t.status)
    ensures u.createdAt == t.createdAt && u.updatedAt == now
  {
    Task(body.title.GetOr(t.title),
         if body.description.Some? then body.description else t.description,
         body.status.GetOr(t.status),
         t.createdAt,
         now)
  }

  /**
    PUT /tasks/:id: 404 with the store unchanged when the id is absent;
    otherwise the merged task replaces the stored one, no other task
    changes, and the merged record is returned with 200.
   */
  function UpdateTask(st: Store, id: nat, body: UpdateBody): (r: Step)
    ensures id !in st.tasks ==> r == Step(st, NotFound)
    ensures id in st.tasks ==>
      && r.response == Sent(200, TaskBody(Record(id, Merge(st.tasks[id], body, st.clock))))
      && r.store.tasks.Keys == st.tasks.Keys
      && r.store.tasks[id] == Merge(st.tasks[id], body, st.clock)
      && (forall other :: other in st.tasks && other != id ==> r.store.tasks[other] == st.tasks[other])
      && r.store.nextId == st.nextId
      && r.store.clock == st.clock + 1
  {
    if id !in st.tasks then Step(st, NotFound)
    else
      var u := Merge(st.tasks[id], body, st.clock);
      Step(Store(st.tasks[id := u], st.nextId, st.clock + 1), Sent(200, TaskBody(Record(id, u))))
  }

  /**
    DELETE /tasks/:id: 404 with the store unchanged when the id is absent;
    otherwise exactly that task is removed and `{id}` is returned with 200.
   */
  function DeleteTask(st: Store, id: nat): (r: Step)
    ensures id !in st.tasks ==> r == Step(st, NotFound)
    ensures id in st.tasks ==>
      && r.response == Sent(200, Deleted(id))
      && r.store.tasks.Keys == st.tasks.Keys - {id}
      && (forall other :: other in r.store.tasks ==> r.store.tasks[other] == st.tasks[other])
      && r.store.nextId == st.nextId
      && r.store.clock == st.clock
  {
    if id !in st.tasks then Step(st, NotFound)
    else Step(Store(st.tasks - {id}, st.nextId, st.clock), Sent(200, Deleted(id)))
  }

  // --------------------------------------------------------------- requests

  datatype Request =
    | ListRequest(status: Option<string>)
    | GetRequest(id: nat)
    | CreateRequest(create: CreateBody)
    | UpdateRequest(id: nat, update: UpdateBody)
    | DeleteRequest(id: nat)

  /** Routes a request to its handler. */
  function Handle(st: Store, req: Request): (r: Step)
    ensures req.ListRequest? || req.GetRequest? ==> r.store == st
    ensures r.response.Raised? ==> r.store == st
  {
    match req
    case ListRequest(q) => GetTasks(st, q)
    case GetRequest(id) => GetTask(st, id)
    case CreateRequest(b) => CreateTask(st, b)
    case UpdateRequest(id, b) => UpdateTask(st, id, b)
    case DeleteRequest(id) => DeleteTask(st, id)
  }

  /** The store after serving `reqs` one after another. */
  function Run(st: Store, reqs: seq<Request>): Store
    decreases |reqs|
  {
    if reqs == [] then st else Run(Handle(st, reqs[0]).store, reqs[1..])
  }

  // ----------------------------------------------------------------- lemmas

  /** Every handler keeps the store invariant. */
  lemma HandlePreservesValid(st: Store, req: Request)
    requires Valid(st)
    ensures Valid(Handle(st, req).store)
  {
    var st' := Handle(st, req).store;
    match req
    case ListRequest(_) =>
    case GetRequest(_) =>
    case CreateRequest(b) =>
      if Handle(st, req).response.Sent? {
        forall i, j | i in st'.tasks && j in st'.tasks && i < j
          ensures st'.tasks[i].createdAt < st'.tasks[j].createdAt
        {
          if j == st.nextId {
            assert i in st.tasks;
          }
        }
      }
    case UpdateRequest(id, b) =>
    case DeleteRequest(id) =>
  }

  /** Every store reached from a valid one by any sequence of requests is valid. */
  lemma {:induction false} RunPreservesValid(st: Store, reqs: seq<Request>)
    requires Valid(st)
    ensures Valid(Run(st, reqs))
    decreases |reqs|
  {
    if reqs != [] {
      HandlePreservesValid(st, reqs[0]);
      RunPreservesValid(Handle(st, reqs[0]).store, reqs[1..]);
    }
  }

  /** Hence every reachable store is valid. */
  lemma ReachableIsValid(reqs: seq<Request>)
    ensures Valid(Run(EmptyStore, reqs))
  {
    RunPreservesValid(EmptyStore, reqs);
  }

  /** Listing with no condition, an empty one or "All" returns every stored task. */
  lemma ListAllReturnsEverything(st: Store, query: Option<string>)
    requires Valid(st)
    requires query.None? || query.value == "" || query.value == "All"
    ensures forall id :: id in st.tasks <==> Lists(ListTasks(st, query), id)
  {
    var rs := ListTasks(st, query);
    forall id | Lists(rs, id) ensures id in st.tasks {
      var k :| 0 <= k < |rs| && rs[k].id == id;
    }
  }

  /** Listing with any other status text returns exactly the tasks whose status has that name. */
  lemma ListFilteredReturnsExactlyMatching(st: Store, s: string)
    requires Valid(st)
    requires s != "" && s != "All"
    ensures forall id :: Lists(ListTasks(st, Some(s)), id) <==> id in st.tasks && StatusName(st.tasks[id].status) == s
  {
    var rs := ListTasks(st, Some(s));
    forall id | Lists(rs, id) ensures id in st.tasks && StatusName(st.tasks[id].status) == s {
      var k :| 0 <= k < |rs| && rs[k].id == id;
    }
  }

  /** A text outside the three status names lists nothing. */
  lemma ListUnknownStatusIsEmpty(st: Store, s: string)
    requires s != "" && s != "All" && !IsStatusName(s)
    ensures ListTasks(st, Some(s)) == []
  {
    var rs := ListTasks(st, Some(s));
    if rs != [] {
      assert Matches(rs[0].task, Some(s));
      StatusNameRoundTrip(rs[0].task.status);
    }
  }

  /** A successful create, read back by the returned id, shows the submitted fields. */
  lemma CreateThenGet(st: Store, body: CreateBody)
    requires !Falsy(body.title)
    requires body.status.None? || IsStatusName(body.status.value)
    ensures
      var c := CreateTask(st, body);
      && c.response.Sent?
      && var got := GetTask(c.store, c.response.body.record.id).response;
      && got.Sent? && got.code == 200
      && got.body.record.task.title == body.title.value
      && got.body.record.task.description == body.description
      && (body.status.None? ==> got.body.record.task.status == Pending)
      && (body.status.Some? ==> StatusName(got.body.record.task.status) == body.status.value)
  {
  }

  /** In a reachable store a newly created task heads the unfiltered listing. */
  lemma CreatedTaskIsListedFirst(st: Store, body: CreateBody)
    requires Valid(st)
    requires CreateTask(st, body).response.Sent?
    ensures
      var c := CreateTask(st, body);
      var rs := ListTasks(c.store, None);
      |rs| > 0 && rs[0] == c.response.body.record
  {
    var c := CreateTask(st, body);
    HandlePreservesValid(st, CreateRequest(body));
    var rs := ListTasks(c.store, None);
    assert Lists(rs, st.nextId);
  }

  /** In a reachable store an update leaves `updatedAt` strictly after `createdAt`. */
  lemma UpdateRefreshesTimestamp(st: Store, id: nat, body: UpdateBody)
    requires Valid(st) && id in st.tasks
    ensures
      var t := UpdateTask(st, id, body).store.tasks[id];
      && t.createdAt == st.tasks[id].createdAt
      && t.updatedAt > t.createdAt
      && t.updatedAt > st.tasks[id].updatedAt
  {
  }

  /** A task read back after an update shows the provided fields and keeps the others. */
  lemma UpdateThenGet(st: Store, id: nat, body: UpdateBody)
    requires id in st.tasks
    ensures
      var got := GetTask(UpdateTask(st, id, body).store, id).response;
      var before := st.tasks[id];
      && got.Sent? && got.code == 200
      && got.body.record.id == id
      && got.body.record.task.title == body.title.GetOr(before.title)
      && got.body.record.task.description == (if body.description.Some? then body.description else before.description)
      && got.body.record.task.status == body.status.GetOr(before.status)
      && got.body.record.task.createdAt == before.createdAt
  {
  }

  /** After a successful delete the id reads as not found, and the id is never handed out again. */
  lemma DeleteThenGet(st: Store, id: nat, body: CreateBody)
    requires Valid(st) && id in st.tasks
    ensures GetTask(DeleteTask(st, id).store, id).response == Raised(Some(404), Thrown("Task not found"))
    ensures
      var c := CreateTask(DeleteTask(st, id).store, body);
      c.response.Sent? ==> c.response.body.record.id != id
  {
  }

  /** An id that is below the counter and not stored stays so, whatever requests follow. */
  lemma {:induction false} StaysAbsent(st: Store, id: nat, reqs: seq<Request>)
    requires id !in st.tasks && id < st.nextId
    ensures id !in Run(st, reqs).tasks && id < Run(st, reqs).nextId
    decreases |reqs|
  {
    if reqs != [] {
      StaysAbsent(Handle(st, reqs[0]).store, id, reqs[1..]);
    }
  }

  /**
    A deleted id is never served again: after any later requests it still
    reads as not found, and a create at that point hands out another id.
   */
  lemma DeletedStaysDeleted(st: Store, id: nat, reqs: seq<Request>, body: CreateBody)
    requires Valid(st) && id in st.tasks
    ensures GetTask(Run(DeleteTask(st, id).store, reqs), id).response == NotFound
    ensures
      var c := CreateTask(Run(DeleteTask(st, id).store, reqs), body);
      c.response.Sent? ==> c.response.body.record.id != id
  {
    StaysAbsent(DeleteTask(st, id).store, id, reqs);
  }
}
