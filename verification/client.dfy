/**
  The browser client's decisions, with its three globals (the task cache, the
  edit flag and the id being edited) gathered into an explicit `UiState`
  together with the modal's form fields. Network calls appear as the
  `HttpRequest` values the client would issue, and their outcomes as inputs.
 */
module Client {
  import opened TaskModel

  const ApiUrl := "http://localhost:5000/api/tasks"
  const StatusQuery := "?status="
  const AllStatuses := "All"

  /** A task as the client reads it from a fetched JSON document. */
  datatype ClientTask = ClientTask(id: string, title: string, description: Option<string>, status: string)

  /** The three inputs of the task form. */
  datatype Form = Form(title: string, description: string, status: string)

  datatype UiState = UiState(
    tasks: seq<ClientTask>,
    isEditing: bool,
    currentTaskId: Option<string>,
    form: Form,
    modalOpen: bool,
    modalTitle: string)

  /**
    The state before any event: empty cache, not editing, no id. The form
    and the modal heading start from the page markup, which is not part of
    this model; they are taken as empty here.
   */
  const InitialState := UiState([], false, None, Form("", "", ""), false, "")

  datatype Method = GET | POST | PUT | DELETE

  datatype HttpRequest = HttpRequest(verb: Method, url: string, body: Option<Form>)

  // ------------------------------------------------------------ rendering

  /** The badge class of a status: one class per status name, none for anything else. */
  function StatusClass(status: string): (c: string)
    ensures c != "" <==> IsStatusName(status)
  {
    if status == "Pending" then "status-pending"
    else if status == "In Progress" then "status-progress"
    else if status == "Completed" then "status-completed"
    else ""
  }

  /** The three statuses receive three different classes. */
  lemma StatusClassesDistinct(a: string, b: string)
    requires IsStatusName(a) && IsStatusName(b) && a != b
    ensures StatusClass(a) != StatusClass(b)
  {
  }

  /** What one task card shows; the creation date and the markup escaping are not modelled. */
  datatype Card = Card(id: string, title: string, status: string, statusClass: string, description: string)

  datatype View = EmptyState | TaskCards(cards: seq<Card>) | LoadFailed

  /** The card of one task; a missing description shows as the empty text. */
  function CardOf(t: ClientTask): (c: Card)
    ensures c.id == t.id && c.title == t.title && c.status == t.status
    ensures c.description == (if t.description.Some? then t.description.value else "")
    ensures c.statusClass != "" <==> IsStatusName(t.status)
  {
    Card(t.id, t.title, t.status, StatusClass(t.status), t.description.GetOr(""))
  }

  /** One card per task, in the order of the tasks. */
  function CardsOf(ts: seq<ClientTask>): (cs: seq<Card>)
    ensures |cs| == |ts|
    ensures forall i :: 0 <= i < |ts| ==> cs[i] == CardOf(ts[i])
  {
    if ts == [] then [] else [CardOf(ts[0])] + CardsOf(ts[1..])
  }

  /** The list area: the empty-state placeholder for no tasks, otherwise one card per task in order. */
  function RenderTasks(ts: seq<ClientTask>): (v: View)
    ensures v.EmptyState? <==> ts == []
    ensures !v.EmptyState? ==> v.TaskCards? && |v.cards| == |ts|
    ensures v.TaskCards? ==> forall i :: 0 <= i < |ts| ==>
      && v.cards[i].id == ts[i].id
      && v.cards[i].title == ts[i].title
      && v.cards[i].status == ts[i].status
      && v.cards[i].description == (if ts[i].description.Some? then ts[i].description.value else "")
      && (v.cards[i].statusClass != "" <==> IsStatusName(ts[i].status))
  {
    if |ts| == 0 then EmptyState else TaskCards(CardsOf(ts))
  }

  // -------------------------------------------------------------- fetching

  /** The request that fetches the list for a filter value: no query for "All". */
  function ListUrl(status: string): (url: string)
    ensures url == ApiUrl <==> status == AllStatuses
    ensures status != AllStatuses ==> url == ApiUrl + StatusQuery + status
  {
    if status != AllStatuses then ApiUrl + StatusQuery + status else ApiUrl
  }

  function ListRequest(status: string): HttpRequest {
    HttpRequest(GET, ListUrl(status), None)
  }

  /** What a list fetch came back with: a non-ok response, a thrown error, or the parsed JSON's `data` field. */
  datatype FetchResult = NotOk | Threw(message: string) | Loaded(data: Option<seq<ClientTask>>)

  datatype ToastKind = SuccessToast | ErrorToast

  datatype Toast = Toast(message: string, kind: ToastKind)

  datatype Shown = Shown(state: UiState, view: View, toast: Option<Toast>)

  /**
    The end of a list fetch: on success the cache becomes the `data` field
    (the empty list when it is missing) and is rendered; on failure the
    cache is kept, the failure placeholder is shown and the error is
    reported.
   */
  function FetchDone(s: UiState, r: FetchResult): (out: Shown)
    ensures out.state.isEditing == s.isEditing && out.state.currentTaskId == s.currentTaskId
    ensures out.state.form == s.form && out.state.modalOpen == s.modalOpen
    ensures r.Loaded? ==> out.state.tasks == (if r.data.Some? then r.data.value else [])
    ensures r.Loaded? ==> out.view == RenderTasks(out.state.tasks) && out.toast.None?
    ensures !r.Loaded? ==> out.state == s && out.view == LoadFailed && out.toast.Some?
    ensures r.NotOk? ==> out.toast == Some(Toast("Failed to fetch tasks", ErrorToast))
    ensures r.Threw? ==> out.toast == Some(Toast(r.message, ErrorToast))
  {
    match r
    case NotOk => Shown(s, LoadFailed, Some(Toast("Failed to fetch tasks", ErrorToast)))
    case Threw(m) => Shown(s, LoadFailed, Some(Toast(m, ErrorToast)))
    case Loaded(data) =>
      var ts := data.GetOr([]);
      Shown(s.(tasks := ts), RenderTasks(ts), None)
  }

  // ----------------------------------------------------------------- modal

  /** Opens the modal in create mode with a cleared form whose status is Pending. */
  function OpenModal(s: UiState): (s': UiState)
    ensures !s'.isEditing && s'.currentTaskId.None?
    ensures s'.form.status == "Pending" && s'.form.title == "" && s'.form.description == ""
    ensures s'.modalOpen && s'.modalTitle == "Create New Task"
    ensures s'.tasks == s.tasks
  {
    UiState(s.tasks, false, None, Form("", "", "Pending"), true, "Create New Task")
  }

  /** The first cached task with the given id, if any. */
  function FindTask(ts: seq<ClientTask>, id: string): (r: Option<ClientTask>)
    ensures r.None? <==> forall i :: 0 <= i < |ts| ==> ts[i].id != id
    ensures r.Some? ==> r.value.id == id && r.value in ts
    ensures r.Some? ==> exists i :: 0 <= i < |ts| && ts[i] == r.value && forall j :: 0 <= j < i ==> ts[j].id != id
  {
    if ts == [] then None
    else if ts[0].id == id then Some(ts[0])
    else
      var r := FindTask(ts[1..], id);
      assert r.Some? ==> exists i :: 0 <= i < |ts| && ts[i] == r.value && forall j :: 0 <= j < i ==> ts[j].id != id by {
        if r.Some? {
          var i :| 0 <= i < |ts[1..]| && ts[1..][i] == r.value && forall j :: 0 <= j < i ==> ts[1..][j].id != id;
          assert ts[i + 1] == r.value;
        }
      }
      r
  }

  /**
    Opens the modal in edit mode for a cached task, filling the form from it
    (a missing description shows as the empty text); an id not in the cache
    changes nothing.
   */
  function OpenEditModal(s: UiState, id: string): (s': UiState)
    ensures FindTask(s.tasks, id).None? ==> s' == s
    ensures FindTask(s.tasks, id).Some? ==>
      var t := FindTask(s.tasks, id).value;
      && s'.isEditing && s'.currentTaskId == Some(id)
      && s'.form == Form(t.title, t.description.GetOr(""), t.status)
      && s'.modalOpen && s'.modalTitle == "Edit Task"
      && s'.tasks == s.tasks
  {
    match FindTask(s.tasks, id)
    case None => s
    case Some(t) => UiState(s.tasks, true, Some(id), Form(t.title, t.description.GetOr(""), t.status), true, "Edit Task")
  }

  /** Hides the modal; the cache, the edit mode, the edited id and the form stay as they are. */
  function CloseModal(s: UiState): (s': UiState)
    ensures !s'.modalOpen
    ensures s' == s.(modalOpen := false)
  {
    s.(modalOpen := false)
  }

  // -------------------------------------------------------------- mutating

  /** How an id is written into a URL; a missing one prints as "null". */
  function IdText(id: Option<string>): (text: string)
    ensures id.Some? ==> text == id.value
    ensures id.None? ==> text == "null"
  {
    match id
    case Some(v) => v
    case None => "null"
  }

  /** The request the form submits: PUT to the edited task's URL when editing, POST otherwise, with the form as body. */
  function Submit(s: UiState): (req: HttpRequest)
    ensures req.body == Some(s.form)
    ensures req.verb == PUT <==> s.isEditing
    ensures req.verb == POST <==> !s.isEditing
    ensures s.isEditing ==> req.url == ApiUrl + "/" + IdText(s.currentTaskId)
    ensures !s.isEditing ==> req.url == ApiUrl
  {
    if s.isEditing then HttpRequest(PUT, ApiUrl + "/" + IdText(s.currentTaskId), Some(s.form))
    else HttpRequest(POST, ApiUrl, Some(s.form))
  }

  /** What a save or delete request came back with. */
  datatype Outcome = Done | Refused | Broke(message: string)

  datatype Effects = Effects(state: UiState, toast: Toast, refetch: Option<HttpRequest>)

  /**
    The end of a save: on success a toast saying whether a task was updated
    or created, the modal closed and the list re-fetched for the current
    filter; otherwise an error toast and nothing else.
   */
  function SubmitDone(s: UiState, r: Outcome, filter: string): (e: Effects)
    ensures r.Done? ==> e.state == CloseModal(s) && e.refetch == Some(ListRequest(filter))
    ensures r.Done? ==> e.toast == Toast(if s.isEditing then "Task updated successfully" else "Task created successfully", SuccessToast)
    ensures !r.Done? ==> e.state == s && e.refetch.None? && e.toast.kind == ErrorToast
    ensures r.Refused? ==> e.toast.message == "Failed to save task"
  {
    match r
    case Done =>
      var msg := if s.isEditing then "Task updated successfully" else "Task created successfully";
      Effects(CloseModal(s), Toast(msg, SuccessToast), Some(ListRequest(filter)))
    case Refused => Effects(s, Toast("Failed to save task", ErrorToast), None)
    case Broke(m) => Effects(s, Toast(m, ErrorToast), None)
  }

  /** The delete gate: no request unless the user confirmed, otherwise DELETE on the task's URL. */
  function DeleteRequest(id: string, confirmed: bool): (req: Option<HttpRequest>)
    ensures req.None? <==> !confirmed
    ensures req.Some? ==> req.value.verb == DELETE && req.value.url == ApiUrl + "/" + id && req.value.body.None?
  {
    if confirmed then Some(HttpRequest(DELETE, ApiUrl + "/" + id, None)) else None
  }

  /** The end of a delete: a success toast and a re-fetch, or an error toast alone. */
  function DeleteDone(r: Outcome, filter: string): (e: (Toast, Option<HttpRequest>))
    ensures r.Done? <==> e.1.Some?
    ensures r.Done? ==> e == (Toast("Task deleted", SuccessToast), Some(ListRequest(filter)))
    ensures !r.Done? ==> e.0.kind == ErrorToast
    ensures r.Refused? ==> e.0.message == "Failed to delete task"
  {
    match r
    case Done => (Toast("Task deleted", SuccessToast), Some(ListRequest(filter)))
    case Refused => (Toast("Failed to delete task", ErrorToast), None)
    case Broke(m) => (Toast(m, ErrorToast), None)
  }

  // --------------------------------------------------------------- events

  datatype UiEvent =
    | AddClicked
    | EditClicked(id: string)
    | CloseClicked
    | Typed(form: Form)
    | Fetched(result: FetchResult)
    | Saved(outcome: Outcome, filter: string)

  /**
    The state after one event. Only a fetch changes the cache, only the two
    modal openers change the mode, and entering edit mode always records the
    edited id.
   */
  function Apply(s: UiState, ev: UiEvent): (s': UiState)
    ensures !ev.Fetched? ==> s'.tasks == s.tasks
    ensures s'.isEditing != s.isEditing ==> ev.AddClicked? || ev.EditClicked?
    ensures s'.currentTaskId != s.currentTaskId ==> ev.AddClicked? || ev.EditClicked?
    ensures s'.isEditing && !s.isEditing ==> s'.currentTaskId.Some?
    ensures ev.AddClicked? ==> !s'.isEditing && s'.modalOpen
    ensures ev.CloseClicked? ==> !s'.modalOpen
  {
    match ev
    case AddClicked => OpenModal(s)
    case EditClicked(id) => OpenEditModal(s, id)
    case CloseClicked => CloseModal(s)
    case Typed(f) => s.(form := f)
    case Fetched(r) => FetchDone(s, r).state
    case Saved(o, filter) => SubmitDone(s, o, filter).state
  }

  function ApplyAll(s: UiState, evs: seq<UiEvent>): UiState
    decreases |evs|
  {
    if evs == [] then s else ApplyAll(Apply(s, evs[0]), evs[1..])
  }

  /** Edit mode always has an id to edit. */
  ghost predicate Coherent(s: UiState) {
    s.isEditing ==> s.currentTaskId.Some?
  }

  lemma ApplyKeepsCoherent(s: UiState, ev: UiEvent)
    requires Coherent(s)
    ensures Coherent(Apply(s, ev))
  {
  }

  /** From any coherent state, whatever happens, a PUT goes to the edited task's URL and never to ".../null". */
  lemma {:induction false} EditingAlwaysHasId(s: UiState, evs: seq<UiEvent>)
    requires Coherent(s)
    ensures Coherent(ApplyAll(s, evs))
    ensures ApplyAll(s, evs).isEditing ==>
      Submit(ApplyAll(s, evs)).url == ApiUrl + "/" + ApplyAll(s, evs).currentTaskId.value
    decreases |evs|
  {
    if evs != [] {
      ApplyKeepsCoherent(s, evs[0]);
      EditingAlwaysHasId(Apply(s, evs[0]), evs[1..]);
    }
  }

  /** From the page's initial state, every PUT goes to the URL of the task being edited. */
  lemma InitialPutTargetsEditedTask(evs: seq<UiEvent>)
    ensures var s := ApplyAll(InitialState, evs);
      s.isEditing ==> s.currentTaskId.Some? && Submit(s).url == ApiUrl + "/" + s.currentTaskId.value
  {
    EditingAlwaysHasId(InitialState, evs);
  }

  /** Editing a cached task and submitting at once sends PUT to that task's URL with its current fields. */
  lemma EditThenSubmit(s: UiState, id: string)
    requires FindTask(s.tasks, id).Some?
    ensures
      var t := FindTask(s.tasks, id).value;
      Submit(OpenEditModal(s, id)) == HttpRequest(PUT, ApiUrl + "/" + id, Some(Form(t.title, t.description.GetOr(""), t.status)))
  {
  }

  /** After the create modal opens, whatever is typed is POSTed to the collection URL. */
  lemma AddThenSubmit(s: UiState, f: Form)
    ensures Submit(Apply(Apply(s, AddClicked), Typed(f))) == HttpRequest(POST, ApiUrl, Some(f))
  {
  }
}
