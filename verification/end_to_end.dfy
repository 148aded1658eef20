/**
  How the three parts meet: the standalone rule chain against the create
  handler's own title test, and the client's list URLs and form bodies
  against the list and create handlers.
 */
module EndToEnd {
  import opened TaskModel
  import TaskController
  import Validation
  import Client

  /** A nonempty trimmed text comes from a nonempty text. */
  lemma TrimmedNonEmpty(s: string)
    requires |Validation.Trim(s)| > 0
    ensures s != ""
  {
  }

  /** Every body the rule chain accepts is also created by the create handler, with status 201. */
  lemma ValidatedBodyIsCreated(st: TaskController.Store, b: Validation.Input)
    requires Validation.ValidateTask(b) == []
    ensures
      var r := TaskController.CreateTask(st, TaskController.CreateBody(b.title, b.description, b.status)).response;
      r.Sent? && r.code == 201
  {
    TrimmedNonEmpty(b.title.value);
  }

  /**
    The converse fails: the create handler does not trim, so a title made of
    white space alone is created although the rule chain reports it missing.
   */
  lemma BlankTitleDivergence(st: TaskController.Store, t: string)
    requires t != "" && Validation.AllSpace(t)
    ensures Validation.FieldError(Validation.TitleField, Validation.TitleRequiredMessage)
      in Validation.ValidateTask(Validation.Input(Some(t), None, None))
    ensures TaskController.CreateTask(st, TaskController.CreateBody(Some(t), None, None)).response.Sent?
  {
    Validation.TrimEmptyIffBlank(t);
  }

  /**
    How the list handler reads the `status` query parameter from a list URL
    of the client's form: the text after `?status=`, or none.
   */
  function QueryStatus(url: string): (q: Option<string>)
    ensures q.Some? ==> url == Client.ApiUrl + Client.StatusQuery + q.value
  {
    var prefix := Client.ApiUrl + Client.StatusQuery;
    if |url| >= |prefix| && url[..|prefix|] == prefix then
      assert url == prefix + url[|prefix|..];
      Some(url[|prefix|..])
    else None
  }

  /** The query a client list URL carries is exactly the filter value it was built from, absent for "All". */
  lemma ListUrlRoundTrip(status: string)
    ensures QueryStatus(Client.ListUrl(status)) == (if status == Client.AllStatuses then None else Some(status))
  {
    var prefix := Client.ApiUrl + Client.StatusQuery;
    if status != Client.AllStatuses {
      assert Client.ListUrl(status) == prefix + status;
      assert Client.ListUrl(status)[..|prefix|] == prefix;
      assert Client.ListUrl(status)[|prefix|..] == status;
    }
  }

  /**
    Assuming the client's list request reaches the list handler, the listing
    it gets is the one for the client's filter value, "All" included.
   */
  lemma ClientFilterAgreesWithServer(st: TaskController.Store, filter: string)
    ensures TaskController.ListTasks(st, QueryStatus(Client.ListUrl(filter))) == TaskController.ListTasks(st, Some(filter))
  {
    ListUrlRoundTrip(filter);
  }

  /**
    The create body the create handler reads from a form the client POSTs,
    assuming the request reaches it: all three fields are present.
   */
  function AsCreateBody(f: Client.Form): TaskController.CreateBody {
    TaskController.CreateBody(Some(f.title), Some(f.description), Some(f.status))
  }

  /**
    A form whose status is one of the three names is created exactly when
    its title is nonempty, and the stored task carries the form's fields.
   */
  lemma ClientFormCreate(st: TaskController.Store, f: Client.Form)
    requires IsStatusName(f.status)
    ensures
      var r := TaskController.CreateTask(st, AsCreateBody(f)).response;
      && (r.Sent? <==> f.title != "")
      && (r.Sent? ==>
            && r.body.record.task.title == f.title
            && r.body.record.task.description == Some(f.description)
            && StatusName(r.body.record.task.status) == f.status)
  {
  }

  /** The form the create modal opens with carries a status the server accepts. */
  lemma CreateModalStatusAccepted(st: TaskController.Store, s: Client.UiState, title: string, description: string)
    requires title != ""
    ensures
      var f := Client.OpenModal(s).form.(title := title, description := description);
      var r := TaskController.CreateTask(st, AsCreateBody(f)).response;
      r.Sent? && r.body.record.task.status == Pending
  {
  }
}
