/**
  The Task document: its three-valued status, the default status, the
  required title, the optional description and the two timestamps the
  schema maintains. Timestamps are values of a logical clock.
 */
module TaskModel {

  /** An optional value; `None` stands for a field that is absent (undefined). */
  datatype Option<+T> = None | Some(value: T) {
    function GetOr(default: T): T {
      match this
      case Some(v) => v
      case None => default
    }
  }

  datatype Status = Pending | InProgress | Completed

  /** The status a new task receives when none is submitted. */
  const DefaultStatus: Status := Pending

  /** The text under which each status is stored and transmitted. */
  function StatusName(s: Status): string {
    match s
    case Pending => "Pending"
    case InProgress => "In Progress"
    case Completed => "Completed"
  }

  /** The enumeration the schema admits for the status path. */
  predicate IsStatusName(s: string) {
    s == "Pending" || s == "In Progress" || s == "Completed"
  }

  /** Reads a transmitted status back; only the three enumerated names are admitted. */
  function ParseStatus(s: string): (r: Option<Status>)
    ensures r.Some? <==> IsStatusName(s)
    ensures r.Some? ==> StatusName(r.value) == s
  {
    if s == "Pending" then Some(Pending)
    else if s == "In Progress" then Some(InProgress)
    else if s == "Completed" then Some(Completed)
    else None
  }

  /** Every status has a distinct name, and that name parses back to it. */
  lemma StatusNameRoundTrip(s: Status)
    ensures IsStatusName(StatusName(s))
    ensures ParseStatus(StatusName(s)) == Some(s)
    ensures forall s' :: StatusName(s') == StatusName(s) ==> s' == s
  {
  }

  datatype Task = Task(
    title: string,
    description: Option<string>,
    status: Status,
    createdAt: nat,
    updatedAt: nat)

  /** A stored task together with the identifier the store assigned to it. */
  datatype Record = Record(id: nat, task: Task)

  /** The reasons the schema refuses to build a document. */
  datatype SchemaError = TitleRequired | StatusNotInEnum(value: string)

  datatype Built = Accepted(task: Task) | Refused(errors: set<SchemaError>)

  /**
    Builds the document `create` stores from the submitted fields at logical
    time `now`: the title is required (an empty string does not satisfy it),
    the description is kept as submitted, an absent status takes the default
    and a present one must be one of the three names. Every failing rule is
    reported.
   */
  function BuildTask(title: Option<string>, description: Option<string>, status: Option<string>, now: nat): (r: Built)
    ensures r.Accepted? <==>
      title.Some? && title.value != "" && (status.None? || IsStatusName(status.value))
    ensures r.Accepted? ==>
      && r.task.title == title.value
      && r.task.description == description
      && r.task.createdAt == now
      && r.task.updatedAt == now
      && (status.None? ==> r.task.status == DefaultStatus)
      && (status.Some? ==> StatusName(r.task.status) == status.value)
    ensures r.Refused? ==>
      && (TitleRequired in r.errors <==> title.None? || title.value == "")
      && (forall v :: StatusNotInEnum(v) in r.errors <==> status == Some(v) && !IsStatusName(v))
  {
    var titleErrors := if title.None? || title.value == "" then {TitleRequired} else {};
    var parsed := if status.None? then Some(DefaultStatus) else ParseStatus(status.value);
    var statusErrors := if parsed.None? then {StatusNotInEnum(status.value)} else {};
    if titleErrors + statusErrors == {} then
      Accepted(Task(title.value, description, parsed.value, now, now))
    else
      Refused(titleErrors + statusErrors)
  }
}
