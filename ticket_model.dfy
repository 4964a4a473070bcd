/**
 * server/src/models/ticket.ts: the Mongoose TicketSchema. Building a document trims the title
 * and fills the defaults; saving it runs every field's validators and fails with the set of
 * fields whose validators failed.
 */
module TicketModel {
  import opened Wrappers
  import opened Ids
  import Text
  import EmailPattern
  import Primitives

  const TITLE_MAX := 100
  const STATUSES: seq<string> := ["Open", "In Progress", "In Review", "Closed"]
  const PRIORITIES: seq<string> := ["Low", "Medium", "High"]
  const SIZES: seq<int> := [1, 2, 3, 5, 8, 13, 21]
  const DEFAULT_STATUS := "Open"
  const DEFAULT_PRIORITY := "Low"
  const DEFAULT_SIZING := 1

  datatype Ticket = Ticket(
    id: Id,
    title: string,
    description: string,
    status: string,
    priority: string,
    sizing: int,
    userEmail: string,
    createdAt: int)

  /** The values a new ticket document is built from; `None` is a field left undefined. */
  datatype TicketFields = TicketFields(
    title: Option<string>,
    description: Option<string>,
    status: Option<string>,
    priority: Option<string>,
    sizing: Option<int>,
    userEmail: Option<string>)

  datatype Path = Title | Description | Status | Priority | Sizing | UserEmail

  function OrDefault<T>(o: Option<T>, default: T): T {
    if o.Some? then o.value else default
  }

  /** Required, trimmed, then at most 100 UTF-16 code units (a required string must not be empty). */
  predicate TitleValid(title: Option<string>) {
    title.Some? && 1 <= Text.JsLength(Text.Trim(title.value)) <= TITLE_MAX
  }

  predicate DescriptionValid(description: Option<string>) {
    description.Some? && description.value != ""
  }

  predicate StatusValid(status: Option<string>) {
    OrDefault(status, DEFAULT_STATUS) in STATUSES
  }

  predicate PriorityValid(priority: Option<string>) {
    OrDefault(priority, DEFAULT_PRIORITY) in PRIORITIES
  }

  predicate SizingValid(sizing: Option<int>) {
    OrDefault(sizing, DEFAULT_SIZING) in SIZES
  }

  predicate UserEmailValid(email: Option<string>) {
    email.Some? && email.value != "" && EmailPattern.Matches(email.value)
  }

  /** The validators of the field at `p` pass. */
  predicate PathValid(f: TicketFields, p: Path) {
    match p
    case Title => TitleValid(f.title)
    case Description => DescriptionValid(f.description)
    case Status => StatusValid(f.status)
    case Priority => PriorityValid(f.priority)
    case Sizing => SizingValid(f.sizing)
    case UserEmail => UserEmailValid(f.userEmail)
  }

  /** Every field passes its validators. */
  predicate FieldsValid(f: TicketFields) {
    && TitleValid(f.title) && DescriptionValid(f.description) && StatusValid(f.status)
    && PriorityValid(f.priority) && SizingValid(f.sizing) && UserEmailValid(f.userEmail)
  }

  const PATHS: set<Path> := {Title, Description, Status, Priority, Sizing, UserEmail}

  /** The fields whose validators fail. */
  function Failures(f: TicketFields): (failed: set<Path>)
    ensures forall p :: p in failed <==> !PathValid(f, p)
  {
    set p | p in PATHS && !PathValid(f, p)
  }

  /** `new Ticket(fields).save()`: the stored ticket, or the set of fields that failed validation. */
  function Validate(f: TicketFields, id: Id, now: int): (r: Result<Ticket, set<Path>>)
    ensures r.Ok? <==> FieldsValid(f)
    ensures r.Err? ==> r.error == Failures(f) && r.error != {}
    ensures r.Ok? ==> r.value.id == id && r.value.createdAt == now
    ensures r.Ok? ==> r.value.title == Text.Trim(f.title.value)
    ensures r.Ok? ==> r.value.description == f.description.value && r.value.userEmail == f.userEmail.value
    ensures r.Ok? ==> r.value.status == OrDefault(f.status, DEFAULT_STATUS)
    ensures r.Ok? ==> r.value.priority == OrDefault(f.priority, DEFAULT_PRIORITY)
    ensures r.Ok? ==> r.value.sizing == OrDefault(f.sizing, DEFAULT_SIZING)
  {
    if FieldsValid(f) then
      Ok(Ticket(id, Text.Trim(f.title.value), f.description.value,
                OrDefault(f.status, DEFAULT_STATUS), OrDefault(f.priority, DEFAULT_PRIORITY),
                OrDefault(f.sizing, DEFAULT_SIZING), f.userEmail.value, now))
    else
      var failed := Failures(f);
      assert failed != {} by {
        if !TitleValid(f.title) { assert !PathValid(f, Title); }
        else if !DescriptionValid(f.description) { assert !PathValid(f, Description); }
        else if !StatusValid(f.status) { assert !PathValid(f, Status); }
        else if !PriorityValid(f.priority) { assert !PathValid(f, Priority); }
        else if !SizingValid(f.sizing) { assert !PathValid(f, Sizing); }
        else { assert !PathValid(f, UserEmail); }
      }
      Err(failed)
  }

  /** What every stored ticket satisfies. */
  predicate WellFormed(t: Ticket) {
    && 1 <= Text.JsLength(t.title) <= TITLE_MAX && Text.IsTrimmed(t.title)
    && t.description != ""
    && t.status in STATUSES && t.priority in PRIORITIES && t.sizing in SIZES
    && EmailPattern.Matches(t.userEmail)
  }

  /** A saved ticket is well formed: in particular its title is already trimmed and within bounds. */
  lemma {:induction false} ValidatedIsWellFormed(f: TicketFields, id: Id, now: int)
    requires Validate(f, id, now).Ok?
    ensures WellFormed(Validate(f, id, now).value)
  {
  }

  /** Omitted status, priority and sizing become "Open", "Low" and 1. */
  lemma DefaultsWhenOmitted(title: string, description: string, email: string, id: Id, now: int)
    requires Validate(TicketFields(Some(title), Some(description), None, None, None, Some(email)), id, now).Ok?
    ensures var t := Validate(TicketFields(Some(title), Some(description), None, None, None, Some(email)), id, now).value;
      t.status == "Open" && t.priority == "Low" && t.sizing == 1
  {
  }

  /** A title of blanks is rejected even though it is not the empty string. */
  lemma {:induction false} BlankTitleRejected(title: string, f: TicketFields, id: Id, now: int)
    requires Text.IsBlank(title) && f.title == Some(title)
    ensures Validate(f, id, now).Err? && Title in Validate(f, id, now).error
  {
    Text.TrimEmptyIffBlank(title);
  }

  /** The status lists disagree: "In-Progress" passes the request validator and fails the schema, and vice versa. */
  lemma StatusDrift()
    ensures Primitives.ParseTicketStatus("In-Progress").Ok? && !StatusValid(Some("In-Progress"))
    ensures Primitives.ParseTicketStatus("In Progress").Err? && StatusValid(Some("In Progress"))
  {
  }

  /** The schema's sizes strictly contain the shared sizing constant. */
  lemma SizingSuperset()
    ensures forall x :: x in Primitives.SIZING ==> x in SIZES
    ensures 13 in SIZES && 13 !in Primitives.SIZING && 21 in SIZES && 21 !in Primitives.SIZING
  {
  }

  /** The schema's priorities are exactly the request validator's. */
  lemma PriorityAgrees(p: string)
    ensures PriorityValid(Some(p)) <==> Primitives.ParseTicketPriority(p).Ok?
  {
  }
}
