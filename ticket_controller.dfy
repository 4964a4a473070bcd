/**
 * server/src/controllers/ticketController.ts: listing every ticket newest first, and creating a
 * ticket for the authenticated user. The body cannot choose the status or the owner: a new
 * ticket is always "Open" and carries the caller's e-mail.
 */
module TicketController {
  import opened Wrappers
  import opened Ids
  import opened Http
  import Text
  import EmailPattern
  import TicketModel
  import Sorting
  import opened Store

  function CreatedAt(t: Ticket): int {
    t.createdAt
  }

  /** `getTickets`: all tickets, newest first. */
  function GetTickets(tickets: seq<Ticket>): (reply: Reply<seq<Ticket>>)
    ensures reply.status == OK && reply.body.Payload?
    ensures Sorting.Ordered(reply.body.value, CreatedAt, true)
    ensures multiset(reply.body.value) == multiset(tickets)
  {
    Reply(OK, Payload(Sorting.SortBy(tickets, CreatedAt, true)))
  }

  /** The fields `createTicket` reads from the body. */
  datatype TicketBody = TicketBody(
    title: Option<string>,
    description: Option<string>,
    priority: Option<string>,
    sizing: Option<int>)

  /** The document createTicket builds for the caller whose e-mail is `email`. */
  function FieldsFor(body: TicketBody, email: string): (f: TicketModel.TicketFields)
    ensures f.status == Some(TicketModel.DEFAULT_STATUS) && f.userEmail == Some(email)
    ensures f.title == body.title && f.description == body.description
    ensures f.priority == body.priority && f.sizing == body.sizing
  {
    TicketModel.TicketFields(body.title, body.description, Some("Open"), body.priority, body.sizing, Some(email))
  }

  /**
   * `createTicket`: 401 without a caller; 400 (with the validation error's message, not modelled)
   * when the schema rejects the ticket; otherwise the ticket is stored.
   */
  method CreateTicket(db: Db, body: TicketBody, actor: Option<User>, now: int) returns (reply: Reply<Ticket>)
    requires db.Valid()
    modifies db
    ensures db.Valid()
    ensures db.users == old(db.users) && db.projects == old(db.projects) && db.comments == old(db.comments)
    ensures actor.None? ==> reply == Fail(UNAUTHORIZED, "User not found") && unchanged(db)
    ensures actor.Some? ==>
      var v := TicketModel.Validate(FieldsFor(body, actor.value.email), old(db.nextId), now);
      if v.Err? then
        reply.status == BAD_REQUEST && reply.body.Message? && unchanged(db)
      else
        && db.tickets == old(db.tickets) + [v.value]
        && db.nextId == old(db.nextId) + 1
        && reply == Reply(CREATED, Payload(v.value))
  {
    if actor.None? {
      return Fail(UNAUTHORIZED, "User not found");
    }
    var fields := FieldsFor(body, actor.value.email);
    var v := TicketModel.Validate(fields, db.nextId, now);
    if v.Err? {
      return Fail(BAD_REQUEST, "Ticket validation failed");
    }
    TicketModel.ValidatedIsWellFormed(fields, db.nextId, now);
    db.InsertTicket(v.value);
    reply := Reply(CREATED, Payload(v.value));
  }

  /** Every ticket createTicket stores is open and owned by the caller. */
  lemma OpenAndOwnedByCaller(body: TicketBody, email: string, id: Id, now: int)
    requires TicketModel.Validate(FieldsFor(body, email), id, now).Ok?
    ensures var t := TicketModel.Validate(FieldsFor(body, email), id, now).value;
      t.status == "Open" && t.userEmail == email
  {
  }

  /**
   * Registration never checks an address against the ticket schema's pattern, so a registered
   * user whose address carries a `+` can never create a ticket.
   */
  lemma {:induction false} PlusAddressCannotCreateTickets(body: TicketBody, email: string, id: Id, now: int)
    requires '+' in email
    ensures TicketModel.Validate(FieldsFor(body, email), id, now).Err?
    ensures TicketModel.UserEmail in TicketModel.Validate(FieldsFor(body, email), id, now).error
  {
    EmailPattern.RejectsPlus(email);
  }

  /** A blank title is rejected even though it is present. */
  lemma {:induction false} BlankTitleIsBadRequest(body: TicketBody, email: string, id: Id, now: int)
    requires body.title.Some? && Text.IsBlank(body.title.value)
    ensures TicketModel.Validate(FieldsFor(body, email), id, now).Err?
  {
    TicketModel.BlankTitleRejected(body.title.value, FieldsFor(body, email), id, now);
  }
}
