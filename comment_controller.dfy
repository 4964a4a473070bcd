/**
 * server/src/controllers/commenController.ts: posting a comment on a ticket and reading a
 * ticket's comments as a conversation, oldest first.
 */
module CommentController {
  import opened Wrappers
  import opened Ids
  import opened Http
  import Text
  import CommentModel
  import Sorting
  import opened Store

  /** `addComment`: the caller must be known and the ticket must exist; the comment is stored trimmed. */
  method AddComment(db: Db, ticketId: Id, content: Option<string>, actor: Option<Id>, now: int)
    returns (reply: Reply<Comment>)
    requires db.Valid()
    modifies db
    ensures db.Valid()
    ensures db.users == old(db.users) && db.projects == old(db.projects) && db.tickets == old(db.tickets)
    ensures actor.None? ==> reply == Fail(SERVER_ERROR, "Server Error") && unchanged(db)
    ensures actor.Some? && TicketWithId(old(db.tickets), ticketId).None? ==>
      reply == Fail(NOT_FOUND, "Ticket not found") && unchanged(db)
    ensures actor.Some? && TicketWithId(old(db.tickets), ticketId).Some? ==>
      var v := CommentModel.Validate(CommentModel.CommentFields(content, Some(ticketId), Some(actor.value), None), old(db.nextId), now);
      if v.Err? then
        reply == Fail(SERVER_ERROR, "Server Error") && unchanged(db)
      else
        && db.comments == old(db.comments) + [v.value]
        && db.nextId == old(db.nextId) + 1
        && reply == Reply(CREATED, Payload(v.value))
  {
    // req.user._id on a missing req.user throws before anything is read
    if actor.None? {
      return Fail(SERVER_ERROR, "Server Error");
    }
    if TicketWithId(db.tickets, ticketId).None? {
      return Fail(NOT_FOUND, "Ticket not found");
    }
    var fields := CommentModel.CommentFields(content, Some(ticketId), Some(actor.value), None);
    var v := CommentModel.Validate(fields, db.nextId, now);
    if v.Err? {
      return Fail(SERVER_ERROR, "Server Error");
    }
    CommentModel.ValidatedIsWellFormed(fields, db.nextId, now);
    db.InsertComment(v.value);
    reply := Reply(CREATED, Payload(v.value));
  }

  /** A comment the handler stores is authored by the caller, attached to the ticket and never a system note. */
  lemma {:induction false} StoredCommentBelongsToCaller(ticketId: Id, content: Option<string>, actor: Id, id: Id, now: int)
    requires CommentModel.Validate(CommentModel.CommentFields(content, Some(ticketId), Some(actor), None), id, now).Ok?
    ensures var c := CommentModel.Validate(CommentModel.CommentFields(content, Some(ticketId), Some(actor), None), id, now).value;
      c.author == actor && c.ticket == ticketId && !c.isSystem && c.content == Text.Trim(content.value)
  {
    CommentModel.HumanByDefault(CommentModel.CommentFields(content, Some(ticketId), Some(actor), None), id, now);
  }

  function CreatedAt(c: Comment): int {
    c.createdAt
  }

  /** `getComments`: the comments on the ticket, oldest first. */
  function GetComments(comments: seq<Comment>, ticketId: Id): (reply: Reply<seq<Comment>>)
    ensures reply.status == OK && reply.body.Payload?
    ensures Sorting.Ordered(reply.body.value, CreatedAt, false)
    ensures forall c :: c in reply.body.value <==> c in comments && c.ticket == ticketId
    ensures multiset(reply.body.value) <= multiset(comments)
  {
    var onTicket := Select(comments, (c: Comment) => c.ticket == ticketId);
    var sorted := Sorting.SortBy(onTicket, CreatedAt, false);
    forall c ensures c in sorted <==> c in onTicket {
      Sorting.SortedSameElements(onTicket, CreatedAt, false, c);
    }
    Reply(OK, Payload(sorted))
  }

  /** A comment just added to a ticket shows up when that ticket's comments are read. */
  lemma {:induction false} AddedCommentIsListed(comments: seq<Comment>, c: Comment)
    ensures c in GetComments(comments + [c], c.ticket).body.value
  {
    assert (comments + [c])[|comments|] == c;
  }
}
