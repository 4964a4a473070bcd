/**
 * server/src/models/comment.ts: the Mongoose CommentSchema, with `timestamps: true`.
 */
module CommentModel {
  import opened Wrappers
  import opened Ids
  import Text

  const CONTENT_MAX := 1000

  datatype Comment = Comment(
    id: Id,
    content: string,
    ticket: Id,
    author: Id,
    isSystem: bool,
    createdAt: int,
    updatedAt: int)

  datatype CommentFields = CommentFields(
    content: Option<string>,
    ticket: Option<Id>,
    author: Option<Id>,
    isSystem: Option<bool>)

  datatype Path = Content | TicketRef | Author

  /** Required, trimmed, then at most 1000 UTF-16 code units. */
  predicate ContentValid(content: Option<string>) {
    content.Some? && 1 <= Text.JsLength(Text.Trim(content.value)) <= CONTENT_MAX
  }

  /** The fields whose validators fail. */
  function Failures(f: CommentFields): (failed: set<Path>)
    ensures Content in failed <==> !ContentValid(f.content)
    ensures TicketRef in failed <==> f.ticket.None?
    ensures Author in failed <==> f.author.None?
  {
    (if ContentValid(f.content) then {} else {Content})
    + (if f.ticket.Some? then {} else {TicketRef})
    + (if f.author.Some? then {} else {Author})
  }

  /** `Comment.create(fields)` at time `now`. */
  function Validate(f: CommentFields, id: Id, now: int): (r: Result<Comment, set<Path>>)
    ensures r.Ok? <==> ContentValid(f.content) && f.ticket.Some? && f.author.Some?
    ensures r.Err? ==> r.error == Failures(f) && r.error != {}
    ensures r.Ok? ==> r.value.content == Text.Trim(f.content.value)
    ensures r.Ok? ==> r.value.ticket == f.ticket.value && r.value.author == f.author.value
    ensures r.Ok? ==> r.value.isSystem == (f.isSystem.Some? && f.isSystem.value)
    ensures r.Ok? ==> r.value.id == id && r.value.createdAt == now && r.value.updatedAt == now
  {
    var failed := Failures(f);
    if ContentValid(f.content) && f.ticket.Some? && f.author.Some? then
      Ok(Comment(id, Text.Trim(f.content.value), f.ticket.value, f.author.value,
                 if f.isSystem.Some? then f.isSystem.value else false, now, now))
    else
      assert failed != {} by {
        if !ContentValid(f.content) { assert Content in failed; }
        else if f.ticket.None? { assert TicketRef in failed; }
        else { assert Author in failed; }
      }
      Err(failed)
  }

  predicate WellFormed(c: Comment) {
    1 <= Text.JsLength(c.content) <= CONTENT_MAX && Text.IsTrimmed(c.content) && c.createdAt <= c.updatedAt
  }

  /** A created comment is well formed: its content is already trimmed and within bounds. */
  lemma {:induction false} ValidatedIsWellFormed(f: CommentFields, id: Id, now: int)
    requires Validate(f, id, now).Ok?
    ensures WellFormed(Validate(f, id, now).value)
  {
    var r := Validate(f, id, now);
    assert ContentValid(f.content);
  }

  /** A comment created without `isSystem` is a human comment. */
  lemma HumanByDefault(f: CommentFields, id: Id, now: int)
    requires Validate(f, id, now).Ok? && f.isSystem.None?
    ensures !Validate(f, id, now).value.isSystem
  {
  }

  /** Blank content is rejected. */
  lemma {:induction false} BlankContentRejected(f: CommentFields, id: Id, now: int)
    requires f.content.Some? && Text.IsBlank(f.content.value)
    ensures Validate(f, id, now).Err?
  {
    Text.TrimEmptyIffBlank(f.content.value);
  }
}
