/**
 * The MongoDB collections the controllers read and write, as one in-memory object: a sequence
 * of documents per collection (in natural order) and the counter that hands out fresh ObjectIds.
 */
module Store {
  import opened Wrappers
  import opened Ids
  import TicketModel
  import CommentModel
  import ProjectModel

  type Ticket = TicketModel.Ticket
  type Comment = CommentModel.Comment
  type Project = ProjectModel.Project

  /**
   * A user as the controllers read and write it: `password` holds the bcrypt hash, and the
   * optional fields are the ones a document may lack (`isActive` undefined counts as active).
   */
  datatype User = User(
    id: Id,
    username: string,
    email: string,
    password: string,
    isAdmin: Option<bool>,
    isActive: Option<bool>,
    jobTitle: Option<string>,
    projects: seq<Id>)

  predicate NoDuplicates<T(==)>(s: seq<T>) {
    forall i, j :: 0 <= i < j < |s| ==> s[i] != s[j]
  }

  /** The first position whose element satisfies `p`. */
  function FirstIndex<T>(s: seq<T>, p: T -> bool): (r: Option<nat>)
    ensures r.Some? ==> r.value < |s| && p(s[r.value]) && forall i :: 0 <= i < r.value ==> !p(s[i])
    ensures r.None? ==> forall i :: 0 <= i < |s| ==> !p(s[i])
  {
    if s == [] then None
    else if p(s[0]) then Some(0)
    else
      var r := FirstIndex(s[1..], p);
      if r.Some? then Some(r.value + 1) else None
  }

  /** The elements that satisfy `p`, in their stored order: a `find` with a filter. */
  function Select<T(!new)>(s: seq<T>, p: T -> bool): (r: seq<T>)
    ensures |r| <= |s|
    ensures forall x :: x in r <==> x in s && p(x)
    ensures multiset(r) <= multiset(s)
  {
    if s == [] then []
    else
      assert s == [s[0]] + s[1..];
      var rest := Select(s[1..], p);
      if p(s[0]) then [s[0]] + rest else rest
  }
  /** Filtering keeps the stored order: filtering a concatenation filters each part in turn. */
  lemma {:induction false} SelectAppend<T(!new)>(a: seq<T>, b: seq<T>, p: T -> bool)
    ensures Select(a + b, p) == Select(a, p) + Select(b, p)
  {
    if a == [] {
      assert a + b == b;
    } else {
      assert (a + b)[0] == a[0] && (a + b)[1..] == a[1..] + b;
      SelectAppend(a[1..], b, p);
    }
  }


  function UserWithId(users: seq<User>, id: Id): (r: Option<nat>)
    ensures r.Some? ==> r.value < |users| && users[r.value].id == id
    ensures r.None? ==> forall i :: 0 <= i < |users| ==> users[i].id != id
  {
    FirstIndex(users, (u: User) => u.id == id)
  }

  /** `User.findOne({ email })` */
  function UserWithEmail(users: seq<User>, email: string): (r: Option<nat>)
    ensures r.Some? ==> r.value < |users| && users[r.value].email == email
    ensures r.None? ==> forall i :: 0 <= i < |users| ==> users[i].email != email
  {
    FirstIndex(users, (u: User) => u.email == email)
  }

  function ProjectWithId(projects: seq<Project>, id: Id): (r: Option<nat>)
    ensures r.Some? ==> r.value < |projects| && projects[r.value].id == id
    ensures r.None? ==> forall i :: 0 <= i < |projects| ==> projects[i].id != id
  {
    FirstIndex(projects, (p: Project) => p.id == id)
  }

  function TicketWithId(tickets: seq<Ticket>, id: Id): (r: Option<nat>)
    ensures r.Some? ==> r.value < |tickets| && tickets[r.value].id == id
    ensures r.None? ==> forall i :: 0 <= i < |tickets| ==> tickets[i].id != id
  {
    FirstIndex(tickets, (t: Ticket) => t.id == id)
  }

  /** Distinct ids and e-mails (the unique index); every id, and every project a user lists, was handed out already. */
  predicate UsersOk(users: seq<User>, bound: Id) {
    && (forall i, j :: 0 <= i < j < |users| ==> users[i].id != users[j].id && users[i].email != users[j].email)
    && (forall i :: 0 <= i < |users| ==> users[i].id < bound && NoDuplicates(users[i].projects))
    && (forall i, k :: 0 <= i < |users| && 0 <= k < |users[i].projects| ==> users[i].projects[k] < bound)
  }

  /** Distinct ids, and a member list that is a set. */
  predicate ProjectsOk(projects: seq<Project>, bound: Id) {
    && (forall i, j :: 0 <= i < j < |projects| ==> projects[i].id != projects[j].id)
    && (forall i :: 0 <= i < |projects| ==> projects[i].id < bound && NoDuplicates(projects[i].members))
  }

  predicate TicketsOk(tickets: seq<Ticket>, bound: Id) {
    && (forall i, j :: 0 <= i < j < |tickets| ==> tickets[i].id != tickets[j].id)
    && (forall t :: t in tickets ==> t.id < bound && TicketModel.WellFormed(t))
  }

  predicate CommentsOk(comments: seq<Comment>, bound: Id) {
    && (forall i, j :: 0 <= i < j < |comments| ==> comments[i].id != comments[j].id)
    && (forall c :: c in comments ==> c.id < bound && CommentModel.WellFormed(c))
  }

  class Db {
    var users: seq<User>
    var projects: seq<Project>
    var tickets: seq<Ticket>
    var comments: seq<Comment>
    var nextId: Id

    ghost predicate Valid()
      reads this
    {
      && UsersOk(users, nextId)
      && ProjectsOk(projects, nextId)
      && TicketsOk(tickets, nextId)
      && CommentsOk(comments, nextId)
    }

    constructor ()
      ensures Valid()
      ensures users == [] && projects == [] && tickets == [] && comments == []
    {
      users, projects, tickets, comments, nextId := [], [], [], [], 0;
    }

    /** Writes to the users collection that keep it consistent. */
    method WriteUsers(us: seq<User>)
      requires Valid() && UsersOk(us, nextId)
      modifies this`users
      ensures Valid() && users == us
    {
      users := us;
    }

    /** Writes to the projects collection that keep it consistent. */
    method WriteProjects(ps: seq<Project>)
      requires Valid() && ProjectsOk(ps, nextId)
      modifies this`projects
      ensures Valid() && projects == ps
    {
      projects := ps;
    }

    /** `insertOne` of a user document built with the next ObjectId and an e-mail no user has. */
    method InsertUser(u: User)
      requires Valid() && u.id == nextId && u.projects == []
      requires UserWithEmail(users, u.email).None?
      modifies this
      ensures Valid()
      ensures users == old(users) + [u] && nextId == old(nextId) + 1
      ensures projects == old(projects) && tickets == old(tickets) && comments == old(comments)
    {
      AppendUserKeepsOk(users, u, nextId + 1);
      users := users + [u];
      nextId := nextId + 1;
    }

    /** `insertOne` of a project document built with the next ObjectId. */
    method InsertProject(p: Project)
      requires Valid() && p.id == nextId && NoDuplicates(p.members)
      modifies this
      ensures Valid()
      ensures projects == old(projects) + [p] && nextId == old(nextId) + 1
      ensures users == old(users) && tickets == old(tickets) && comments == old(comments)
    {
      AppendProjectKeepsOk(projects, p, nextId + 1);
      projects := projects + [p];
      nextId := nextId + 1;
    }

    /** `insertOne` of a validated ticket document built with the next ObjectId. */
    method InsertTicket(t: Ticket)
      requires Valid() && t.id == nextId && TicketModel.WellFormed(t)
      modifies this
      ensures Valid()
      ensures tickets == old(tickets) + [t] && nextId == old(nextId) + 1
      ensures users == old(users) && projects == old(projects) && comments == old(comments)
    {
      AppendTicketKeepsOk(tickets, t, nextId + 1);
      tickets := tickets + [t];
      nextId := nextId + 1;
    }

    /** `insertOne` of a validated comment document built with the next ObjectId. */
    method InsertComment(c: Comment)
      requires Valid() && c.id == nextId && CommentModel.WellFormed(c)
      modifies this
      ensures Valid()
      ensures comments == old(comments) + [c] && nextId == old(nextId) + 1
      ensures users == old(users) && projects == old(projects) && tickets == old(tickets)
    {
      AppendCommentKeepsOk(comments, c, nextId + 1);
      comments := comments + [c];
      nextId := nextId + 1;
    }
  }

  /** Appending a user with a fresh id and an unused e-mail keeps the users collection consistent. */
  lemma AppendUserKeepsOk(users: seq<User>, u: User, bound: Id)
    requires UsersOk(users, u.id) && u.id < bound
    requires UserWithEmail(users, u.email).None?
    requires NoDuplicates(u.projects) && forall k :: 0 <= k < |u.projects| ==> u.projects[k] < bound
    ensures UsersOk(users + [u], bound)
  {
    var r := users + [u];
    forall i, j | 0 <= i < j < |r| ensures r[i].id != r[j].id && r[i].email != r[j].email {
      if j == |users| {
        assert r[i] == users[i] && r[j] == u;
      } else {
        assert r[i] == users[i] && r[j] == users[j];
      }
    }
  }

  lemma AppendProjectKeepsOk(projects: seq<Project>, p: Project, bound: Id)
    requires ProjectsOk(projects, p.id) && p.id < bound && NoDuplicates(p.members)
    ensures ProjectsOk(projects + [p], bound)
  {
    var r := projects + [p];
    forall i | 0 <= i < |projects| ensures r[i] == projects[i] {}
  }

  lemma AppendTicketKeepsOk(tickets: seq<Ticket>, t: Ticket, bound: Id)
    requires TicketsOk(tickets, t.id) && t.id < bound && TicketModel.WellFormed(t)
    ensures TicketsOk(tickets + [t], bound)
  {
    var r := tickets + [t];
    forall i, j | 0 <= i < j < |r| ensures r[i].id != r[j].id {
      assert r[i] == tickets[i];
      if j < |tickets| {
        assert r[j] == tickets[j];
      }
    }
  }

  lemma AppendCommentKeepsOk(comments: seq<Comment>, c: Comment, bound: Id)
    requires CommentsOk(comments, c.id) && c.id < bound && CommentModel.WellFormed(c)
    ensures CommentsOk(comments + [c], bound)
  {
    var r := comments + [c];
    forall i, j | 0 <= i < j < |r| ensures r[i].id != r[j].id {
      assert r[i] == comments[i];
      if j < |comments| {
        assert r[j] == comments[j];
      }
    }
  }
}
