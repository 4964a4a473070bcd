/**
 * server/src/controllers/projectController.ts: creating projects, listing the caller's projects,
 * reading one, and adding a member. Project membership is stored on both sides, in the project's
 * `members` and in each user's `projects`, and both handlers that change it write both sides.
 */
module ProjectController {
  import opened Wrappers
  import opened Ids
  import opened Http
  import Text
  import Primitives
  import ProjectModel
  import Sorting
  import opened Store

  /** The issue Zod reports for a required field that is missing. */
  const MISSING_FIELD := "Invalid input: expected string, received undefined"

  datatype CreateProjectBody = CreateProjectBody(name: Option<string>, description: Option<string>)

  function IssuesOf(r: Result<string, seq<string>>): seq<string> {
    if r.Err? then r.error else []
  }

  /** `CreateProjectSchema.parse(body)`: the issues of the name, then those of the optional description. */
  function RequestIssues(body: CreateProjectBody): (issues: seq<string>)
    ensures issues == [] <==>
      && body.name.Some? && Primitives.ParseProjectTitle(body.name.value).Ok?
      && (body.description.Some? ==> Primitives.ParseProjectDescription(body.description.value).Ok?)
    ensures body.name.None? ==> issues[0] == MISSING_FIELD
  {
    (if body.name.None? then [MISSING_FIELD] else IssuesOf(Primitives.ParseProjectTitle(body.name.value)))
    + (if body.description.None? then [] else IssuesOf(Primitives.ParseProjectDescription(body.description.value)))
  }

  /** `User.findByIdAndUpdate(userId, { $push: { projects: pid } })`: a no-op when no user has that id. */
  function PushProject(users: seq<User>, userId: Id, pid: Id): (r: seq<User>)
    ensures |r| == |users|
    ensures UserWithId(users, userId).None? ==> r == users
    ensures UserWithId(users, userId).Some? ==>
      var k := UserWithId(users, userId).value;
      r == users[k := users[k].(projects := users[k].projects + [pid])]
  {
    var found := UserWithId(users, userId);
    if found.None? then users
    else users[found.value := users[found.value].(projects := users[found.value].projects + [pid])]
  }

  /** The same update with `$addToSet`: the id is appended only when the user does not list it yet. */
  function AddProjectToSet(users: seq<User>, userId: Id, pid: Id): (r: seq<User>)
    ensures |r| == |users|
    ensures UserWithId(users, userId).None? ==> r == users
    ensures UserWithId(users, userId).Some? ==>
      var k := UserWithId(users, userId).value;
      && pid in r[k].projects
      && (pid in users[k].projects ==> r == users)
      && (pid !in users[k].projects ==> r == PushProject(users, userId, pid))
  {
    var found := UserWithId(users, userId);
    if found.None? || pid in users[found.value].projects then users
    else PushProject(users, userId, pid)
  }

  /** Listing a project the user did not list before keeps every user's project list free of repeats. */
  lemma PushFreshProjectKeepsOk(users: seq<User>, userId: Id, pid: Id, bound: Id)
    requires UsersOk(users, bound) && pid < bound
    requires forall i :: 0 <= i < |users| && users[i].id == userId ==> pid !in users[i].projects
    ensures UsersOk(PushProject(users, userId, pid), bound)
  {
    var found := UserWithId(users, userId);
    if found.Some? {
      var k := found.value;
      var ps := users[k].projects + [pid];
      forall i, j | 0 <= i < j < |ps| ensures ps[i] != ps[j] {
        if j == |ps| - 1 {
          assert ps[i] in users[k].projects;
        }
      }
      var r := users[k := users[k].(projects := ps)];
      assert forall i :: 0 <= i < |r| ==> r[i].id == users[i].id && r[i].email == users[i].email;
      assert forall i :: 0 <= i < |r| && i != k ==> r[i] == users[i];
    }
  }

  /** No user lists an id that has not been handed out yet. */
  lemma NewIdUnlisted(users: seq<User>, bound: Id)
    requires UsersOk(users, bound)
    ensures forall i :: 0 <= i < |users| ==> bound !in users[i].projects
  {
    forall i | 0 <= i < |users| ensures bound !in users[i].projects {
      assert forall k :: 0 <= k < |users[i].projects| ==> users[i].projects[k] < bound;
    }
  }

  /** `createProject`: request validation, then the caller, then the schema; the caller becomes the only member. */
  method CreateProject(db: Db, body: CreateProjectBody, actor: Option<Id>, now: int)
    returns (reply: Reply<ProjectModel.Project>)
    requires db.Valid()
    modifies db
    ensures db.Valid()
    ensures db.tickets == old(db.tickets) && db.comments == old(db.comments)
    ensures RequestIssues(body) != [] ==> reply == Reply(BAD_REQUEST, Issues(RequestIssues(body))) && unchanged(db)
    ensures RequestIssues(body) == [] && actor.None? ==> reply == Fail(UNAUTHORIZED, "Unauthorized") && unchanged(db)
    ensures RequestIssues(body) == [] && actor.Some? ==>
      var v := ProjectModel.Validate(ProjectModel.ProjectFields(body.name, body.description, [actor.value]), old(db.nextId), now);
      if v.Err? then
        reply == Fail(SERVER_ERROR, "Internal Server Error") && unchanged(db)
      else
        && db.projects == old(db.projects) + [v.value]
        && db.users == PushProject(old(db.users), actor.value, v.value.id)
        && db.nextId == old(db.nextId) + 1
        && reply == Reply(CREATED, Payload(v.value))
  {
    var issues := RequestIssues(body);
    if issues != [] {
      return Reply(BAD_REQUEST, Issues(issues));
    }
    if actor.None? {
      return Fail(UNAUTHORIZED, "Unauthorized");
    }
    var fields := ProjectModel.ProjectFields(body.name, body.description, [actor.value]);
    var v := ProjectModel.Validate(fields, db.nextId, now);
    if v.Err? {
      return Fail(SERVER_ERROR, "Internal Server Error");
    }
    var project := v.value;
    assert project.members == [actor.value];
    NewIdUnlisted(db.users, db.nextId);
    db.InsertProject(project);
    PushFreshProjectKeepsOk(db.users, actor.value, project.id, db.nextId);
    db.WriteUsers(PushProject(db.users, actor.value, project.id));
    reply := Reply(CREATED, Payload(project));
  }

  /**
   * A name the request validator accepts but that is made only of blanks fails the schema
   * after trimming, which the handler reports as a server error, not as a bad request.
   */
  lemma {:induction false} BlankNameIsServerError(name: string, description: Option<string>, actor: Id, id: Id, now: int)
    requires RequestIssues(CreateProjectBody(Some(name), description)) == []
    ensures ProjectModel.Validate(ProjectModel.ProjectFields(Some(name), description, [actor]), id, now).Err?
      <==> Text.IsBlank(name)
  {
    ProjectModel.RequestValidImpliesSchemaValid(name, description, [actor], id, now);
  }

  /** After createProject the creator's document lists the new project, when the creator exists. */
  lemma CreatorListsProject(users: seq<User>, actor: Id, pid: Id)
    requires UserWithId(users, actor).Some?
    ensures var r := PushProject(users, actor, pid); pid in r[UserWithId(users, actor).value].projects
  {
  }

  function CreatedAt(p: ProjectModel.Project): int {
    p.createdAt
  }

  /** `getProjects`: the projects listing the caller as a member, newest first. */
  function GetProjects(projects: seq<ProjectModel.Project>, actor: Option<Id>): (reply: Reply<seq<ProjectModel.Project>>)
    ensures actor.None? ==> reply == Fail(SERVER_ERROR, "Server Error")
    ensures actor.Some? ==>
      && reply.status == OK && reply.body.Payload?
      && Sorting.Ordered(reply.body.value, CreatedAt, true)
      && (forall p :: p in reply.body.value <==> p in projects && actor.value in p.members)
      && multiset(reply.body.value) <= multiset(projects)
  {
    if actor.None? then Fail(SERVER_ERROR, "Server Error")
    else
      var mine := Select(projects, (p: ProjectModel.Project) => actor.value in p.members);
      var sorted := Sorting.SortBy(mine, CreatedAt, true);
      forall p ensures p in sorted <==> p in mine {
        Sorting.SortedSameElements(mine, CreatedAt, true, p);
      }
      Reply(OK, Payload(sorted))
  }

  /** `getProjectById` */
  function GetProjectById(projects: seq<ProjectModel.Project>, id: Id): (reply: Reply<ProjectModel.Project>)
    ensures ProjectWithId(projects, id).None? <==> reply == Fail(NOT_FOUND, "Project not found")
    ensures reply.status == OK ==> reply.body.Payload? && reply.body.value in projects && reply.body.value.id == id
    ensures reply.status == OK || reply.status == NOT_FOUND
    ensures ProjectWithId(projects, id).Some? ==> reply == Reply(OK, Payload(projects[ProjectWithId(projects, id).value]))
  {
    var found := ProjectWithId(projects, id);
    if found.None? then Fail(NOT_FOUND, "Project not found") else Reply(OK, Payload(projects[found.value]))
  }

  /** A member list with `userId` appended and the save's new `updatedAt`. */
  function WithMember(p: ProjectModel.Project, userId: Id, now: int): (r: ProjectModel.Project)
    ensures r.id == p.id && r.name == p.name && r.description == p.description && r.createdAt == p.createdAt
    ensures r.updatedAt == now
    ensures |r.members| == |p.members| + 1 && r.members[..|p.members|] == p.members
    ensures forall m :: m in r.members <==> m in p.members || m == userId
  {
    p.(members := p.members + [userId], updatedAt := now)
  }

  lemma AddMemberKeepsOk(projects: seq<ProjectModel.Project>, k: nat, userId: Id, now: int, bound: Id)
    requires ProjectsOk(projects, bound) && k < |projects| && userId !in projects[k].members
    ensures ProjectsOk(projects[k := WithMember(projects[k], userId, now)], bound)
  {
    var ms := projects[k].members + [userId];
    forall i, j | 0 <= i < j < |ms| ensures ms[i] != ms[j] {
      if j == |ms| - 1 {
        assert ms[i] in projects[k].members;
      }
    }
  }

  lemma AddToSetKeepsOk(users: seq<User>, userId: Id, pid: Id, bound: Id)
    requires UsersOk(users, bound) && pid < bound
    ensures UsersOk(AddProjectToSet(users, userId, pid), bound)
  {
    var found := UserWithId(users, userId);
    if found.Some? && pid !in users[found.value].projects {
      PushFreshProjectKeepsOk(users, userId, pid, bound);
    }
  }

  /** `addMember`: 404 for an unknown project, 400 for a member; otherwise both sides of the membership are written. */
  method AddMember(db: Db, projectId: Id, userId: Id, now: int) returns (reply: Reply<ProjectModel.Project>)
    requires db.Valid()
    modifies db
    ensures db.Valid()
    ensures db.tickets == old(db.tickets) && db.comments == old(db.comments) && db.nextId == old(db.nextId)
    ensures ProjectWithId(old(db.projects), projectId).None? ==>
      reply == Fail(NOT_FOUND, "Project not found") && unchanged(db)
    ensures ProjectWithId(old(db.projects), projectId).Some? ==>
      var k := ProjectWithId(old(db.projects), projectId).value;
      if userId in old(db.projects)[k].members then
        reply == Fail(BAD_REQUEST, "User is already a member") && unchanged(db)
      else
        var p := WithMember(old(db.projects)[k], userId, now);
        && db.projects == old(db.projects)[k := p]
        && db.users == AddProjectToSet(old(db.users), userId, projectId)
        && reply == Reply(OK, Payload(p))
  {
    var found := ProjectWithId(db.projects, projectId);
    if found.None? {
      return Fail(NOT_FOUND, "Project not found");
    }
    var k := found.value;
    if userId in db.projects[k].members {
      return Fail(BAD_REQUEST, "User is already a member");
    }
    var p := WithMember(db.projects[k], userId, now);
    AddMemberKeepsOk(db.projects, k, userId, now, db.nextId);
    db.WriteProjects(db.projects[k := p]);
    AddToSetKeepsOk(db.users, userId, projectId, db.nextId);
    db.WriteUsers(AddProjectToSet(db.users, userId, projectId));
    reply := Reply(OK, Payload(p));
  }

  /** A member added by addMember is listed by getProjects for that user. */
  lemma {:induction false} AddedMemberSeesProject(projects: seq<ProjectModel.Project>, k: nat, userId: Id, now: int)
    requires k < |projects|
    ensures var after := projects[k := WithMember(projects[k], userId, now)];
      WithMember(projects[k], userId, now) in GetProjects(after, Some(userId)).body.value
  {
    var after := projects[k := WithMember(projects[k], userId, now)];
    var p := WithMember(projects[k], userId, now);
    assert p.members[|p.members| - 1] == userId;
    assert after[k] == p;
  }
}
