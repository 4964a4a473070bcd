/**
 * server/src/models/project.ts: the Mongoose ProjectSchema, with `timestamps: true`.
 */
module ProjectModel {
  import opened Wrappers
  import opened Ids
  import Text
  import Primitives

  datatype Project = Project(
    id: Id,
    name: string,
    description: Option<string>,
    members: seq<Id>,
    createdAt: int,
    updatedAt: int)

  datatype ProjectFields = ProjectFields(name: Option<string>, description: Option<string>, members: seq<Id>)

  datatype Path = Name | Description

  /** Required, trimmed, at most `PROJECT.TITLE_MAX` UTF-16 code units and no `<` or `>`. */
  predicate NameValid(name: Option<string>) {
    && name.Some?
    && var t := Text.Trim(name.value);
    && 1 <= Text.JsLength(t) <= Primitives.PROJECT_TITLE_MAX && Primitives.NoHtml(t)
  }

  /** Optional; when present, trimmed, at most `PROJECT.DESC_MAX` UTF-16 code units and no `<` or `>`. */
  predicate DescriptionValid(description: Option<string>) {
    || description.None?
    || var t := Text.Trim(description.value);
       Text.JsLength(t) <= Primitives.PROJECT_DESC_MAX && Primitives.NoHtml(t)
  }

  function TrimOption(o: Option<string>): Option<string> {
    if o.Some? then Some(Text.Trim(o.value)) else None
  }

  /** `new Project(fields).save()` at time `now`. */
  function Validate(f: ProjectFields, id: Id, now: int): (r: Result<Project, set<Path>>)
    ensures r.Ok? <==> NameValid(f.name) && DescriptionValid(f.description)
    ensures r.Err? ==> r.error != {}
    ensures r.Err? ==> (Name in r.error <==> !NameValid(f.name))
    ensures r.Err? ==> (Description in r.error <==> !DescriptionValid(f.description))
    ensures r.Ok? ==> r.value.name == Text.Trim(f.name.value)
    ensures r.Ok? ==> r.value.description == TrimOption(f.description)
    ensures r.Ok? ==> r.value.members == f.members
    ensures r.Ok? ==> r.value.id == id && r.value.createdAt == now && r.value.updatedAt == now
  {
    var failed :=
      (if NameValid(f.name) then {} else {Name})
      + (if DescriptionValid(f.description) then {} else {Description});
    if failed == {} then
      Ok(Project(id, Text.Trim(f.name.value), TrimOption(f.description), f.members, now, now))
    else
      Err(failed)
  }

  /** Trimming can only shorten a string and never introduces `<` or `>`. */
  lemma {:induction false} TrimKeepsBounds(s: string, max: nat)
    requires Text.JsLength(s) <= max && Primitives.NoHtml(s)
    ensures Text.JsLength(Text.Trim(s)) <= max && Primitives.NoHtml(Text.Trim(s))
  {
    Text.TrimShortens(s);
    var t := Text.Trim(s);
    forall i | 0 <= i < |t| ensures t[i] != '<' && t[i] != '>' {
      assert t[i] in t;
    }
  }

  /**
   * A body that passed the request validators passes the schema too, unless the name is
   * made of blanks only, which the request validator lets through and the schema rejects.
   */
  lemma {:induction false} RequestValidImpliesSchemaValid(name: string, description: Option<string>, members: seq<Id>, id: Id, now: int)
    requires Primitives.ParseProjectTitle(name).Ok?
    requires description.Some? ==> Primitives.ParseProjectDescription(description.value).Ok?
    ensures Validate(ProjectFields(Some(name), description, members), id, now).Ok? <==> !Text.IsBlank(name)
  {
    Text.TrimEmptyIffBlank(name);
    TrimKeepsBounds(name, Primitives.PROJECT_TITLE_MAX);
    if description.Some? {
      TrimKeepsBounds(description.value, Primitives.PROJECT_DESC_MAX);
    }
  }
}
