/** What each request handler does to the list of projects, as functions from the
    list before the request to the response and the list after it. */
module Handlers {
  import opened Projects

  /** A handler's response, without the HTTP status and JSON framing. */
  datatype Outcome = Ok(project: Project) | ValidationError | DuplicateError | NotFound

  /** The response together with the list the handler leaves behind. */
  datatype Step = Step(outcome: Outcome, projects: seq<Project>)

  /** The three records the server starts with, numbered by position from 1. */
  function Seed(): (ps: seq<Project>)
    ensures |ps| == 3
    ensures forall i :: 0 <= i < |ps| ==> ps[i].id == i + 1 && |ps[i].name| >= 3
  {
    [Project(1, "Project A"), Project(2, "Project B"), Project(3, "Project C")]
  }

  /** The seed satisfies both name invariants, and its ids are distinct. */
  lemma SeedInvariant()
    ensures Invariant(Seed()) && IdsUnique(Seed())
  {
    var ps := Seed();
    assert Lower(ps[0].name)[8] == 'a';
    assert Lower(ps[1].name)[8] == 'b';
    assert Lower(ps[2].name)[8] == 'c';
  }

  /** POST /api/projects. */
  function Create(ps: seq<Project>, name: Option<string>): (s: Step)
    // the length check comes first
    ensures !ValidName(name) ==> s == Step(ValidationError, ps)
    // then the case-insensitive duplicate check against every stored record
    ensures s.outcome == DuplicateError <==>
      ValidName(name) && exists i :: 0 <= i < |ps| && SameName(ps[i].name, name.value)
    ensures s.outcome == DuplicateError ==> s.projects == ps
    ensures !s.outcome.NotFound?
    // success appends exactly one record, numbered one past the old length
    ensures s.outcome.Ok? <==>
      ValidName(name) && forall i :: 0 <= i < |ps| ==> !SameName(ps[i].name, name.value)
    ensures s.outcome.Ok? ==>
      s.outcome.project == Project(|ps| + 1, name.value) &&
      s.projects == ps + [s.outcome.project] &&
      |s.projects| == |ps| + 1
  {
    if !ValidName(name) then Step(ValidationError, ps)
    else if IsDuplicateName(ps, name.value) then Step(DuplicateError, ps)
    else
      var p := Project(|ps| + 1, name.value);
      Step(Ok(p), ps + [p])
  }

  /** GET /api/projects/:id. */
  function Get(ps: seq<Project>, id: int): (r: Outcome)
    ensures r == NotFound <==> forall j :: 0 <= j < |ps| ==> ps[j].id != id
    ensures r.Ok? || r == NotFound
    ensures r.Ok? ==> r.project.id == id && r.project in ps
    // `find` answers with the FIRST record that has the id
    ensures r.Ok? ==> r.project == ps[FindIndex(ps, id)]
  {
    FindAtFindIndex(ps, id);
    match Find(ps, id)
    case None => NotFound
    case Some(p) => Ok(p)
  }

  /** DELETE /api/projects/:id: removes the first record with the id (`splice`). */
  function Delete(ps: seq<Project>, id: int): (s: Step)
    ensures s.outcome == NotFound <==> forall j :: 0 <= j < |ps| ==> ps[j].id != id
    ensures s.outcome == NotFound ==> s.projects == ps
    ensures s.outcome.Ok? || s.outcome == NotFound
    ensures s.outcome.Ok? ==>
      var i := FindIndex(ps, id);
      0 <= i && s.outcome.project == ps[i] && s.outcome.project.id == id &&
      s.projects == ps[..i] + ps[i + 1..] &&
      |s.projects| == |ps| - 1
  {
    var i := FindIndex(ps, id);
    if i == -1 then Step(NotFound, ps)
    else Step(Ok(ps[i]), ps[..i] + ps[i + 1..])
  }

  /** PUT /api/projects/:id: renames the first record with the id. */
  function Update(ps: seq<Project>, id: int, name: Option<string>): (s: Step)
    // the length check comes first, then the lookup, then the duplicate check
    ensures !ValidName(name) ==> s == Step(ValidationError, ps)
    ensures ValidName(name) && (forall j :: 0 <= j < |ps| ==> ps[j].id != id) ==>
      s == Step(NotFound, ps)
    ensures s.outcome == DuplicateError <==>
      ValidName(name) && 0 <= FindIndex(ps, id) &&
      !SameName(name.value, ps[FindIndex(ps, id)].name) &&
      exists k :: 0 <= k < |ps| && SameName(ps[k].name, name.value)
    ensures s.outcome == DuplicateError ==> s.projects == ps
    // success renames the target and nothing else; a name equal to the target's
    // own, ignoring case, is always accepted
    ensures s.outcome.Ok? <==>
      ValidName(name) && 0 <= FindIndex(ps, id) &&
      (SameName(name.value, ps[FindIndex(ps, id)].name) ||
       forall k :: 0 <= k < |ps| ==> !SameName(ps[k].name, name.value))
    ensures s.outcome.Ok? ==>
      var i := FindIndex(ps, id);
      0 <= i &&
      s.projects == ps[i := Project(ps[i].id, name.value)] &&
      s.outcome.project == s.projects[i]
  {
    if !ValidName(name) then Step(ValidationError, ps)
    else
      var i := FindIndex(ps, id);
      if i == -1 then Step(NotFound, ps)
      else if IsDuplicateName(ps, name.value) && Lower(name.value) != Lower(ps[i].name) then
        Step(DuplicateError, ps)
      else
        var p := Project(ps[i].id, name.value);
        Step(Ok(p), ps[i := p])
  }

  /** A successful create keeps both name invariants. */
  lemma CreatePreservesInvariant(ps: seq<Project>, name: Option<string>)
    requires Invariant(ps)
    ensures Invariant(Create(ps, name).projects)
  {
  }

  /** Deleting keeps both name invariants: the rest of the list is a subsequence. */
  lemma DeletePreservesInvariant(ps: seq<Project>, id: int)
    requires Invariant(ps)
    ensures Invariant(Delete(ps, id).projects)
  {
  }

  /** Updating keeps both name invariants. When the new name equals the target's own
      ignoring case, the duplicate check's verdict is ignored, and distinctness of the old
      list is what keeps the other records from colliding with it. */
  lemma UpdatePreservesInvariant(ps: seq<Project>, id: int, name: Option<string>)
    requires Invariant(ps)
    ensures Invariant(Update(ps, id, name).projects)
  {
  }

  /** Under the name invariant the update's duplicate test, which scans every record,
      rejects exactly the names held by some OTHER record than the target. */
  lemma UpdateDuplicateMeansOther(ps: seq<Project>, id: int, name: Option<string>)
    requires Invariant(ps)
    requires ValidName(name) && 0 <= FindIndex(ps, id)
    ensures Update(ps, id, name).outcome == DuplicateError <==>
      exists k :: 0 <= k < |ps| && k != FindIndex(ps, id) && SameName(ps[k].name, name.value)
  {
  }

  /** A created record can be read back by its id, unless an older record already
      holds that id, in which case the older one keeps answering. */
  lemma CreateThenGet(ps: seq<Project>, name: Option<string>)
    requires Create(ps, name).outcome.Ok?
    ensures var s := Create(ps, name);
      Get(s.projects, |ps| + 1) ==
        if forall j :: 0 <= j < |ps| ==> ps[j].id != |ps| + 1 then s.outcome
        else Get(ps, |ps| + 1)
  {
    var s := Create(ps, name);
    FindAppend(ps, s.outcome.project, |ps| + 1);
  }

  /** After a successful delete, get-by-id answers with the next record that had the
      same id: it is not-found exactly when no later record has the id, in particular
      when ids were unique. */
  lemma DeleteThenGet(ps: seq<Project>, id: int)
    requires Delete(ps, id).outcome.Ok?
    ensures var k := FindIndex(ps, id);
      Get(Delete(ps, id).projects, id) == Get(ps[k + 1..], id)
    ensures var k := FindIndex(ps, id);
      Get(Delete(ps, id).projects, id) == NotFound <==>
        forall j :: k < j < |ps| ==> ps[j].id != id
    ensures IdsUnique(ps) ==> Get(Delete(ps, id).projects, id) == NotFound
  {
    var k := FindIndex(ps, id);
    assert forall j :: 0 <= j < |ps[..k]| ==> ps[..k][j] == ps[j];
    FindSkip(ps[..k], ps[k + 1..], id);
    var rest := ps[k + 1..];
    assert forall j :: 0 <= j < |rest| ==> rest[j] == ps[k + 1 + j];
    assert forall j :: k < j < |ps| ==> ps[j] == rest[j - k - 1];
  }

  /** Renaming a record to its own name in another case is always accepted. */
  lemma UpdateToOwnName(ps: seq<Project>, id: int, name: string)
    requires |name| >= 3
    requires 0 <= FindIndex(ps, id) && SameName(name, ps[FindIndex(ps, id)].name)
    ensures Update(ps, id, Some(name)).outcome == Ok(Project(id, name))
  {
  }
}
