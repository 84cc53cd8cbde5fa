/** The server's module-level `projects` array and the handlers that read and change it. */
module Server {
  import opened Projects
  import Handlers

  class Store {
    /** The ordered list of records, as GET /api/projects returns it. */
    var projects: seq<Project>

    /** Case-insensitive name uniqueness and minimum name length. */
    ghost predicate Valid()
      reads this
    {
      Invariant(projects)
    }

    /** Server start: the list holds the three seed records. */
    constructor ()
      ensures projects == Handlers.Seed()
      ensures Valid()
    {
      projects := Handlers.Seed();
      Handlers.SeedInvariant();
    }

    /** GET /api/projects/count. */
    function Count(): (n: nat)
      reads this
      ensures n == |projects|
    {
      |projects|
    }

    /** GET /api/projects/:id: reads the list and leaves it alone. */
    function Get(id: int): (r: Handlers.Outcome)
      reads this
      ensures r == Handlers.NotFound <==> forall j :: 0 <= j < |projects| ==> projects[j].id != id
      ensures r.Ok? || r == Handlers.NotFound
      ensures r.Ok? ==> r.project.id == id && r.project in projects
      ensures r.Ok? ==> r.project == projects[FindIndex(projects, id)]
    {
      Handlers.Get(projects, id)
    }

    /** POST /api/projects: validate, check for a duplicate, then `push`. */
    method Create(name: Option<string>) returns (r: Handlers.Outcome)
      modifies this
      ensures Handlers.Step(r, projects) == Handlers.Create(old(projects), name)
      ensures old(Valid()) ==> Valid()
    {
      if !ValidName(name) {
        return Handlers.ValidationError;
      }
      if IsDuplicateName(projects, name.value) {
        return Handlers.DuplicateError;
      }
      ghost var before := projects;
      var p := Project(|projects| + 1, name.value);
      projects := projects + [p];
      r := Handlers.Ok(p);
      if Invariant(before) {
        Handlers.CreatePreservesInvariant(before, name);
      }
    }

    /** DELETE /api/projects/:id: `findIndex`, then `splice` one record out. */
    method Delete(id: int) returns (r: Handlers.Outcome)
      modifies this
      ensures Handlers.Step(r, projects) == Handlers.Delete(old(projects), id)
      ensures old(Valid()) ==> Valid()
    {
      var i := FindIndex(projects, id);
      if i == -1 {
        return Handlers.NotFound;
      }
      ghost var before := projects;
      var deleted := projects[i];
      projects := projects[..i] + projects[i + 1..];
      r := Handlers.Ok(deleted);
      if Invariant(before) {
        Handlers.DeletePreservesInvariant(before, id);
      }
    }

    /** PUT /api/projects/:id: validate, `find`, check for a duplicate other than the
        target's own name, then assign the record's `name` field in place. The record
        `find` returns is the one at `findIndex` (FindAtFindIndex), so the model
        writes through that index. */
    method Update(id: int, name: Option<string>) returns (r: Handlers.Outcome)
      modifies this
      ensures Handlers.Step(r, projects) == Handlers.Update(old(projects), id, name)
      ensures old(Valid()) ==> Valid()
    {
      if !ValidName(name) {
        return Handlers.ValidationError;
      }
      var i := FindIndex(projects, id);
      if i == -1 {
        return Handlers.NotFound;
      }
      if IsDuplicateName(projects, name.value) && Lower(name.value) != Lower(projects[i].name) {
        return Handlers.DuplicateError;
      }
      ghost var before := projects;
      projects := projects[i := projects[i].(name := name.value)];
      r := Handlers.Ok(projects[i]);
      if Invariant(before) {
        Handlers.UpdatePreservesInvariant(before, id, name);
      }
    }
  }
}
