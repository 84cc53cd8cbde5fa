/** Concrete runs of the handlers from the seed list. */
module Scenarios {
  import opened Projects
  import opened Handlers
  import Server

  /** A name shorter than three characters is refused and nothing changes. */
  lemma ShortNameRefused()
    ensures Create(Seed(), Some("ab")) == Step(ValidationError, Seed())
    ensures Create(Seed(), None) == Step(ValidationError, Seed())
    ensures Update(Seed(), 1, Some("")) == Step(ValidationError, Seed())
  {
  }

  /** "project a" collides with the seed's "Project A"; renaming record 2 to it is
      refused as well, while renaming record 1 to it is accepted. */
  lemma CaseInsensitiveDuplicate()
    ensures Create(Seed(), Some("project a")) == Step(DuplicateError, Seed())
    ensures Update(Seed(), 2, Some("project a")) == Step(DuplicateError, Seed())
    ensures Update(Seed(), 1, Some("project a")).outcome == Ok(Project(1, "project a"))
  {
    var ps := Seed();
    assert Lower("project a") == Lower(ps[0].name);
    assert Lower("project a")[8] != Lower(ps[1].name)[8];
    assert SameName(ps[0].name, "project a");
  }

  /** Deleting an id no record has is not-found and leaves the list alone. */
  lemma DeleteMissing()
    ensures Delete(Seed(), 999) == Step(NotFound, Seed())
    ensures Get(Seed(), 999) == NotFound
  {
  }

  /** A name whose length differs from every stored name is never a duplicate. */
  lemma LengthsDiffer(ps: seq<Project>, name: string)
    requires forall i :: 0 <= i < |ps| ==> |ps[i].name| != |name|
    ensures !IsDuplicateName(ps, name)
  {
    assert forall i :: 0 <= i < |ps| ==> |Lower(ps[i].name)| != |Lower(name)|;
  }

  /** From the seed, creating "Delta" gives it id 4 and a count of 4. */
  lemma CreateFromSeed()
    ensures Create(Seed(), Some("Delta")) ==
      Step(Ok(Project(4, "Delta")),
           [Project(1, "Project A"), Project(2, "Project B"), Project(3, "Project C"),
            Project(4, "Delta")])
  {
    LengthsDiffer(Seed(), "Delta");
  }

  /** In the list after that create, id 4 finds "Delta". */
  lemma GetAfterCreate()
    ensures Get([Project(1, "Project A"), Project(2, "Project B"), Project(3, "Project C"),
                 Project(4, "Delta")], 4) == Ok(Project(4, "Delta"))
  {
    FirstMatchAt([Project(1, "Project A"), Project(2, "Project B"), Project(3, "Project C"),
                  Project(4, "Delta")], 4, 3);
  }

  /** Deleting id 1 there removes "Project A", and id 1 is then not found. */
  lemma DeleteAfterCreate()
    ensures var qs := [Project(1, "Project A"), Project(2, "Project B"), Project(3, "Project C"),
                       Project(4, "Delta")];
      Delete(qs, 1) == Step(Ok(Project(1, "Project A")), qs[1..]) &&
      Get(qs[1..], 1) == NotFound
  {
    var qs := [Project(1, "Project A"), Project(2, "Project B"), Project(3, "Project C"),
               Project(4, "Delta")];
    FirstMatchAt(qs, 1, 0);
    assert qs[..0] + qs[1..] == qs[1..];
    var rest := qs[1..];
    assert rest[0].id == 2 && rest[1].id == 3 && rest[2].id == 4;
  }

  /** Creating "Delta" and then deleting id 1: the count goes from 3 to 4 and back to 3,
      the created record is found by its id, and id 1 is no longer found. */
  lemma CreateThenDeleteFromSeed()
    ensures var s1 := Create(Seed(), Some("Delta"));
      s1.outcome == Ok(Project(4, "Delta")) && |s1.projects| == 4 &&
      Get(s1.projects, 4) == Ok(Project(4, "Delta")) &&
      var s2 := Delete(s1.projects, 1);
      s2.outcome == Ok(Project(1, "Project A")) && |s2.projects| == 3 &&
      Get(s2.projects, 1) == NotFound
  {
    CreateFromSeed();
    GetAfterCreate();
    DeleteAfterCreate();
  }

  /** From the seed, deleting id 1 removes "Project A" and keeps the rest in order. */
  lemma DeleteFromSeed()
    ensures Delete(Seed(), 1) ==
      Step(Ok(Project(1, "Project A")), [Project(2, "Project B"), Project(3, "Project C")])
  {
    var ps := Seed();
    FirstMatchAt(ps, 1, 0);
    assert ps[..0] + ps[1..] == ps[1..];
  }

  /** Ids are not unique: the seed's ids are distinct, but deleting id 1 and then
      creating a record numbers the new record 3, the id "Project C" still has. */
  lemma IdsNotPreserved()
    ensures IdsUnique(Seed())
    ensures var s1 := Delete(Seed(), 1);
      var s2 := Create(s1.projects, Some("Delta"));
      s2.outcome == Ok(Project(3, "Delta")) &&
      s2.projects == [Project(2, "Project B"), Project(3, "Project C"), Project(3, "Delta")] &&
      !IdsUnique(s2.projects)
  {
    SeedInvariant();
    DeleteFromSeed();
    CreateAfterDelete();
    var rs := [Project(2, "Project B"), Project(3, "Project C"), Project(3, "Delta")];
    assert rs[1].id == rs[2].id;
  }

  /** Creating "Delta" in the two-record list numbers it 3, one past the length. */
  lemma CreateAfterDelete()
    ensures Create([Project(2, "Project B"), Project(3, "Project C")], Some("Delta")) ==
      Step(Ok(Project(3, "Delta")),
           [Project(2, "Project B"), Project(3, "Project C"), Project(3, "Delta")])
  {
    LengthsDiffer([Project(2, "Project B"), Project(3, "Project C")], "Delta");
  }

  /** In the list with the repeated id 3, get by id 3 answers with "Project C", the
      first of the two records, and never with the later "Delta". */
  lemma FirstMatchWins()
    ensures Get([Project(2, "Project B"), Project(3, "Project C"), Project(3, "Delta")], 3) ==
      Ok(Project(3, "Project C"))
  {
    FirstMatchAt([Project(2, "Project B"), Project(3, "Project C"), Project(3, "Delta")], 3, 1);
  }

  /** Update by id 3 in the same list renames "Project C" and leaves "Delta" alone. */
  lemma FirstMatchRenamed()
    ensures Update([Project(2, "Project B"), Project(3, "Project C"), Project(3, "Delta")],
                   3, Some("Gamma")) ==
      Step(Ok(Project(3, "Gamma")),
           [Project(2, "Project B"), Project(3, "Gamma"), Project(3, "Delta")])
  {
    var ps := [Project(2, "Project B"), Project(3, "Project C"), Project(3, "Delta")];
    FirstMatchAt(ps, 3, 1);
    assert Lower("Gamma")[0] != Lower("Delta")[0];
    LengthsDiffer(ps[..2], "Gamma");
    assert !IsDuplicateName(ps, "Gamma");
  }

  /** Delete by id 3 in the same list also removes "Project C"; "Delta" then answers. */
  lemma FirstMatchDeleted()
    ensures var ps := [Project(2, "Project B"), Project(3, "Project C"), Project(3, "Delta")];
      Delete(ps, 3) ==
        Step(Ok(Project(3, "Project C")), [Project(2, "Project B"), Project(3, "Delta")]) &&
      Get(Delete(ps, 3).projects, 3) == Ok(Project(3, "Delta"))
  {
    var ps := [Project(2, "Project B"), Project(3, "Project C"), Project(3, "Delta")];
    FirstMatchAt(ps, 3, 1);
    var rest := [Project(2, "Project B"), Project(3, "Delta")];
    assert ps[..1] + ps[2..] == rest;
    FirstMatchAt(rest, 3, 1);
  }

  /** Deleting id 3 after the rename removes "Gamma" and leaves "Delta" answering. */
  lemma DeleteRenamed()
    ensures var ps := [Project(2, "Project B"), Project(3, "Gamma"), Project(3, "Delta")];
      Delete(ps, 3) == Step(Ok(Project(3, "Gamma")), [Project(2, "Project B"), Project(3, "Delta")]) &&
      Get(Delete(ps, 3).projects, 3) == Ok(Project(3, "Delta"))
  {
    var ps := [Project(2, "Project B"), Project(3, "Gamma"), Project(3, "Delta")];
    FirstMatchAt(ps, 3, 1);
    var rest := [Project(2, "Project B"), Project(3, "Delta")];
    assert ps[..1] + ps[2..] == rest;
    FirstMatchAt(rest, 3, 1);
  }

  /** The same run through the store's methods: from the seed, deleting id 1 and
      creating "Delta" gives the new record id 3, which "Project C" still holds; get,
      update and delete by id 3 then reach "Project C", and only after that delete
      does get by id 3 answer with "Delta". The count follows the list: 3 after the
      create, 2 after the second delete. */
  method IdReuse() returns (created: Outcome, got: Outcome, renamed: Outcome,
                            deleted: Outcome, last: Outcome,
                            countAfterCreate: nat, countAtEnd: nat)
    ensures created == Ok(Project(3, "Delta"))
    ensures got == Ok(Project(3, "Project C"))
    ensures renamed == Ok(Project(3, "Gamma"))
    ensures deleted == Ok(Project(3, "Gamma"))
    ensures last == Ok(Project(3, "Delta"))
    ensures countAfterCreate == 3 && countAtEnd == 2
  {
    IdsNotPreserved();
    FirstMatchWins();
    FirstMatchRenamed();
    DeleteRenamed();
    var store := new Server.Store();
    var _ := store.Delete(1);
    created := store.Create(Some("Delta"));
    countAfterCreate := store.Count();
    got := store.Get(3);
    renamed := store.Update(3, Some("Gamma"));
    deleted := store.Delete(3);
    last := store.Get(3);
    countAtEnd := store.Count();
  }
}
