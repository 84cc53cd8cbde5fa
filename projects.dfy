/** Project records and the queries the server runs over its list of them. */
module Projects {

  /** A project record `{id, name}`; JavaScript numbers are modelled as unbounded integers. */
  datatype Project = Project(id: int, name: string)

  datatype Option<T> = None | Some(value: T)

  /** ASCII lower-casing of one character. */
  function LowerChar(c: char): char {
    if 'A' <= c <= 'Z' then (c as int - 'A' as int + 'a' as int) as char else c
  }

  /** `toLowerCase`, restricted to ASCII letters: same length, no upper-case ASCII
      letter left, and every character either kept or moved down to its lower case. */
  function Lower(s: string): (r: string)
    ensures |r| == |s|
    ensures forall i :: 0 <= i < |r| ==> !('A' <= r[i] <= 'Z')
    ensures forall i :: 0 <= i < |s| ==>
      r[i] == s[i] || ('A' <= s[i] <= 'Z' && r[i] as int == s[i] as int + 32)
  {
    seq(|s|, i requires 0 <= i < |s| => LowerChar(s[i]))
  }

  /** Two names collide when they are equal after lower-casing. */
  predicate SameName(a: string, b: string) {
    Lower(a) == Lower(b)
  }

  /** A request name is truthy in JavaScript when it is present and not empty. */
  predicate Truthy(name: Option<string>) {
    name.Some? && name.value != ""
  }

  /** The handlers' guard `!name || name.length < 3`, negated. The empty string is
      falsy, but the length test already excludes it. */
  function ValidName(name: Option<string>): (b: bool)
    ensures b <==> !(!Truthy(name) || |name.value| < 3)
  {
    name.Some? && |name.value| >= 3
  }

  /** `isDuplicateName`: some stored record's name equals `name` ignoring case. */
  function IsDuplicateName(ps: seq<Project>, name: string): (b: bool)
    ensures b <==> exists i :: 0 <= i < |ps| && SameName(ps[i].name, name)
  {
    if ps == [] then false
    else if SameName(ps[0].name, name) then true
    else
      var rest := IsDuplicateName(ps[1..], name);
      assert forall i :: 1 <= i < |ps| ==> ps[i] == ps[1..][i - 1];
      rest
  }

  /** `findIndex(p => p.id === id)`: the index of the first record with this id, or -1. */
  function FindIndex(ps: seq<Project>, id: int): (i: int)
    ensures -1 <= i < |ps|
    ensures i == -1 <==> forall j :: 0 <= j < |ps| ==> ps[j].id != id
    ensures 0 <= i ==> ps[i].id == id && forall j :: 0 <= j < i ==> ps[j].id != id
  {
    if ps == [] then -1
    else if ps[0].id == id then 0
    else
      var k := FindIndex(ps[1..], id);
      assert forall j :: 1 <= j < |ps| ==> ps[j] == ps[1..][j - 1];
      if k == -1 then -1 else k + 1
  }

  /** `find(p => p.id === id)`: the first record with this id, if there is one. */
  function Find(ps: seq<Project>, id: int): (r: Option<Project>)
    ensures r.None? <==> forall j :: 0 <= j < |ps| ==> ps[j].id != id
    ensures r.Some? ==>
      r.value.id == id &&
      exists i :: 0 <= i < |ps| && ps[i] == r.value && forall j :: 0 <= j < i ==> ps[j].id != id
  {
    if ps == [] then None
    else if ps[0].id == id then Some(ps[0])
    else
      var r := Find(ps[1..], id);
      assert forall j :: 1 <= j < |ps| ==> ps[j] == ps[1..][j - 1];
      r
  }

  /** The record that `find` returns is the one at the index `findIndex` reports,
      so the handlers that look a record up by one and change it by the other agree. */
  lemma FindAtFindIndex(ps: seq<Project>, id: int)
    ensures Find(ps, id) == if FindIndex(ps, id) == -1 then None else Some(ps[FindIndex(ps, id)])
  {
  }

  /** A record with the id at position k and none before it is what both searches report. */
  lemma FirstMatchAt(ps: seq<Project>, id: int, k: int)
    requires 0 <= k < |ps| && ps[k].id == id
    requires forall j :: 0 <= j < k ==> ps[j].id != id
    ensures FindIndex(ps, id) == k && Find(ps, id) == Some(ps[k])
  {
  }

  /** Searching past a prefix that holds no record with the id. */
  lemma {:induction false} FindSkip(a: seq<Project>, b: seq<Project>, id: int)
    requires forall j :: 0 <= j < |a| ==> a[j].id != id
    ensures Find(a + b, id) == Find(b, id)
  {
    if a != [] {
      assert (a + b)[0] == a[0] && (a + b)[1..] == a[1..] + b;
      assert a[0].id != id;
      assert forall j :: 0 <= j < |a| - 1 ==> a[1..][j] == a[j + 1];
      FindSkip(a[1..], b, id);
      assert Find(a + b, id) == Find((a + b)[1..], id);
    } else {
      assert a + b == b;
    }
  }

  /** Searching a list with one record appended. */
  lemma {:induction false} FindAppend(ps: seq<Project>, p: Project, id: int)
    ensures Find(ps + [p], id) ==
      if Find(ps, id).Some? then Find(ps, id) else if p.id == id then Some(p) else None
  {
    if ps != [] {
      assert (ps + [p])[1..] == ps[1..] + [p];
      FindAppend(ps[1..], p, id);
    }
  }

  /** No two stored names collide ignoring case. */
  predicate NamesDistinct(ps: seq<Project>) {
    forall i, j :: 0 <= i < j < |ps| ==> !SameName(ps[i].name, ps[j].name)
  }

  /** Every stored name has at least three characters. */
  predicate NamesLongEnough(ps: seq<Project>) {
    forall i :: 0 <= i < |ps| ==> |ps[i].name| >= 3
  }

  /** The two invariants the handlers' checks are there to keep. */
  predicate Invariant(ps: seq<Project>) {
    NamesDistinct(ps) && NamesLongEnough(ps)
  }

  /** No two stored records share an id (the server does NOT keep this). */
  predicate IdsUnique(ps: seq<Project>) {
    forall i, j :: 0 <= i < j < |ps| ==> ps[i].id != ps[j].id
  }
}
