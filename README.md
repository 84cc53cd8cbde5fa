# Project store of the Project Manager API

This project models the in-memory project store of the Project Manager API server
(`backend/server.js`): an ordered list of `{id, name}` records, seeded with three
projects, and the handlers behind `GET /api/projects/count`, `POST /api/projects`,
`GET /api/projects/:id`, `PUT /api/projects/:id` and `DELETE /api/projects/:id`.
Create and update check the request's name (present and at least three
characters) and check it against the stored names ignoring case. Create then appends
a record and update renames one in place. Get and delete search for the first record
with the id, and delete splices it out.

The model has four modules:

- `Projects` (`projects.dfy`): the record type, ASCII lower-casing, the name check,
  `IsDuplicateName`, the two searches (`FindIndex` for `findIndex`, `Find` for `find`)
  and the invariants (names distinct ignoring case, names of length at least 3, and
  the id uniqueness the server does not keep).
- `Handlers` (`handlers.dfy`): each handler as a function from the list before the
  request to its response (`Ok(project) | ValidationError | DuplicateError | NotFound`,
  HTTP and JSON stripped) and the list after it. Their contracts state the order of
  the checks, the error cases, what a success changes and that a failure changes
  nothing. Lemmas prove that create, update and delete keep both name invariants, and
  relate the handlers to one another (create then get, delete then get, renaming to
  one's own name).
- `Server` (`server.dfy`): the module-level `projects` array as the class `Store` with
  a `seq` field. `Create`, `Update` and `Delete` change that field step by step as the
  handlers do (`push`, in-place `name` assignment, `splice`). Each is proved equal to
  its `Handlers` function and to preserve the name invariants.
- `Scenarios` (`scenarios.dfy`): concrete runs from the seed. They cover the short
  name, the case-insensitive duplicate, the missing id, create-then-delete, and the
  id reuse described below. `IdReuse` replays that id-reuse run through the `Store`
  methods.

Ids are `projects.length + 1` at creation (`backend/server.js:53`), so after a
delete two records can share an id. The model keeps this behaviour, and several
consequences of it are proved:

- `Scenarios.IdsNotPreserved`: ids are unique in the seed, but after "delete id 1,
  then create" two records have id 3.
- `Scenarios.FirstMatchWins`, `FirstMatchRenamed` and `FirstMatchDeleted`: get,
  update and delete then act only on the first record with that id.
- `Handlers.CreateThenGet`: get right after create returns the new record exactly
  when no older record has id `|ps| + 1`; otherwise it returns that older record.
- `Handlers.DeleteThenGet`: get right after delete returns not-found exactly when no
  later record has the same id, in particular when ids are unique.
- `Handlers.UpdateDuplicateMeansOther`: update's duplicate test scans every record,
  the target included, and always runs; its verdict is ignored when the new name
  equals the target's own name ignoring case. Under the name invariant, which holds
  in every reachable state, it rejects exactly the names that some other record holds.

## Model

| member | source | states |
|---|---|---|
| `Projects.Lower` | backend/server.js:20 | `toLowerCase` on ASCII: the result has the same length, contains no upper-case ASCII letter, and each character is either kept or is an upper-case ASCII letter moved to its lower case |
| `Projects.ValidName` | backend/server.js:43 | true exactly when the guard `!name \|\| name.length < 3` is false: the name is present, non-empty, and at least 3 characters long |
| `Projects.IsDuplicateName` | backend/server.js:19-21 | true exactly when some stored record's name, lower-cased, equals the given name lower-cased |
| `Projects.FindIndex` | backend/server.js:73 | -1 exactly when no record has the id; otherwise the index of a record with the id such that no earlier record has it |
| `Projects.Find` | backend/server.js:63 | none exactly when no record has the id; otherwise a stored record with the id that has no earlier record with the same id |
| `Projects.FindAtFindIndex` | backend/server.js:92-101 | the record `find` returns is the one at the index `findIndex` reports, so renaming the found record changes that position of the list |
| `Handlers.Seed` | backend/server.js:12-16 | the seed holds three records whose ids are their positions counted from 1, each with a name of at least 3 characters |
| `Handlers.SeedInvariant` | backend/server.js:12-16 | the three seed records have pairwise distinct names ignoring case, names of at least 3 characters, and distinct ids |
| `Handlers.Create` | backend/server.js:39-58 | missing or short name: validation error, list unchanged; otherwise duplicate error, list unchanged, exactly when a stored name matches ignoring case; otherwise returns `{id: old length + 1, name}` and the list is the old list with that record appended, its length one more |
| `Handlers.Get` | backend/server.js:60-68 | not-found exactly when no record has the id; otherwise the record at the first index with that id |
| `Handlers.Delete` | backend/server.js:71-81 | not-found, list unchanged, exactly when no record has the id; otherwise returns the first record with the id and the list is the old one with exactly that position removed, the others in order, its length one less |
| `Handlers.Update` | backend/server.js:84-103 | checks name length first, then not-found, then duplicate; the duplicate error happens exactly when the new name differs ignoring case from the target's and some stored name matches it; on success only the name of the first record with the id changes and the renamed record is returned; every failure leaves the list unchanged |
| `Handlers.CreatePreservesInvariant` | backend/server.js:43-56 | create keeps names distinct ignoring case and at least 3 characters long |
| `Handlers.DeletePreservesInvariant` | backend/server.js:73-79 | delete keeps names distinct ignoring case and at least 3 characters long |
| `Handlers.UpdatePreservesInvariant` | backend/server.js:88-101 | update keeps names distinct ignoring case and at least 3 characters long, including when it ignores the duplicate test's verdict for the target's own name |
| `Handlers.UpdateDuplicateMeansOther` | backend/server.js:97-99 | under the name invariant, update reports a duplicate exactly when a record other than the target holds the name ignoring case |
| `Handlers.CreateThenGet` | backend/server.js:53-63 | after a successful create, get by the new id returns the new record when no older record has that id, and otherwise the older record |
| `Handlers.DeleteThenGet` | backend/server.js:63-79 | after a successful delete, get by the same id answers as a search of the records after the removed one; it is not-found exactly when no later record has the id, in particular when ids are unique |
| `Handlers.UpdateToOwnName` | backend/server.js:97-101 | renaming a record to its own name in another case (at least 3 characters) succeeds and returns the record with the new spelling |
| `Server.Store.constructor` | backend/server.js:12-16 | the store starts with the three seed records and satisfies the name invariants |
| `Server.Store.Count` | backend/server.js:34-36 | the count is the number of stored records |
| `Server.Store.Get` | backend/server.js:60-68 | the store's get is `Handlers.Get` on the stored list: not-found exactly when no stored record has the id; otherwise `Ok` with the record at the first index with the id; no other answer |
| `Server.Store.Create` | backend/server.js:39-58 | response and new list are those of `Handlers.Create` on the old list; the name invariants are preserved |
| `Server.Store.Delete` | backend/server.js:71-81 | response and new list are those of `Handlers.Delete` on the old list; the name invariants are preserved |
| `Server.Store.Update` | backend/server.js:84-103 | response and new list are those of `Handlers.Update` on the old list; the name invariants are preserved |
| `Scenarios.ShortNameRefused` | backend/server.js:43-45 | creating "ab" or a request without a name, and updating to "", are validation errors that leave the seed list unchanged |
| `Scenarios.CaseInsensitiveDuplicate` | backend/server.js:97-99 | "project a" is a duplicate of the seed's "Project A" for create and for renaming record 2, but renaming record 1 itself to it succeeds |
| `Scenarios.DeleteMissing` | backend/server.js:73-77 | deleting or getting id 999 in the seed is not-found and leaves the list unchanged |
| `Scenarios.CreateFromSeed` | backend/server.js:52-56 | creating "Delta" from the seed returns it with id 4 and appends it as a fourth record |
| `Scenarios.GetAfterCreate` | backend/server.js:63 | in that four-record list, id 4 finds "Delta" |
| `Scenarios.DeleteAfterCreate` | backend/server.js:79 | in that list, deleting id 1 removes "Project A" and id 1 is then not found |
| `Scenarios.CreateThenDeleteFromSeed` | backend/server.js:35-81 | from the seed, create "Delta" makes the count 4 and id 4 finds it; then delete id 1 makes the count 3 and id 1 is not found |
| `Scenarios.DeleteFromSeed` | backend/server.js:79 | deleting id 1 from the seed returns "Project A" and leaves records 2 and 3 in order |
| `Scenarios.CreateAfterDelete` | backend/server.js:53 | creating "Delta" in the two remaining records numbers it 3, one past the length |
| `Scenarios.IdsNotPreserved` | backend/server.js:53 | the seed's ids are unique, but after deleting id 1 and creating "Delta" two records have id 3 |
| `Scenarios.FirstMatchWins` | backend/server.js:63 | with two records of id 3, get by id 3 returns the earlier one, "Project C" |
| `Scenarios.FirstMatchRenamed` | backend/server.js:92-101 | with two records of id 3, update by id 3 renames only the earlier one |
| `Scenarios.FirstMatchDeleted` | backend/server.js:73-79 | with two records of id 3, delete by id 3 removes the earlier one, after which get by id 3 returns the later one |
| `Scenarios.DeleteRenamed` | backend/server.js:73-80 | after that rename, delete by id 3 removes the renamed record and get by id 3 returns "Delta" |
| `Scenarios.IdReuse` | backend/server.js:39-103 | through the store's methods from the seed: delete id 1, create "Delta" (id 3), get, update and delete id 3 all reach the earlier record, and only then does get by id 3 return "Delta"; `Count` is 3 after the create and 2 at the end |

## Left out

- Express setup, routing, CORS, JSON parsing and serialisation, HTTP status codes and `app.listen` (backend/server.js:1-9, 24-26, 105-107): framework plumbing. Handler responses are the `Outcome` datatype.
- `GET /api/projects` (backend/server.js:29-31) returns the list itself; in the model that is the `Store.projects` field, with no separate member.
- `console.log` in the get handler (backend/server.js:61): a side effect only.
- `parseInt` of the path parameter (backend/server.js:62, 72, 85): the id is an `int` parameter. A non-numeric parameter gives `NaN` in JavaScript, which equals no id, so it behaves as an id no record has (not-found).
- `toLowerCase` is modelled on ASCII letters only (`Projects.Lower`); Unicode case mapping, which can change a string's length, is not modelled.
- `name.length` counts UTF-16 code units in JavaScript; the model counts Dafny characters (Unicode scalar values), so names with characters outside the Basic Multilingual Plane are measured differently.
- A request body whose `name` is truthy but not a string (a number, an object) is not modelled: the model's name is an optional string. In the server such a name can pass the guard at backend/server.js:43 and :88, since `(12345).length < 3` is `undefined < 3`, which is false. While the list is non-empty, `isDuplicateName` then throws at `name.toLowerCase` (backend/server.js:20), on create and on an update whose id is found. On an empty list `some` calls nothing, so create stores the non-string name (backend/server.js:56). After that, every create that passes the name check, and every update that passes it and finds its id, throws at `project.name.toLowerCase` (backend/server.js:20) until that record is deleted; get and delete keep working.
- The records are values: `project.name = name` is modelled as replacing the record at its index. Nothing else holds a reference to a stored record, since responses are serialised, so no aliasing is lost.
- Concurrency between requests: the handlers run one at a time, so each is one atomic method call.
- `frontend/user-app/src/App.js`: React state, asynchronous `fetch` calls and rendering, with no logic of the store in it.
