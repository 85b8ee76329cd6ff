# Issue tracker store, in Dafny

A model of the in-memory issue store behind the `/api/issues/:project` routes of
a small issue-tracker REST service (`api.js`). The store is one object mapping a
project name to the ordered sequence of that project's issue records. Four
route handlers run on it:

- **GET** lists a project's issues, narrowed by exact-match query filters.
- **POST** checks that three required properties are present, fills in
  defaults, and appends a new record. The project's sequence is created on
  first use.
- **PUT** runs a fixed chain of checks, then overwrites the supplied properties
  of the first record with the given `_id` and refreshes `updated_on`.
- **DELETE** runs the same kind of checks, then splices the first record with
  the given `_id` out of its project's sequence.

The project has three modules:

- `Issues` (`issues.dfy`): the record datatype and the pure operations the
  handlers apply to one project's sequence. It covers property lookup by JSON
  key (`Field`), the query filter (`Listing`), `findIndex`, `splice`
  (`RemoveAt`), the POST record (`NewIssue`) and the PUT partial overwrite
  (`ApplyUpdates`).
- `Handlers` (`handlers.dfy`): each handler as a pure function from the table
  and the request to a `Response` and the next table. It also holds the
  lemmas that relate the handlers: unique ids are preserved, a create then a
  list round-trips, a delete removes the id, and project keys are never
  removed.
- `Api` (`api.dfy`): class `IssueTracker`, whose field `issues` the handler
  methods reassign in place, as the source does. GET narrows its result one
  query key at a time in a loop. PUT writes the supplied properties in a loop
  guarded by the `noFieldsToUpdate` flag. Each method is proved equal to its
  `Handlers` function and keeps the invariant that every `_id` is unique.

Modelling decisions:

- A body or record value is `Str(string)` or `Bool(bool)`. A property that is
  absent (`undefined`) is `None`.
- "Missing" is JavaScript falsiness: absent, `""` or `false`.
- Query values are strings and are compared with strict equality. So a string
  filter never matches a boolean `open`, and a filter key that records do not
  carry matches nothing.
- The generated id and the clock readings are parameters. POST takes two clock
  readings because the source reads the clock twice (`api.js:45-46`). `Post`
  requires that the id is not already in the store.
- Where the service's written description differs from the code, the model
  follows the code:
  - "project not found" is answered only when the project key is absent. A
    project whose issues were all deleted still maps to an empty array, which
    is truthy, so PUT and DELETE then answer "issue not found".
  - `created_on` and `updated_on` of a new record need not be equal.
  - `open` is not always a boolean: PUT writes whatever value it receives.

## Model

| member | source | states |
|---|---|---|
| Issues.Field | api.js:20 | `issue[key]` is defined exactly for the nine keys a record carries |
| Issues.Listing | api.js:17-21 | the listing holds exactly the records of the sequence that match every filter key with strict equality, and is no longer than the sequence |
| Issues.ListingAppend | api.js:19-21 | filtering distributes over concatenation, so the listing keeps the stored order |
| Issues.ListingNoFilters | api.js:17-23 | a query with no keys returns the project's whole sequence unchanged |
| Issues.ListingRefine | api.js:19-21 | one more `filter` pass by a new key gives the listing by the old keys plus that key, so the loop's result does not depend on key order |
| Issues.ListingNoMatch | api.js:20 | a filter key that no record matches empties the listing |
| Issues.FindIndex | api.js:121 | `findIndex`: -1 exactly when no record has the id, otherwise the first index whose `_id` is strictly equal to the id |
| Issues.RemoveAt | api.js:124 | `splice(i, 1)`: the length drops by one, records before `i` stay, later records shift down one in order, and the multiset loses exactly the removed record |
| Issues.NewIssue | api.js:29-51 | a new record carries the generated id, both clock readings, the three required values, `open = true`, and `""` for an optional property only when it was not supplied |
| Issues.SetField | api.js:94 | `issue[key] = v` changes that one key and no other |
| Issues.ApplyUpdates | api.js:81-97 | exactly the supplied updatable properties take the sent values; every other key, including `_id` and the timestamps, keeps its value |
| Handlers.List | api.js:13-23 | an unknown project lists nothing; otherwise a record is listed if and only if it is in the project and matches every filter |
| Handlers.ListWithoutMatch | api.js:19-21 | an unknown filter key, or a value no record has under that key (such as a string for a boolean `open`), lists nothing |
| Handlers.Create | api.js:37-57 | refused, with the table unchanged, if and only if a required property is missing; otherwise the new record is appended to the project's sequence (created if absent) and no other project changes |
| Handlers.CreatePreservesUnique | api.js:41-57 | a create with a fresh id keeps every `_id` in the store unique |
| Handlers.CreateThenList | api.js:53-57 | right after a create, the unfiltered listing is the old sequence plus the new record, and listing by its `_id` gives that record exactly once |
| Handlers.Update | api.js:66-105 | the four checks run in order and the first failure wins, each leaving the table unchanged; on success the first record with the id is replaced in place by its update, with `updated_on` set to the new reading |
| Handlers.UpdatePreservesUnique | api.js:81-103 | an update keeps every `_id` in the store unique |
| Handlers.UpdateThenFind | api.js:74-103 | after an update the sequence has the same length and the same id finds the updated record at the same index |
| Handlers.Delete | api.js:112-128 | "missing _id", "project not found" and "issue not found" in that order, each leaving the table unchanged; otherwise the first record with the id is spliced out and the project key stays |
| Handlers.DeletePreservesUnique | api.js:121-124 | a delete keeps every `_id` in the store unique |
| Handlers.DeleteRemovesId | api.js:121-124 | with unique ids, after a delete no record with that id is left, the length drops by one, and only that record is gone |
| Handlers.EmptiedProject | api.js:116-127 | after its last record is deleted a project maps to `[]`: GET lists nothing, and later PUT and DELETE answer "issue not found" |
| Handlers.ProjectsPersist | api.js:53-55 | no handler removes a project key; only POST adds one |
| Api.IssueTracker.constructor | api.js:5 | the store starts as the empty table |
| Api.IssueTracker.Get | api.js:9-24 | the loop that narrows the result one query key at a time returns `Handlers.List` of the store |
| Api.IssueTracker.Post | api.js:26-60 | validate, then create the sequence on first use and push; the response and new store are `Handlers.Create` of the old store, and ids stay unique |
| Api.IssueTracker.Put | api.js:62-106 | checks, the field-writing loop with its `noFieldsToUpdate` flag, and the timestamp refresh; the response and new store are `Handlers.Update` of the old store, and ids stay unique |
| Api.IssueTracker.Delete | api.js:108-129 | checks, `findIndex` and `splice`; the response and new store are `Handlers.Delete` of the old store, and ids stay unique |

## Left out

- Express routing, `req`/`res`, HTTP status codes and JSON serialisation. Each `Response` constructor stands for one status/body pair, noted beside it in `handlers.dfy`.
- `uuidv4()` is a foreign library call. The id is a parameter, and `Post` requires it to be absent from the store.
- `new Date().toISOString()` reads the clock. The readings are string parameters, so the rule that `updated_on` is never earlier than `created_on` is not modelled.
- JSON values other than strings and booleans (numbers, `null`, arrays, objects) in request bodies. A query key repeated in the URL, which Express parses as an array, is also left out.
- Prototype-chain keys such as `__proto__` or `constructor`, as project names or filter keys.
- Aliasing between the records GET returns and the stored objects. The response is serialised at once, so the model returns values.
- Concurrency: the handlers run one at a time on a single thread.
