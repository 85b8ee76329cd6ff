/** The four route handlers of `/api/issues/:project` as pure functions from
    the `issues` table (and the request) to a response and the next table,
    with the properties that relate them. */
module Handlers {
  import opened Issues

  /** The `issues` object: project name to that project's records, in the
      order they were created. */
  type Table = map<string, seq<Issue>>

  /** What a handler answers; the comment gives the HTTP status and body. */
  datatype Response =
    | Created(issue: Issue)            // 200, the new record
    | Updated(issue: Issue)            // 200, {result: "successfully updated", issue}
    | Deleted(id: Value)               // 200, {result: "successfully deleted", id}
    | RequiredFieldsMissing            // 400, {error: "required field(s) missing"}
    | MissingId                        // 400, {error: "missing _id"}
    | NoUpdateFields(id: Value)        // 400, {error: "no update field(s) sent", _id}
    | ProjectNotFound                  // 404, {error: "project not found"}
    | IssueNotFound(id: Value)         // 404, {error: "issue not found", id}

  /** A handler's answer together with the table it leaves behind. */
  datatype Step = Step(response: Response, table: Table)

  /** The records of a project, empty for a project never created. */
  function IssuesOf(t: Table, project: string): seq<Issue> {
    if project in t then t[project] else []
  }

  /** No two records anywhere in the table share an `_id`. */
  ghost predicate Unique(t: Table) {
    forall p, i, q, j ::
      p in t && q in t && 0 <= i < |t[p]| && 0 <= j < |t[q]| && t[p][i].id == t[q][j].id
      ==> p == q && i == j
  }

  /** No record in the table has this `_id`. */
  ghost predicate Fresh(t: Table, id: string) {
    forall p, i :: p in t && 0 <= i < |t[p]| ==> t[p][i].id != id
  }

  // ---------------------------------------------------------------------------
  // GET

  /** GET: an unknown project lists nothing; otherwise exactly the project's
      records that match every query key, in stored order (see `Listing`). */
  function List(t: Table, project: string, filters: map<string, string>): (r: seq<Issue>)
    ensures project !in t ==> r == []
    ensures forall x :: x in r <==> project in t && x in t[project] && MatchesAll(x, filters)
  {
    if project !in t then [] else Listing(t[project], filters)
  }

  /** An unknown query key, or a string query on a property whose stored value
      is not that string (a boolean `open`, say), lists nothing. */
  lemma {:induction false} ListWithoutMatch(t: Table, project: string, filters: map<string, string>, key: string)
    requires key in filters
    requires key !in IssueKeys || (project in t && forall x :: x in t[project] ==> Field(x, key) != Some(Str(filters[key])))
    ensures List(t, project, filters) == []
  {
    if project in t {
      ListingNoMatch(t[project], filters, key);
    }
  }

  // ---------------------------------------------------------------------------
  // POST

  /** POST: a body missing a required property is refused and the table is
      untouched; otherwise the new record is appended to the project's
      sequence, which is created on first use, and no other project changes. */
  function Create(t: Table, project: string, req: CreateRequest, id: string, createdOn: string, updatedOn: string): (r: Step)
    ensures r.response.RequiredFieldsMissing? <==> RequiredMissing(req)
    ensures RequiredMissing(req) ==> r.table == t
    ensures !RequiredMissing(req) ==>
      r.response == Created(NewIssue(req, id, createdOn, updatedOn)) &&
      r.table.Keys == t.Keys + {project} &&
      (forall p :: p in t && p != project ==> r.table[p] == t[p]) &&
      r.table[project] == IssuesOf(t, project) + [r.response.issue]
  {
    if RequiredMissing(req) then Step(RequiredFieldsMissing, t)
    else
      var issue := NewIssue(req, id, createdOn, updatedOn);
      Step(Created(issue), t[project := IssuesOf(t, project) + [issue]])
  }

  /** A create with a fresh id keeps every `_id` in the table unique. */
  lemma CreatePreservesUnique(t: Table, project: string, req: CreateRequest, id: string, createdOn: string, updatedOn: string)
    requires Unique(t) && Fresh(t, id)
    ensures Unique(Create(t, project, req, id, createdOn, updatedOn).table)
  {
  }

  /** Round trip: right after a create, the unfiltered listing is the old
      sequence plus the new record, and the listing by its `_id` is that one
      record alone, so it appears exactly once. */
  lemma CreateThenList(t: Table, project: string, req: CreateRequest, id: string, createdOn: string, updatedOn: string)
    requires Fresh(t, id) && !RequiredMissing(req)
    ensures var r := Create(t, project, req, id, createdOn, updatedOn);
      List(r.table, project, map[]) == IssuesOf(t, project) + [r.response.issue] &&
      List(r.table, project, map["_id" := id]) == [r.response.issue]
  {
    var r := Create(t, project, req, id, createdOn, updatedOn);
    var s := IssuesOf(t, project);
    var issue := r.response.issue;
    ListingNoFilters(s + [issue]);
    var byId := map["_id" := id];
    ListingAppend(s, [issue], byId);
    assert Listing(s, byId) == [] by {
      forall x | x in s ensures Field(x, "_id") != Some(Str(byId["_id"])) {
        var i :| 0 <= i < |s| && s[i] == x;
        assert t[project][i].id != id;
      }
      ListingNoMatch(s, byId, "_id");
    }
    assert MatchesAll(issue, byId);
    assert Listing([issue], byId) == [issue] + Listing([], byId);
  }

  // ---------------------------------------------------------------------------
  // PUT

  /** The record `updated` is `before` after a PUT: the supplied updatable
      properties hold the sent values, the others are as before, `_id` and
      `created_on` are kept and `updated_on` is the new clock reading. */
  predicate IsUpdateOf(updated: Issue, before: Issue, u: Updates, now: string) {
    (forall key :: key in UpdatableKeys ==>
      Field(updated, key) == (if Supplied(u, key).Some? then Supplied(u, key) else Field(before, key)))
    && updated.id == before.id && updated.createdOn == before.createdOn && updated.updatedOn == now
  }

  /** PUT: the checks run in a fixed order and the first failure wins; any
      failure leaves the table untouched. A success overwrites the first record
      with the id in place and nothing else. */
  function Update(t: Table, project: string, id: Option<Value>, u: Updates, now: string): (r: Step)
    ensures Missing(id) ==> r.response == MissingId
    ensures !Missing(id) && project !in t ==> r.response == ProjectNotFound
    ensures !Missing(id) && project in t && FindIndex(t[project], id.value) == -1 ==>
      r.response == IssueNotFound(id.value)
    ensures !Missing(id) && project in t && FindIndex(t[project], id.value) >= 0 && NoneSupplied(u) ==>
      r.response == NoUpdateFields(id.value)
    ensures r.response.Updated? <==>
      !Missing(id) && project in t && FindIndex(t[project], id.value) >= 0 && !NoneSupplied(u)
    ensures !r.response.Updated? ==> r.table == t
    ensures r.response.Updated? ==>
      var s := t[project];
      var i := FindIndex(s, id.value);
      r.table == t[project := s[i := r.response.issue]] && IsUpdateOf(r.response.issue, s[i], u, now)
  {
    if Missing(id) then Step(MissingId, t)
    else if project !in t then Step(ProjectNotFound, t)
    else
      var s := t[project];
      var i := FindIndex(s, id.value);
      if i == -1 then Step(IssueNotFound(id.value), t)
      else if NoneSupplied(u) then Step(NoUpdateFields(id.value), t)
      else
        var issue := ApplyUpdates(s[i], u).(updatedOn := now);
        Step(Updated(issue), t[project := s[i := issue]])
  }

  /** An update keeps every `_id` in the table unique. */
  lemma UpdatePreservesUnique(t: Table, project: string, id: Option<Value>, u: Updates, now: string)
    requires Unique(t)
    ensures Unique(Update(t, project, id, u, now).table)
  {
  }

  /** After a successful update the same `_id` finds the same record, now
      holding the updated values, at the same index. */
  lemma UpdateThenFind(t: Table, project: string, id: Option<Value>, u: Updates, now: string)
    requires Update(t, project, id, u, now).response.Updated?
    ensures var r := Update(t, project, id, u, now);
      var i := FindIndex(t[project], id.value);
      |r.table[project]| == |t[project]| &&
      FindIndex(r.table[project], id.value) == i && r.table[project][i] == r.response.issue
  {
    var r := Update(t, project, id, u, now);
    var s := t[project];
    var i := FindIndex(s, id.value);
    var s' := r.table[project];
    assert forall j :: 0 <= j < |s| ==> s'[j].id == s[j].id;
  }

  // ---------------------------------------------------------------------------
  // DELETE

  /** DELETE: the same checks as PUT up to "issue not found", each leaving the
      table untouched; a success removes the first record with the id from
      its project's sequence, keeping the project key. */
  function Delete(t: Table, project: string, id: Option<Value>): (r: Step)
    ensures Missing(id) ==> r.response == MissingId
    ensures !Missing(id) && project !in t ==> r.response == ProjectNotFound
    ensures !Missing(id) && project in t && FindIndex(t[project], id.value) == -1 ==>
      r.response == IssueNotFound(id.value)
    ensures r.response.Deleted? <==> !Missing(id) && project in t && FindIndex(t[project], id.value) >= 0
    ensures !r.response.Deleted? ==> r.table == t
    ensures r.response.Deleted? ==>
      r.response.id == id.value && r.table == t[project := RemoveAt(t[project], FindIndex(t[project], id.value))]
  {
    if Missing(id) then Step(MissingId, t)
    else if project !in t then Step(ProjectNotFound, t)
    else
      var s := t[project];
      var i := FindIndex(s, id.value);
      if i != -1 then Step(Deleted(id.value), t[project := RemoveAt(s, i)])
      else Step(IssueNotFound(id.value), t)
  }

  /** A delete keeps every `_id` in the table unique. */
  lemma DeletePreservesUnique(t: Table, project: string, id: Option<Value>)
    requires Unique(t)
    ensures Unique(Delete(t, project, id).table)
  {
  }

  /** With unique ids, a successful delete removes the only record with the
      id: it is gone from the project, whose length drops by one. */
  lemma DeleteRemovesId(t: Table, project: string, id: Option<Value>)
    requires Unique(t)
    requires Delete(t, project, id).response.Deleted?
    ensures var r := Delete(t, project, id);
      |r.table[project]| == |t[project]| - 1 &&
      FindIndex(r.table[project], id.value) == -1 &&
      multiset(r.table[project]) + multiset{t[project][FindIndex(t[project], id.value)]} == multiset(t[project])
  {
  }

  // ---------------------------------------------------------------------------
  // Project keys

  /** A project key, once created, is never removed. After its last record is
      deleted, the project maps to the empty sequence: GET lists nothing, and
      PUT and DELETE with an id report "issue not found", not "project not found". */
  lemma EmptiedProject(t: Table, project: string, x: Issue, id: Option<Value>, u: Updates, now: string,
                       filters: map<string, string>, other: Option<Value>)
    requires project in t && t[project] == [x]
    requires Delete(t, project, id).response.Deleted?
    requires !Missing(other)
    ensures var t' := Delete(t, project, id).table;
      project in t' && t'[project] == [] &&
      List(t', project, filters) == [] &&
      Update(t', project, other, u, now).response == IssueNotFound(other.value) &&
      Delete(t', project, other).response == IssueNotFound(other.value)
  {
  }

  /** No handler ever removes a project key. */
  lemma ProjectsPersist(t: Table, project: string, req: CreateRequest, newId: string, createdOn: string,
                        updatedOn: string, id: Option<Value>, u: Updates, now: string)
    ensures t.Keys <= Create(t, project, req, newId, createdOn, updatedOn).table.Keys
    ensures t.Keys == Update(t, project, id, u, now).table.Keys
    ensures t.Keys == Delete(t, project, id).table.Keys
  {
  }
}
