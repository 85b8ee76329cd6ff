/** The router's shared state and its four handlers, written as the source
    runs them: the `issues` object is a field the handlers update in place. */
module Api {
  import opened Issues
  import opened Handlers

  class IssueTracker {
    /** The `issues` object, project name to records. */
    var issues: Table

    /** Every `_id` in the store is unique. */
    ghost predicate Valid()
      reads this
    {
      Unique(issues)
    }

    /** `const issues = {}`. */
    constructor ()
      ensures Valid() && issues == map[]
    {
      issues := map[];
    }

    /** GET: start from the project's records and narrow them by one query key
        at a time, each pass keeping the records whose property is strictly
        equal to that key's value. */
    method Get(project: string, filters: map<string, string>) returns (r: seq<Issue>)
      ensures r == List(issues, project, filters)
    {
      if project !in issues {
        return [];
      }
      r := issues[project];
      ListingNoFilters(r);
      ghost var applied: map<string, string> := map[];
      var pending := filters.Keys;
      while pending != {}
        invariant pending <= filters.Keys
        invariant applied.Keys == filters.Keys - pending
        invariant forall key :: key in applied ==> applied[key] == filters[key]
        invariant r == Listing(issues[project], applied)
        decreases pending
      {
        var key :| key in pending;
        ListingRefine(issues[project], applied, key, filters[key]);
        r := Listing(r, map[key := filters[key]]);
        applied := applied[key := filters[key]];
        pending := pending - {key};
      }
      assert applied == filters;
    }

    /** POST: validate the three required properties, build the record with the
        generated id and the two clock readings, create the project's sequence
        on first use and push the record onto it. */
    method Post(project: string, req: CreateRequest, id: string, createdOn: string, updatedOn: string)
      returns (res: Response)
      requires Valid() && Fresh(issues, id)
      modifies this
      ensures Valid()
      ensures Step(res, issues) == Create(old(issues), project, req, id, createdOn, updatedOn)
    {
      if RequiredMissing(req) {
        return RequiredFieldsMissing;
      }
      var issue := NewIssue(req, id, createdOn, updatedOn);
      if project !in issues {
        issues := issues[project := []];
      }
      issues := issues[project := issues[project] + [issue]];
      res := Created(issue);
      CreatePreservesUnique(old(issues), project, req, id, createdOn, updatedOn);
    }

    /** PUT: the four checks in order, then every supplied updatable property is
        written onto the found record, clearing `noFieldsToUpdate`; if none was
        supplied the request is refused, otherwise `updated_on` is refreshed. */
    method Put(project: string, id: Option<Value>, u: Updates, now: string) returns (res: Response)
      requires Valid()
      modifies this
      ensures Valid()
      ensures Step(res, issues) == Update(old(issues), project, id, u, now)
    {
      if Missing(id) {
        return MissingId;
      }
      if project !in issues {
        return ProjectNotFound;
      }
      var projectIssues := issues[project];
      var k := FindIndex(projectIssues, id.value);
      if k == -1 {
        return IssueNotFound(id.value);
      }
      var issue := projectIssues[k];
      var noFieldsToUpdate := true;
      var i := 0;
      while i < |UpdatableKeys|
        invariant 0 <= i <= |UpdatableKeys|
        invariant noFieldsToUpdate <==> forall j :: 0 <= j < i ==> Supplied(u, UpdatableKeys[j]).None?
        invariant forall key :: Field(issue, key) == (if key in UpdatableKeys[..i] && Supplied(u, key).Some? then Supplied(u, key) else Field(projectIssues[k], key))
      {
        var key := UpdatableKeys[i];
        var v := Supplied(u, key);
        if v.Some? {
          issue := SetField(issue, key, v.value);
          noFieldsToUpdate := false;
        }
        assert UpdatableKeys[..i + 1] == UpdatableKeys[..i] + [key];
        i := i + 1;
      }
      assert UpdatableKeys[..i] == UpdatableKeys;
      if noFieldsToUpdate {
        assert NoneSupplied(u);
        return NoUpdateFields(id.value);
      }
      FieldsDetermineIssue(issue, ApplyUpdates(projectIssues[k], u));
      issue := issue.(updatedOn := now);
      issues := issues[project := projectIssues[k := issue]];
      res := Updated(issue);
      UpdatePreservesUnique(old(issues), project, id, u, now);
    }

    /** DELETE: the checks in order, then `splice` the first record with the
        id out of the project's sequence. */
    method Delete(project: string, id: Option<Value>) returns (res: Response)
      requires Valid()
      modifies this
      ensures Valid()
      ensures Step(res, issues) == Handlers.Delete(old(issues), project, id)
    {
      if Missing(id) {
        return MissingId;
      }
      if project !in issues {
        return ProjectNotFound;
      }
      var projectIssues := issues[project];
      var k := FindIndex(projectIssues, id.value);
      if k != -1 {
        issues := issues[project := RemoveAt(projectIssues, k)];
        DeletePreservesUnique(old(issues), project, id);
        return Deleted(id.value);
      } else {
        return IssueNotFound(id.value);
      }
    }
  }
}
