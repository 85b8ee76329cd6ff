/** Issue records and the pure operations the route handlers apply to one
    project's sequence of records: property lookup, the query filter,
    `findIndex`, `splice` and the partial overwrite of a PUT body. */
module Issues {

  datatype Option<T> = None | Some(value: T)

  /** A scalar held by a request body or a stored record. The model keeps the
      two JSON kinds the handlers produce and test: strings and booleans. */
  datatype Value = Str(s: string) | Bool(b: bool)

  /** JavaScript falsiness of a body property that may be absent: `undefined`,
      the empty string and `false` count as missing. */
  predicate Missing(v: Option<Value>) {
    v.None? || v.value == Str("") || v.value == Bool(false)
  }

  /** One stored issue. `_id` is the generated string and the two timestamps are
      the strings the clock produced; the six user properties hold whatever
      value was last written to them. */
  datatype Issue = Issue(
    id: string,
    title: Value,
    text: Value,
    createdOn: string,
    updatedOn: string,
    createdBy: Value,
    assignedTo: Value,
    open: Value,
    statusText: Value)

  /** The JSON keys a record carries. */
  const IssueKeys: set<string> :=
    {"_id", "issue_title", "issue_text", "created_on", "updated_on",
     "created_by", "assigned_to", "open", "status_text"}

  /** `issue[key]`: the property under a JSON key, None (`undefined`) for a key
      the record does not have. */
  function Field(issue: Issue, key: string): (r: Option<Value>)
    ensures r.Some? <==> key in IssueKeys
  {
    if key == "_id" then Some(Str(issue.id))
    else if key == "issue_title" then Some(issue.title)
    else if key == "issue_text" then Some(issue.text)
    else if key == "created_on" then Some(Str(issue.createdOn))
    else if key == "updated_on" then Some(Str(issue.updatedOn))
    else if key == "created_by" then Some(issue.createdBy)
    else if key == "assigned_to" then Some(issue.assignedTo)
    else if key == "open" then Some(issue.open)
    else if key == "status_text" then Some(issue.statusText)
    else None
  }

  /** Two records that agree on every key are the same record. */
  lemma FieldsDetermineIssue(a: Issue, b: Issue)
    requires forall key :: Field(a, key) == Field(b, key)
    ensures a == b
  {
    assert Field(a, "_id") == Field(b, "_id");
    assert Field(a, "issue_title") == Field(b, "issue_title");
    assert Field(a, "issue_text") == Field(b, "issue_text");
    assert Field(a, "created_on") == Field(b, "created_on");
    assert Field(a, "updated_on") == Field(b, "updated_on");
    assert Field(a, "created_by") == Field(b, "created_by");
    assert Field(a, "assigned_to") == Field(b, "assigned_to");
    assert Field(a, "open") == Field(b, "open");
    assert Field(a, "status_text") == Field(b, "status_text");
  }

  // ---------------------------------------------------------------------------
  // GET: the query filter

  /** The filter callback for a whole query at once: for every query key, the
      record's property is strictly equal (same type) to the query's string. */
  predicate MatchesAll(issue: Issue, filters: map<string, string>) {
    forall key :: key in filters ==> Field(issue, key) == Some(Str(filters[key]))
  }

  /** The records of `s` that match every filter, in stored order. One
      `Array.prototype.filter` pass with a single key is `Listing(s, map[key := v])`. */
  function Listing(s: seq<Issue>, filters: map<string, string>): (r: seq<Issue>)
    ensures |r| <= |s|
    ensures forall x :: x in r <==> x in s && MatchesAll(x, filters)
  {
    if s == [] then []
    else (if MatchesAll(s[0], filters) then [s[0]] else []) + Listing(s[1..], filters)
  }

  /** Listing distributes over concatenation, so it keeps the stored order. */
  lemma {:induction false} ListingAppend(a: seq<Issue>, b: seq<Issue>, filters: map<string, string>)
    ensures Listing(a + b, filters) == Listing(a, filters) + Listing(b, filters)
  {
    if a == [] {
      assert a + b == b;
    } else {
      var head := if MatchesAll(a[0], filters) then [a[0]] else [];
      assert (a + b)[0] == a[0];
      assert (a + b)[1..] == a[1..] + b;
      ListingAppend(a[1..], b, filters);
      calc {
        Listing(a + b, filters);
        head + Listing(a[1..] + b, filters);
        head + (Listing(a[1..], filters) + Listing(b, filters));
        (head + Listing(a[1..], filters)) + Listing(b, filters);
      }
    }
  }

  /** A query without keys returns the whole sequence. */
  lemma {:induction false} ListingNoFilters(s: seq<Issue>)
    ensures Listing(s, map[]) == s
  {
    if s != [] {
      ListingNoFilters(s[1..]);
    }
  }

  /** Filtering by one more key after a listing is the listing by both. */
  lemma {:induction false} ListingRefine(s: seq<Issue>, filters: map<string, string>, key: string, v: string)
    requires key !in filters
    ensures Listing(Listing(s, filters), map[key := v]) == Listing(s, filters[key := v])
  {
    if s != [] {
      var more := filters[key := v];
      assert MatchesAll(s[0], more) <==> MatchesAll(s[0], filters) && MatchesAll(s[0], map[key := v]) by {
        if MatchesAll(s[0], filters) && MatchesAll(s[0], map[key := v]) {
          forall k | k in more ensures Field(s[0], k) == Some(Str(more[k])) {
            if k == key {
              assert k in map[key := v];
            } else {
              assert k in filters;
            }
          }
        }
        if MatchesAll(s[0], more) {
          forall k | k in map[key := v] ensures Field(s[0], k) == Some(Str(map[key := v][k])) {
            assert k in more;
          }
          forall k | k in filters ensures Field(s[0], k) == Some(Str(filters[k])) {
            assert k in more;
          }
        }
      }
      var head := if MatchesAll(s[0], filters) then [s[0]] else [];
      ListingAppend(head, Listing(s[1..], filters), map[key := v]);
      ListingRefine(s[1..], filters, key, v);
    }
  }

  /** A query key that no record carries (or a string value for a property that
      is not a string) leaves nothing in the listing. */
  lemma ListingNoMatch(s: seq<Issue>, filters: map<string, string>, key: string)
    requires key in filters
    requires forall x :: x in s ==> Field(x, key) != Some(Str(filters[key]))
    ensures Listing(s, filters) == []
  {
  }

  // ---------------------------------------------------------------------------
  // find / findIndex / splice

  /** The callback `issue._id === id`: strict equality with the request's `_id`. */
  predicate HasId(issue: Issue, id: Value) {
    Str(issue.id) == id
  }

  /** `findIndex(issue => issue._id === id)`: the first index with that id, or -1.
      `find` in the PUT handler returns the record at this index. */
  function FindIndex(s: seq<Issue>, id: Value): (r: int)
    ensures -1 <= r < |s|
    ensures r == -1 <==> forall j :: 0 <= j < |s| ==> !HasId(s[j], id)
    ensures 0 <= r ==> HasId(s[r], id) && forall j :: 0 <= j < r ==> !HasId(s[j], id)
  {
    if s == [] then -1
    else if HasId(s[0], id) then 0
    else
      var k := FindIndex(s[1..], id);
      if k == -1 then -1 else k + 1
  }

  /** `splice(i, 1)`: the sequence without its element at `i`, the others in
      their original relative order. */
  function RemoveAt(s: seq<Issue>, i: nat): (r: seq<Issue>)
    requires i < |s|
    ensures |r| == |s| - 1
    ensures forall j :: 0 <= j < i ==> r[j] == s[j]
    ensures forall j :: i <= j < |r| ==> r[j] == s[j + 1]
    ensures multiset(r) + multiset{s[i]} == multiset(s)
  {
    assert s == s[..i] + [s[i]] + s[i + 1..];
    s[..i] + s[i + 1..]
  }

  // ---------------------------------------------------------------------------
  // POST: a new record

  /** The properties a POST body may carry; None is `undefined`. */
  datatype CreateRequest = CreateRequest(
    title: Option<Value>,
    text: Option<Value>,
    createdBy: Option<Value>,
    assignedTo: Option<Value>,
    statusText: Option<Value>)

  /** The presence check on the three required properties. */
  predicate RequiredMissing(req: CreateRequest) {
    Missing(req.title) || Missing(req.text) || Missing(req.createdBy)
  }

  /** A destructuring default `= ''`: it replaces `undefined` only. */
  function OrEmpty(v: Option<Value>): Value {
    if v.Some? then v.value else Str("")
  }

  /** The record a valid POST body produces, with the generated id and the two
      clock readings. */
  function NewIssue(req: CreateRequest, id: string, createdOn: string, updatedOn: string): (r: Issue)
    requires !RequiredMissing(req)
    ensures r.id == id && r.createdOn == createdOn && r.updatedOn == updatedOn
    ensures r.open == Bool(true)
    ensures Some(r.title) == req.title && Some(r.text) == req.text && Some(r.createdBy) == req.createdBy
    ensures req.assignedTo.None? ==> r.assignedTo == Str("")
    ensures req.assignedTo.Some? ==> Some(r.assignedTo) == req.assignedTo
    ensures req.statusText.None? ==> r.statusText == Str("")
    ensures req.statusText.Some? ==> Some(r.statusText) == req.statusText
  {
    Issue(id, req.title.value, req.text.value, createdOn, updatedOn,
          req.createdBy.value, OrEmpty(req.assignedTo), Bool(true), OrEmpty(req.statusText))
  }

  // ---------------------------------------------------------------------------
  // PUT: the partial overwrite

  /** The `updates` object of a PUT: the six updatable properties of the body;
      None is `undefined`, any other value (including "" and false) is written. */
  datatype Updates = Updates(
    title: Option<Value>,
    text: Option<Value>,
    createdBy: Option<Value>,
    assignedTo: Option<Value>,
    statusText: Option<Value>,
    open: Option<Value>)

  /** The keys of `updates`, in the order the handler visits them. */
  const UpdatableKeys: seq<string> :=
    ["issue_title", "issue_text", "created_by", "assigned_to", "status_text", "open"]

  /** `updates[key]`. */
  function Supplied(u: Updates, key: string): Option<Value> {
    if key == "issue_title" then u.title
    else if key == "issue_text" then u.text
    else if key == "created_by" then u.createdBy
    else if key == "assigned_to" then u.assignedTo
    else if key == "status_text" then u.statusText
    else if key == "open" then u.open
    else None
  }

  /** No updatable property was sent. */
  predicate NoneSupplied(u: Updates) {
    forall key :: key in UpdatableKeys ==> Supplied(u, key).None?
  }

  /** `issue[key] = v` for one of the updatable keys. */
  function SetField(issue: Issue, key: string, v: Value): (r: Issue)
    requires key in UpdatableKeys
    ensures forall k :: Field(r, k) == if k == key then Some(v) else Field(issue, k)
  {
    if key == "issue_title" then issue.(title := v)
    else if key == "issue_text" then issue.(text := v)
    else if key == "created_by" then issue.(createdBy := v)
    else if key == "assigned_to" then issue.(assignedTo := v)
    else if key == "status_text" then issue.(statusText := v)
    else issue.(open := v)
  }

  /** The value an optional update leaves in a property. */
  function Overwrite(v: Option<Value>, current: Value): Value {
    if v.Some? then v.value else current
  }

  /** The record after every supplied updatable property is overwritten: exactly
      the supplied properties change, every other key keeps its value. */
  function ApplyUpdates(issue: Issue, u: Updates): (r: Issue)
    ensures forall key :: Field(r, key) == (if key in UpdatableKeys && Supplied(u, key).Some? then Supplied(u, key) else Field(issue, key))
  {
    Issue(issue.id,
          Overwrite(u.title, issue.title),
          Overwrite(u.text, issue.text),
          issue.createdOn,
          issue.updatedOn,
          Overwrite(u.createdBy, issue.createdBy),
          Overwrite(u.assignedTo, issue.assignedTo),
          Overwrite(u.open, issue.open),
          Overwrite(u.statusText, issue.statusText))
  }
}
