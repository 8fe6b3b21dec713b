/** The group-request store: a table of requests, a table of users each holding the ids of their requests, and
    one handler that keeps the user it last worked on. */
module GroupRequests {
  import opened Outcomes

  /** A row of the request table. */
  datatype Row = Row(id: string, group: string, status: string, justification: string, requestTime: int,
                     updatedBy: Option<string>, lastUpdated: int, username: string, comments: Option<string>)

  datatype User = User(username: string, requests: seq<string>)

  datatype State = State(requests: map<string, Row>, users: map<string, User>, affected: User)

  /** `get_or_create_user`, when the cached user is another one. */
  function Loaded(s: State, email: string): State {
    if s.affected.username == email then s
    else if email in s.users then s.(affected := s.users[email])
    else s.(users := s.users[email := User(email, [])], affected := User(email, []))
  }

  /** A handler opened over existing tables for a user, who is created if unknown. */
  function Opened(requests: map<string, Row>, users: map<string, User>, email: string): State {
    if email in users then State(requests, users, users[email])
    else State(requests, users[email := User(email, [])], User(email, []))
  }

  function Resolve(requests: map<string, Row>, ids: seq<string>): Result<seq<Row>> {
    if ids == [] then Ok([])
    else if ids[0] !in requests then Err(NoMatchingRequest)
    else
      var rest :- Resolve(requests, ids[1..]);
      Ok([requests[ids[0]]] + rest)
  }

  /** An empty group or status does not filter. */
  predicate Wanted(row: Row, group: string, status: string) {
    (group != "" ==> row.group == group) && (status != "" ==> row.status == status)
  }

  function Filtered(rows: seq<Row>, group: string, status: string): seq<Row> {
    if rows == [] then []
    else (if Wanted(rows[0], group, status) then [rows[0]] else []) + Filtered(rows[1..], group, status)
  }

  /** `get_requests_by_user` on the state it loads. */
  function RequestsByUser(s: State, email: string, group: string, status: string): Result<seq<Row>> {
    var rows :- Resolve(s.requests, Loaded(s, email).affected.requests);
    Ok(Filtered(rows, group, status))
  }

  datatype Review = Review(status: string, updatedBy: Option<string>, comments: Option<string>, now: int)

  function Reviewed(row: Row, review: Review): Row {
    row.(status := review.status, updatedBy := review.updatedBy, lastUpdated := review.now, comments := review.comments)
  }

  predicate LacksUpdater(review: Review) {
    review.status == "approved" && (review.updatedBy == None || review.updatedBy == Some(""))
  }

  function RowsOf(rows: seq<Row>, group: string): seq<Row> {
    if rows == [] then [] else (if rows[0].group == group then [rows[0]] else []) + RowsOf(rows[1..], group)
  }

  /** Writing back rows, reviewed. */
  function PutReviewed(requests: map<string, Row>, rows: seq<Row>, review: Review): map<string, Row>
    decreases rows
  {
    if rows == [] then requests
    else PutReviewed(requests[rows[0].id := Reviewed(rows[0], review)], rows[1..], review)
  }

  datatype Operation =
    | Lookup(email: string, group: string, status: string)
    | Add(email: string, group: string, justification: string, requestTime: int, status: string,
      updatedBy: Option<string>, id: string, now: int)
    | ChangeStatus(email: string, group: string, review: Review)
    | ChangeStatusById(id: string, review: Review)

  /** One operation: the new state, and the rows returned or the exception raised. */
  function Step(possible: seq<string>, s: State, op: Operation): (State, Result<seq<Row>>) {
    match op
    case Lookup(email, group, status) => (Loaded(s, email), RequestsByUser(s, email, group, status))
    case Add(email, group, justification, requestTime, status, updatedBy, id, now) =>
      var t := Loaded(s, email);
      var pending := RequestsByUser(t, email, group, "pending");
      if pending.Err? then (t, pending)
      else if pending.value != [] then (t, Err(PendingRequestAlreadyExists))
      else
        var time := if requestTime != 0 then requestTime else now;
        var row := Row(id, group, status, justification, time, updatedBy, now, email, None);
        var user := t.affected.(requests := t.affected.requests + [id]);
        (State(t.requests[id := row], t.users[user.username := user], user), Ok([row]))
    case ChangeStatus(email, group, review) =>
      var t := Loaded(s, email);
      if review.status !in possible then (t, Err(InvalidStatus))
      else if LacksUpdater(review) then (t, Err(UpdaterRequired))
      else
        var rows := RequestsByUser(t, email, "", "");
        if rows.Err? then (t, rows)
        else
          var mine := RowsOf(rows.value, group);
          if mine == [] then (t, Err(NoExistingRequest))
          else (t.(requests := PutReviewed(t.requests, mine, review)), Ok([Reviewed(mine[|mine| - 1], review)]))
    case ChangeStatusById(id, review) =>
      if LacksUpdater(review) then (s, Err(UpdaterRequired))
      else if id !in s.requests then (s, Err(NoMatchingRequest))
      else if review.status !in possible then (s, Err(InvalidStatus))
      else
        var row := Reviewed(s.requests[id], review);
        (s.(requests := s.requests[row.id := row]), Ok([row]))
  }

  /** The handler. `possible` is `POSSIBLE_STATUSES`. Absent texts are "". */
  class UserDynamoHandler {
    var requestsTable: map<string, Row>
    var usersTable: map<string, User>
    var affectedUser: User
    const possible: seq<string>

    constructor (requests: map<string, Row>, users: map<string, User>, possible: seq<string>, email: string)
      ensures this.possible == possible
      ensures View() == Opened(requests, users, email)
    {
      this.possible, requestsTable := possible, requests;
      affectedUser := if email in users then users[email] else User(email, []);
      usersTable := if email in users then users else users[email := User(email, [])];
    }

    function View(): State
      reads this
    {
      State(requestsTable, usersTable, affectedUser)
    }

    method LoadUser(email: string)
      modifies this
      ensures View() == Loaded(old(View()), email)
    {
      if affectedUser.username != email {
        if email !in usersTable { usersTable := usersTable[email := User(email, [])]; }
        affectedUser := usersTable[email];
      }
    }

    /** `resolve_request_ids`. */
    method ResolveRequestIds(ids: seq<string>) returns (r: Result<seq<Row>>)
      ensures r == Resolve(requestsTable, ids)
    {
      var requests: seq<Row> := [];
      assert ids[0..] == ids;
      PrependNothing(Resolve(requestsTable, ids));
      for i := 0 to |ids|
        invariant Resolve(requestsTable, ids) == Prepended(requests, Resolve(requestsTable, ids[i..]))
      {
        assert ids[i..][0] == ids[i] && ids[i..][1..] == ids[i + 1..];
        if ids[i] !in requestsTable { return Err(NoMatchingRequest); }
        PrependOne(requests, requestsTable[ids[i]], Resolve(requestsTable, ids[i + 1..]));
        requests := requests + [requestsTable[ids[i]]];
      }
      assert requests + [] == requests;
      return Ok(requests);
    }

    /** The filtering loop of `get_requests_by_user`. */
    static method FilterRows(existing: seq<Row>, group: string, status: string) returns (wanted: seq<Row>)
      ensures wanted == Filtered(existing, group, status)
    {
      wanted := [];
      assert existing[0..] == existing;
      FilteredStep([], 0, group, status);
      hide Filtered;
      for i := 0 to |existing|
        invariant Filtered(existing, group, status) == wanted + Filtered(existing[i..], group, status)
      {
        FilteredStep(existing, i, group, status);
        if group != "" && existing[i].group != group { continue; }
        if status != "" && existing[i].status != status { continue; }
        wanted := wanted + [existing[i]];
      }
      assert existing[|existing|..] == [];
    }

    /** `get_requests_by_user`. */
    method GetRequestsByUser(email: string, group: string, status: string) returns (r: Result<seq<Row>>)
      modifies this
      ensures (View(), r) == Step(possible, old(View()), Lookup(email, group, status))
    {
      LoadUser(email);
      var existing :- ResolveRequestIds(affectedUser.requests);
      var wanted := FilterRows(existing, group, status);
      return Ok(wanted);
    }

    /** `add_request_id_to_user`. */
    method AddRequestIdToUser(id: string)
      modifies `affectedUser, `usersTable
      ensures affectedUser == old(affectedUser).(requests := old(affectedUser).requests + [id])
      ensures usersTable == old(usersTable)[affectedUser.username := affectedUser]
    {
      affectedUser := affectedUser.(requests := affectedUser.requests + [id]);
      usersTable := usersTable[affectedUser.username := affectedUser];
    }

    /** `add_request`, drawing `id`. */
    method AddRequest(email: string, group: string, justification: string, requestTime: int, status: string,
                      updatedBy: Option<string>, id: string, now: int) returns (r: Result<seq<Row>>)
      modifies this
      ensures (View(), r) ==
        Step(possible, old(View()), Add(email, group, justification, requestTime, status, updatedBy, id, now))
    {
      LoadUser(email);
      ghost var t := View();
      var pending := GetRequestsByUser(email, group, "pending");
      assert View() == t;
      if pending.Err? { return pending; }
      var time := if requestTime != 0 then requestTime else now;
      var row := Row(id, group, status, justification, time, updatedBy, now, email, None);
      if pending.value != [] { return Err(PendingRequestAlreadyExists); }
      requestsTable := requestsTable[id := row];
      AddRequestIdToUser(id);
      return Ok([row]);
    }

    /** The loop of `change_request_status` over the user's rows; the last row written, if any. */
    method PutRowsOfGroup(rows: seq<Row>, group: string, review: Review) returns (modified: seq<Row>)
      modifies `requestsTable
      ensures requestsTable == PutReviewed(old(requestsTable), RowsOf(rows, group), review)
      ensures var mine := RowsOf(rows, group);
        modified == if mine == [] then [] else [Reviewed(mine[|mine| - 1], review)]
    {
      modified := [];
      assert rows[0..] == rows;
      for i := 0 to |rows|
        invariant PutReviewed(old(requestsTable), RowsOf(rows, group), review) ==
          PutReviewed(requestsTable, RowsOf(rows[i..], group), review)
        invariant var past := RowsOf(rows[..i], group);
          modified == if past == [] then [] else [Reviewed(past[|past| - 1], review)]
      {
        RowsOfStep(rows, i, group);
        ghost var later := RowsOf(rows[i + 1..], group);
        assert rows[i].group != group ==> RowsOf(rows[i..], group) == later;
        if rows[i].group == group {
          assert RowsOf(rows[i..], group)[0] == rows[i] && RowsOf(rows[i..], group)[1..] == later;
          modified := [Reviewed(rows[i], review)];
          requestsTable := requestsTable[rows[i].id := modified[0]];
        }
      }
      assert rows[..|rows|] == rows;
    }

    /** `change_request_status`. */
    method ChangeRequestStatus(email: string, group: string, review: Review) returns (r: Result<seq<Row>>)
      modifies this
      ensures (View(), r) == Step(possible, old(View()), ChangeStatus(email, group, review))
    {
      LoadUser(email);
      ghost var t := View();
      if review.status !in possible { return Err(InvalidStatus); }
      if LacksUpdater(review) { return Err(UpdaterRequired); }
      var existing := GetRequestsByUser(email, "", "");
      assert View() == t;
      if existing.Err? { return existing; }
      var modified := PutRowsOfGroup(existing.value, group, review);
      if modified == [] { return Err(NoExistingRequest); }
      return Ok(modified);
    }

    /** `change_request_status_by_id`. */
    method ChangeRequestStatusById(id: string, review: Review) returns (r: Result<seq<Row>>)
      modifies this
      ensures (View(), r) == Step(possible, old(View()), ChangeStatusById(id, review))
    {
      if LacksUpdater(review) { return Err(UpdaterRequired); }
      var requests := ResolveRequestIds([id]);
      assert Resolve(requestsTable, [id]).Ok? ==> Resolve(requestsTable, [id][1..]) == Ok([]);
      if requests.Err? { return requests; }
      if review.status !in possible { return Err(InvalidStatus); }
      var row := Reviewed(requests.value[0], review);
      requestsTable := requestsTable[row.id := row];
      return Ok([row]);
    }
  }

  function Prepended(xs: seq<Row>, r: Result<seq<Row>>): Result<seq<Row>> {
    if r.Ok? then Ok(xs + r.value) else r
  }

  lemma FilteredStep(rows: seq<Row>, i: nat, group: string, status: string)
    requires i <= |rows|
    ensures Filtered([], group, status) == []
    ensures i < |rows| ==>
              Filtered(rows[i..], group, status) == (if Wanted(rows[i], group, status) then [rows[i]] else []) +
                Filtered(rows[i + 1..], group, status)
  {
    if i < |rows| { assert rows[i..][0] == rows[i] && rows[i..][1..] == rows[i + 1..]; }
  }

  lemma PrependNothing(r: Result<seq<Row>>)
    ensures Prepended([], r) == r
  {
    if r.Ok? { assert [] + r.value == r.value; }
  }

  lemma PrependOne(xs: seq<Row>, x: Row, r: Result<seq<Row>>)
    ensures Prepended(xs, Prepended([x], r)) == Prepended(xs + [x], r)
  {
    if r.Ok? { assert (xs + [x]) + r.value == xs + ([x] + r.value); }
  }

  lemma {:induction false} RowsOfSplit(xs: seq<Row>, ys: seq<Row>, group: string)
    ensures RowsOf(xs + ys, group) == RowsOf(xs, group) + RowsOf(ys, group)
  {
    if xs == [] {
      assert xs + ys == ys;
    } else {
      var head := if xs[0].group == group then [xs[0]] else [];
      assert (xs + ys)[0] == xs[0] && (xs + ys)[1..] == xs[1..] + ys;
      RowsOfSplit(xs[1..], ys, group);
      assert RowsOf(xs + ys, group) == head + (RowsOf(xs[1..], group) + RowsOf(ys, group));
    }
  }

  lemma RowsOfStep(rows: seq<Row>, i: nat, group: string)
    requires i < |rows|
    ensures RowsOf(rows[i..], group) == (if rows[i].group == group then [rows[i]] else []) +
      RowsOf(rows[i + 1..], group)
    ensures RowsOf(rows[..i + 1], group) == RowsOf(rows[..i], group) +
      (if rows[i].group == group then [rows[i]] else [])
    ensures RowsOf(rows, group) == RowsOf(rows[..i + 1], group) + RowsOf(rows[i + 1..], group)
  {
    assert rows[i..][1..] == rows[i + 1..];
    assert rows[..i + 1] == rows[..i] + [rows[i]];
    assert RowsOf([rows[i]][1..], group) == [];
    RowsOfSplit(rows[..i], [rows[i]], group);
    assert rows == rows[..i + 1] + rows[i + 1..];
    RowsOfSplit(rows[..i + 1], rows[i + 1..], group);
  }
}
