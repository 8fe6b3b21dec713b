/** Over every run through one handler, each user's list of ids is an exact index into the request table. */
module GroupRequestIndex {
  import opened GroupRequests
  import opened Outcomes

  ghost predicate Distinct(ids: seq<string>) {
    forall i, j :: 0 <= i < j < |ids| ==> ids[i] != ids[j]
  }

  /** User `u`'s list holds, without repeats, exactly the ids of the rows that name `u`. */
  ghost predicate IndexOf(s: State, u: string)
    requires u in s.users
  {
    && s.users[u].username == u
    && Distinct(s.users[u].requests)
    && forall id :: id in s.users[u].requests <==> id in s.requests && s.requests[id].username == u
  }

  /** The invariant: rows under their own ids, for known users; exact indexes; a cached user as fresh as the table. */
  ghost predicate Indexed(s: State) {
    && (forall id :: id in s.requests ==> s.requests[id].id == id && s.requests[id].username in s.users)
    && (forall u :: u in s.users ==> IndexOf(s, u))
    && s.affected.username in s.users && s.users[s.affected.username] == s.affected
  }

  lemma LoadedKeeps(s: State, email: string)
    requires Indexed(s)
    ensures Indexed(Loaded(s, email)) && Loaded(s, email).affected.username == email
    ensures Loaded(s, email).requests == s.requests
    ensures Loaded(Loaded(s, email), email) == Loaded(s, email)
  {
    var t := Loaded(s, email);
    forall u | u in t.users ensures IndexOf(t, u) {
      if u in s.users { assert IndexOf(s, u); }
    }
  }

  /** Resolving ids that are all in the table never fails, and yields their rows in order. */
  lemma {:induction false} ResolveFinds(requests: map<string, Row>, ids: seq<string>)
    requires forall id :: id in ids ==> id in requests
    ensures Resolve(requests, ids).Ok? && |Resolve(requests, ids).value| == |ids|
    ensures forall i :: 0 <= i < |ids| ==> Resolve(requests, ids).value[i] == requests[ids[i]]
  {
    if ids == [] {
    } else {
      assert forall id :: id in ids[1..] ==> id in ids;
      assert ids[0] in ids;
      ResolveFinds(requests, ids[1..]);
    }
  }

  lemma {:induction false} FilteredHolds(rows: seq<Row>, group: string, status: string, row: Row)
    ensures row in Filtered(rows, group, status) <==> row in rows && Wanted(row, group, status)
  {
    if rows == [] {
    } else {
      assert row in rows <==> row == rows[0] || row in rows[1..];
      FilteredHolds(rows[1..], group, status, row);
    }
  }

  ghost predicate DistinctIds(rows: seq<Row>) {
    forall i, j :: 0 <= i < j < |rows| ==> rows[i].id != rows[j].id
  }

  lemma {:induction false} FilteredDistinct(rows: seq<Row>, group: string, status: string)
    requires DistinctIds(rows)
    ensures DistinctIds(Filtered(rows, group, status))
  {
    if rows == [] {
    } else {
      FilteredDistinct(rows[1..], group, status);
      forall row | row in Filtered(rows[1..], group, status) ensures row.id != rows[0].id {
        FilteredHolds(rows[1..], group, status, row);
        var k :| 0 <= k < |rows[1..]| && rows[1..][k] == row;
        assert rows[k + 1] == row;
      }
      var rest, out := Filtered(rows[1..], group, status), Filtered(rows, group, status);
      assert out == rest || out == [rows[0]] + rest;
      forall i, j | 0 <= i < j < |out| ensures out[i].id != out[j].id {
        if out != rest {
          assert out == [rows[0]] + rest;
          assert out[j] == rest[j - 1] && rest[j - 1] in rest;
          if i > 0 { assert out[i] == rest[i - 1] && rest[i - 1].id != rest[j - 1].id; }
        }
      }
    }
  }

  /** The rows of a user: all of them, each once. */
  lemma RowsOfUser(s: State, email: string) returns (rows: seq<Row>)
    requires Indexed(s)
    ensures Resolve(s.requests, Loaded(s, email).affected.requests) == Ok(rows)
    ensures forall row :: row in rows <==> row.id in s.requests && s.requests[row.id] == row && row.username == email
    ensures DistinctIds(rows)
  {
    LoadedKeeps(s, email);
    var t := Loaded(s, email);
    assert IndexOf(t, email);
    ResolveFinds(s.requests, t.affected.requests);
    rows := Resolve(s.requests, t.affected.requests).value;
    forall row: Row | row.id in s.requests && s.requests[row.id] == row && row.username == email ensures row in rows {
      var k :| 0 <= k < |t.affected.requests| && t.affected.requests[k] == row.id;
      assert rows[k] == row;
    }
    forall i, j | 0 <= i < j < |rows| ensures rows[i].id != rows[j].id {
      assert rows[i].id == t.affected.requests[i] && rows[j].id == t.affected.requests[j];
    }
  }

  /** Looking requests up never fails, and answers as a direct filter of the table by user, group and status. */
  lemma LookupIsDirectFilter(s: State, email: string, group: string, status: string)
    requires Indexed(s)
    ensures RequestsByUser(s, email, group, status).Ok?
    ensures var out := RequestsByUser(s, email, group, status).value;
      && (forall row :: row in out <==>
        row.id in s.requests && s.requests[row.id] == row && row.username == email && Wanted(row, group, status))
      && DistinctIds(out)
  {
    var rows := RowsOfUser(s, email);
    FilteredDistinct(rows, group, status);
    assert RequestsByUser(s, email, group, status) == Ok(Filtered(rows, group, status));
    forall row ensures row in Filtered(rows, group, status) <==> row in rows && Wanted(row, group, status) {
      FilteredHolds(rows, group, status, row);
    }
  }

  /** The rows that pass a filter, in the order they had. */
  lemma {:induction false} FilteredPlaces(rows: seq<Row>, group: string, status: string) returns (places: seq<nat>)
    ensures |places| == |Filtered(rows, group, status)|
    ensures forall x {:trigger places[x]} :: 0 <= x < |places| ==>
              places[x] < |rows| && Filtered(rows, group, status)[x] == rows[places[x]]
    ensures forall x, y :: 0 <= x < y < |places| ==> places[x] < places[y]
  {
    if rows == [] {
      places := [];
    } else {
      var rest := FilteredPlaces(rows[1..], group, status);
      var moved := seq(|rest|, x requires 0 <= x < |rest| => rest[x] + 1);
      assert forall x :: 0 <= x < |moved| ==> moved[x] == rest[x] + 1 && rows[moved[x]] == rows[1..][rest[x]];
      places := if Wanted(rows[0], group, status) then [0] + moved else moved;
      assert Filtered(rows, group, status) ==
        (if Wanted(rows[0], group, status) then [rows[0]] else []) + Filtered(rows[1..], group, status);
      hide Wanted, Filtered;
    }
  }

  /** A group and a status ask for the row; an empty one asks for any. */
  ghost predicate AskedFor(row: Row, email: string, group: string, status: string) {
    row.username == email && (group == "" || row.group == group) && (status == "" || row.status == status)
  }

  /** The handler has turned to the user, who was made if unknown; nothing else has changed. */
  ghost predicate TurnedTo(s: State, t: State, email: string) {
    && t.users == (if email in s.users then s.users else s.users[email := User(email, [])])
    && t.affected == t.users[email]
  }

  predicate At(ids: seq<string>, x: int, id: string) {
    0 <= x < |ids| && ids[x] == id
  }

  /** The ids stand in the user's list in the order of the rows. */
  ghost predicate InListedOrder(rows: seq<Row>, ids: seq<string>) {
    forall i, j, x, y :: 0 <= i < j < |rows| && At(ids, x, rows[i].id) && At(ids, y, rows[j].id) ==> x < y
  }

  lemma LoadedTurns(s: State, email: string)
    requires Indexed(s)
    ensures TurnedTo(s, Loaded(s, email), email)
  {
    LoadedKeeps(s, email);
    if s.affected.username == email { assert email in s.users; }
  }

  /** A lookup gives exactly the user's rows asked for, each once and in the order of the user's list, and changes no
      row. */
  lemma LookupIsExact(possible: seq<string>, s: State, email: string, group: string, status: string)
    requires Indexed(s)
    ensures var (t, r) := Step(possible, s, Lookup(email, group, status));
      && r.Ok? && t.requests == s.requests && TurnedTo(s, t, email)
      && (forall row :: row in r.value <==>
           row.id in s.requests && s.requests[row.id] == row && AskedFor(row, email, group, status))
      && DistinctIds(r.value) && InListedOrder(r.value, t.users[email].requests)
  {
    LoadedKeeps(s, email);
    LoadedTurns(s, email);
    LookupIsDirectFilter(s, email, group, status);
    var t := Loaded(s, email);
    var rows := RowsOfUser(s, email);
    assert IndexOf(t, email);
    ResolveFinds(s.requests, t.affected.requests);
    var places := FilteredPlaces(rows, group, status);
    var out, ids := RequestsByUser(s, email, group, status).value, t.users[email].requests;
    forall i, j, x, y | 0 <= i < j < |out| && At(ids, x, out[i].id) && At(ids, y, out[j].id) ensures x < y {
      assert places[i] < places[j];
      assert rows[places[i]].id == ids[places[i]] && rows[places[j]].id == ids[places[j]];
      assert x == places[i] && y == places[j];
    }
  }

  lemma {:induction false} RowsOfHolds(rows: seq<Row>, group: string, row: Row)
    ensures row in RowsOf(rows, group) <==> row in rows && row.group == group
  {
    if rows == [] {
    } else {
      assert row in rows <==> row == rows[0] || row in rows[1..];
      RowsOfHolds(rows[1..], group, row);
    }
  }

  /** Writing reviewed rows back changes those rows and no others. */
  lemma {:induction false} PutReviewedIs(requests: map<string, Row>, rows: seq<Row>, review: Review,
      orig: map<string, Row>)
    requires forall row :: row in rows ==> row.id in orig && orig[row.id] == row
    requires forall id :: id in orig <==> id in requests
    ensures PutReviewed(requests, rows, review).Keys == orig.Keys
    ensures forall id :: id in orig ==>
              (PutReviewed(requests, rows, review)[id] ==
               if orig[id] in rows && orig[id].id == id then Reviewed(orig[id], review) else requests[id])
    decreases rows
  {
    if rows == [] {
    } else {
      var row := rows[0];
      assert row in rows;
      assert forall x :: x in rows <==> x == row || x in rows[1..];
      PutReviewedIs(requests[row.id := Reviewed(row, review)], rows[1..], review, orig);
    }
  }

  /** The row after a review: status, reviewer, time and comments are the review's, the rest is as before. */
  ghost predicate IsReviewed(before: Row, after: Row, review: Review) {
    && after.status == review.status && after.updatedBy == review.updatedBy
    && after.lastUpdated == review.now && after.comments == review.comments
    && after.id == before.id && after.group == before.group && after.username == before.username
    && after.justification == before.justification && after.requestTime == before.requestTime
  }

  /** An approval that does not say who approves. */
  ghost predicate Unsigned(review: Review) {
    review.status == "approved" && (review.updatedBy.None? || review.updatedBy == Some(""))
  }

  /** The row of the id is that user's, for that group. */
  ghost predicate IsTouched(s: State, id: string, email: string, group: string) {
    id in s.requests && s.requests[id].username == email && s.requests[id].group == group
  }

  /** The row is the one of those touched that comes last in the list of ids. */
  ghost predicate LastTouched(s: State, id: string, ids: seq<string>, email: string, group: string) {
    && IsTouched(s, id, email, group)
    && forall x, y, other :: At(ids, x, id) && IsTouched(s, other, email, group) && At(ids, y, other) ==> y <= x
  }

  /** The last row of a group, and its place. */
  lemma {:induction false} LastOfGroup(rows: seq<Row>, group: string) returns (place: nat)
    requires RowsOf(rows, group) != []
    ensures place < |rows| && RowsOf(rows, group)[|RowsOf(rows, group)| - 1] == rows[place]
    ensures rows[place].group == group && forall y :: place < y < |rows| ==> rows[y].group != group
  {
    if RowsOf(rows[1..], group) == [] {
      place := 0;
      forall y | 0 < y < |rows| ensures rows[y].group != group {
        RowsOfHolds(rows[1..], group, rows[y]);
        assert rows[1..][y - 1] == rows[y];
      }
    } else {
      var rest := LastOfGroup(rows[1..], group);
      place := rest + 1;
      assert forall y :: place < y < |rows| ==> rows[1..][y - 1] == rows[y];
    }
  }

  /** The user's rows for a group: all of them, and which comes last. */
  lemma GroupOfUser(s: State, email: string, group: string) returns (mine: seq<Row>)
    requires Indexed(s)
    ensures var rows := RequestsByUser(Loaded(s, email), email, "", "");
      rows.Ok? && RowsOf(rows.value, group) == mine
    ensures forall row :: row in mine <==>
              row.id in s.requests && s.requests[row.id] == row && IsTouched(s, row.id, email, group)
    ensures mine != [] ==>
              LastTouched(s, mine[|mine| - 1].id, Loaded(s, email).affected.requests, email, group)
  {
    LoadedKeeps(s, email);
    var l := Loaded(s, email);
    var rows := RowsOfUser(l, email);
    FilteredAll(rows);
    mine := RowsOf(rows, group);
    forall row
      ensures row in mine <==> row.id in s.requests && s.requests[row.id] == row && IsTouched(s, row.id, email, group)
    {
      RowsOfHolds(rows, group, row);
    }
    if mine != [] { LastInList(s, l, rows, email, group); }
  }

  /** A status change alters exactly that user's rows for that group, as the review says, and gives back the last of
      them. Which exception it otherwise raises is decided in the order of the checks. */
  lemma ChangeStatusIsExact(possible: seq<string>, s: State, email: string, group: string, review: Review)
    requires Indexed(s)
    ensures var (t, r) := Step(possible, s, ChangeStatus(email, group, review));
      var some := exists id :: IsTouched(s, id, email, group);
      && (r == Err(InvalidStatus) <==> review.status !in possible)
      && (r == Err(UpdaterRequired) <==> review.status in possible && Unsigned(review))
      && (r == Err(NoExistingRequest) <==> review.status in possible && !Unsigned(review) && !some)
      && (r.Ok? <==> review.status in possible && !Unsigned(review) && some)
      && TurnedTo(s, t, email) && t.requests.Keys == s.requests.Keys
      && (forall id :: id in s.requests ==>
           if r.Ok? && IsTouched(s, id, email, group) then IsReviewed(s.requests[id], t.requests[id], review)
           else t.requests[id] == s.requests[id])
      && (r.Ok? ==>
           && |r.value| == 1 && LastTouched(s, r.value[0].id, t.users[email].requests, email, group)
           && r.value[0] == t.requests[r.value[0].id])
  {
    LoadedKeeps(s, email);
    LoadedTurns(s, email);
    var mine := GroupOfUser(s, email, group);
    assert forall id :: id in s.requests ==> s.requests[id].id == id;
    hide Indexed, Loaded, RequestsByUser, RowsOf, LastTouched;
    assert mine != [] ==> mine[0] in mine && mine[|mine| - 1] in mine;
    forall id | IsTouched(s, id, email, group) ensures s.requests[id] in mine {}
    PutReviewedIs(s.requests, mine, review, s.requests);
    hide PutReviewed;
  }

  lemma {:induction false} FilteredAll(rows: seq<Row>)
    ensures Filtered(rows, "", "") == rows
  {
    if rows == [] {
    } else {
      FilteredAll(rows[1..]);
    }
  }

  lemma LastInList(s: State, l: State, rows: seq<Row>, email: string, group: string)
    requires Indexed(l) && l.affected.username == email && l.requests == s.requests
    requires Resolve(l.requests, l.affected.requests) == Ok(rows) && RowsOf(rows, group) != []
    ensures LastTouched(s, RowsOf(rows, group)[|RowsOf(rows, group)| - 1].id, l.affected.requests, email, group)
  {
    var ids := l.affected.requests;
    assert IndexOf(l, email);
    ResolveFinds(l.requests, ids);
    var place := LastOfGroup(rows, group);
    assert rows[place] == s.requests[ids[place]] && ids[place] in ids;
    forall x, y, other | At(ids, x, rows[place].id) && IsTouched(s, other, email, group) && At(ids, y, other)
      ensures y <= x
    {
      assert x == place && rows[y] == s.requests[ids[y]];
    }
  }

  /** A status change by id alters that one row, as the review says, and gives it back; users stay as they are. */
  lemma ChangeStatusByIdIsExact(possible: seq<string>, s: State, id: string, review: Review)
    requires Indexed(s)
    ensures var (t, r) := Step(possible, s, ChangeStatusById(id, review));
      && (r == Err(UpdaterRequired) <==> Unsigned(review))
      && (r == Err(NoMatchingRequest) <==> !Unsigned(review) && id !in s.requests)
      && (r == Err(InvalidStatus) <==> !Unsigned(review) && id in s.requests && review.status !in possible)
      && (r.Ok? <==> !Unsigned(review) && id in s.requests && review.status in possible)
      && t.users == s.users && t.affected == s.affected && t.requests.Keys == s.requests.Keys
      && (forall other :: other in s.requests && !(r.Ok? && other == id) ==> t.requests[other] == s.requests[other])
      && (r.Ok? ==> IsReviewed(s.requests[id], t.requests[id], review) && r.value == [t.requests[id]])
  {
  }

  /** Adding is refused exactly when the user has a pending request for the group, an empty group standing for every
      group; else the table gains that one row, with all it was given and nothing reviewed yet, and the user's list
      that one id, at its end. */
  lemma AddIsExact(possible: seq<string>, s: State, op: Operation)
    requires Indexed(s) && op.Add?
    ensures var (t, r) := Step(possible, s, op);
      && (r.Err? <==> exists id :: id in s.requests && AskedFor(s.requests[id], op.email, op.group, "pending"))
      && (r.Err? ==>
           r.error == PendingRequestAlreadyExists && t.requests == s.requests && TurnedTo(s, t, op.email))
      && (r.Ok? ==>
           && |r.value| == 1 && t.requests == s.requests[op.id := r.value[0]] && IsAdded(op, r.value[0])
           && t.users.Keys == s.users.Keys + {op.email} && t.affected == t.users[op.email]
           && t.users[op.email] ==
                User(op.email, (if op.email in s.users then s.users[op.email].requests else []) + [op.id])
           && forall u :: u in s.users && u != op.email ==> t.users[u] == s.users[u])
  {
    LoadedKeeps(s, op.email);
    LoadedTurns(s, op.email);
    var l := Loaded(s, op.email);
    assert IndexOf(l, op.email);
    LookupIsDirectFilter(l, op.email, op.group, "pending");
    var pending := RequestsByUser(l, op.email, op.group, "pending").value;
    if pending != [] { assert pending[0] in pending; }
    forall id | id in s.requests && AskedFor(s.requests[id], op.email, op.group, "pending")
      ensures pending != [] {
      assert s.requests[id] in pending;
    }
  }

  /** The row has what the request was made with; the time of the request is that of adding it if none was given. */
  ghost predicate IsAdded(op: Operation, row: Row)
    requires op.Add?
  {
    && row.id == op.id && row.username == op.email && row.group == op.group && row.status == op.status
    && row.justification == op.justification && row.updatedBy == op.updatedBy && row.comments.None?
    && row.requestTime == (if op.requestTime == 0 then op.now else op.requestTime) && row.lastUpdated == op.now
  }

  predicate FreshId(s: State, op: Operation) {
    op.Add? ==> op.id !in s.requests
  }

  lemma AppendKeeps(t: State, row: Row, email: string)
    requires Indexed(t) && t.affected.username == email && row.username == email && row.id !in t.requests
    ensures var user := t.affected.(requests := t.affected.requests + [row.id]);
      Indexed(State(t.requests[row.id := row], t.users[email := user], user))
  {
    var user := t.affected.(requests := t.affected.requests + [row.id]);
    var n := State(t.requests[row.id := row], t.users[email := user], user);
    forall u | u in n.users ensures IndexOf(n, u) {
      assert IndexOf(t, u);
      assert forall id :: id in user.requests <==> id in t.affected.requests || id == row.id;
    }
  }

  lemma ReviewKeeps(s: State, t: State)
    requires Indexed(s) && t.users == s.users && t.affected == s.affected && t.requests.Keys == s.requests.Keys
    requires forall id :: id in s.requests ==>
      t.requests[id].id == s.requests[id].id && t.requests[id].username == s.requests[id].username
    ensures Indexed(t)
  {
    forall u | u in t.users ensures IndexOf(t, u) { assert IndexOf(s, u); }
  }

  /** Every operation keeps the index exact. */
  lemma StepKeepsIndex(possible: seq<string>, s: State, op: Operation)
    requires Indexed(s) && FreshId(s, op)
    ensures Indexed(Step(possible, s, op).0)
  {
    match op
    case Lookup(email, _, _) => LoadedKeeps(s, email);
    case Add(email, group, justification, requestTime, status, updatedBy, id, now) =>
      LoadedKeeps(s, email);
      var t := Loaded(s, email);
      if t != Step(possible, s, op).0 {
        var time := if requestTime != 0 then requestTime else now;
        AppendKeeps(t, Row(id, group, status, justification, time, updatedBy, now, email, None), email);
      }
    case ChangeStatus(email, group, review) =>
      LoadedKeeps(s, email);
      ChangeStatusIsExact(possible, s, email, group, review);
      ReviewKeeps(Loaded(s, email), Step(possible, s, op).0);
    case ChangeStatusById(id, review) =>
      ReviewKeeps(s, Step(possible, s, op).0);
  }

  // ---- At most one pending request ----

  predicate RivalPending(a: Row, b: Row) {
    a.username == b.username && a.group == b.group && a.status == "pending" && b.status == "pending"
  }

  ghost predicate OnePending(s: State) {
    forall a, b :: a in s.requests && b in s.requests && RivalPending(s.requests[a], s.requests[b]) ==> a == b
  }

  /** The operation does not set a request back to pending. */
  predicate NeverReopens(op: Operation) {
    (op.ChangeStatus? || op.ChangeStatusById?) ==> op.review.status != "pending"
  }

  lemma AddKeepsOnePending(possible: seq<string>, s: State, op: Operation)
    requires Indexed(s) && OnePending(s) && op.Add? && op.id !in s.requests
    ensures OnePending(Step(possible, s, op).0)
  {
    LoadedKeeps(s, op.email);
    var t, n := Loaded(s, op.email), Step(possible, s, op).0;
    LookupIsDirectFilter(t, op.email, op.group, "pending");
    var pending := RequestsByUser(t, op.email, op.group, "pending").value;
    if n.requests != s.requests {
      forall a | a in s.requests && s.requests[a].username == op.email && s.requests[a].group == op.group
        ensures s.requests[a].status != "pending"
      {
        assert s.requests[a] !in pending;
      }
    }
  }

  /** When every row is left alone or made something other than pending, no second pending request arises. */
  lemma ReviewKeepsOnePending(s: State, n: State)
    requires OnePending(s) && n.requests.Keys == s.requests.Keys
    requires forall id :: id in s.requests ==> n.requests[id] == s.requests[id] || n.requests[id].status != "pending"
    ensures OnePending(n)
  {
  }

  lemma StepKeepsOnePending(possible: seq<string>, s: State, op: Operation)
    requires Indexed(s) && FreshId(s, op) && OnePending(s) && NeverReopens(op)
    ensures OnePending(Step(possible, s, op).0)
  {
    match op
    case Lookup(email, _, _) => LoadedKeeps(s, email);
    case Add(_, _, _, _, _, _, _, _) => AddKeepsOnePending(possible, s, op);
    case ChangeStatus(email, group, review) =>
      ChangeStatusIsExact(possible, s, email, group, review);
      ReviewKeepsOnePending(s, Step(possible, s, op).0);
    case ChangeStatusById(id, review) =>
      ReviewKeepsOnePending(s, Step(possible, s, op).0);
  }

  // ---- Runs ----

  function Run(possible: seq<string>, s: State, ops: seq<Operation>): State {
    if ops == [] then s else Step(possible, Run(possible, s, ops[..|ops| - 1]), ops[|ops| - 1]).0
  }

  /** Ids are never drawn twice. */
  ghost predicate FreshRun(possible: seq<string>, s: State, ops: seq<Operation>) {
    forall k :: 0 <= k < |ops| ==> FreshId(Run(possible, s, ops[..k]), ops[k])
  }

  /** After any run of adds, status changes and lookups, the index is exact; and if no status change sets "pending",
      every user has at most one pending request for a group. */
  lemma {:induction false} RunKeepsIndex(possible: seq<string>, s: State, ops: seq<Operation>)
    requires Indexed(s) && FreshRun(possible, s, ops)
    ensures Indexed(Run(possible, s, ops))
    ensures OnePending(s) && (forall op :: op in ops ==> NeverReopens(op)) ==> OnePending(Run(possible, s, ops))
  {
    if ops == [] {
    } else {
      var past, op := ops[..|ops| - 1], ops[|ops| - 1];
      forall k | 0 <= k < |past| ensures FreshId(Run(possible, s, past[..k]), past[k]) { assert past[..k] == ops[..k]; }
      RunKeepsIndex(possible, s, past);
      StepKeepsIndex(possible, Run(possible, s, past), op);
      if OnePending(s) && forall o :: o in ops ==> NeverReopens(o) {
        assert op in ops && forall o :: o in past ==> o in ops;
        StepKeepsOnePending(possible, Run(possible, s, past), op);
      }
    }
  }

  /** Tables with rows under their own ids, for known users, and with exact indexes. */
  ghost predicate IndexedTables(requests: map<string, Row>, users: map<string, User>) {
    && (forall id :: id in requests ==> requests[id].id == id && requests[id].username in users)
    && forall u :: u in users ==> IndexOf(State(requests, users, users[u]), u)
  }

  /** A handler opened over exactly indexed tables starts with the invariant, be the user known or not; so do empty
      tables. */
  lemma OpenedIsIndexed(requests: map<string, Row>, users: map<string, User>, email: string)
    requires IndexedTables(requests, users)
    ensures Indexed(Opened(requests, users, email))
    ensures IndexedTables(map[], map[])
  {
    var s := Opened(requests, users, email);
    forall u | u in s.users ensures IndexOf(s, u) {
      if u in users { assert IndexOf(State(requests, users, users[u]), u); }
    }
  }

  /** Over every life of a handler the index is exact. */
  lemma HandlerKeepsIndex(
      possible: seq<string>, requests: map<string, Row>, users: map<string, User>, email: string, ops: seq<Operation>)
    requires IndexedTables(requests, users) && FreshRun(possible, Opened(requests, users, email), ops)
    ensures Indexed(Run(possible, Opened(requests, users, email), ops))
  {
    OpenedIsIndexed(requests, users, email);
    RunKeepsIndex(possible, Opened(requests, users, email), ops);
  }
}
