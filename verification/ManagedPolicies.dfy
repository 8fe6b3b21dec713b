/** Managed-policy updates under AWS's limit of five versions. */
module ManagedPolicies {

  datatype Version = Version(id: string, created: int)

  /** The versions AWS keeps, and which of them is in force. */
  datatype Slots = Slots(versions: set<Version>, default: Version)

  const LIMIT := 5

  /** AWS lists the versions in an order of its own. */
  ghost predicate Lists(listing: seq<Version>, versions: set<Version>) {
    && (forall v :: v in listing <==> v in versions)
    && (forall i, j :: 0 <= i < j < |listing| ==> listing[i] != listing[j])
  }

  /** The place of the version in force; 0 when none is. */
  function DefaultIndex(listing: seq<Version>, default: Version): (i: nat)
    ensures default in listing ==> i < |listing| && listing[i] == default
  {
    if listing == [] then 0
    else if listing[|listing| - 1] == default then |listing| - 1
    else
      assert listing == listing[..|listing| - 1] + [listing[|listing| - 1]];
      DefaultIndex(listing[..|listing| - 1], default)
  }

  /** The place of the first of the oldest versions. */
  function OldestIndex(listing: seq<Version>): (i: nat)
    requires listing != []
    ensures i < |listing|
    ensures forall j :: 0 <= j < |listing| ==> listing[i].created <= listing[j].created
    ensures forall j :: 0 <= j < i ==> listing[i].created < listing[j].created
  {
    if |listing| == 1 then 0
    else
      var i := OldestIndex(listing[..|listing| - 1]);
      if listing[i].created > listing[|listing| - 1].created then |listing| - 1 else i
  }

  /** The place of the version deleted from a full list: the oldest, or the one after it when the oldest is in force. */
  function PopPosition(listing: seq<Version>, default: Version): nat
    requires listing != []
  {
    var oldest := OldestIndex(listing);
    if DefaultIndex(listing, default) == oldest then (oldest + 1) % |listing| else oldest
  }

  /** `update_managed_policy`: room is made, and the new version comes into force. */
  ghost function Updated(s: Slots, listing: seq<Version>, added: Version): Slots
    requires Lists(listing, s.versions)
  {
    var left := if |listing| == LIMIT then s.versions - {listing[PopPosition(listing, s.default)]} else s.versions;
    Slots(left + {added}, added)
  }

  class ManagedPolicy {
    var versions: set<Version>
    var default: Version

    constructor (first: Version)
      ensures View() == Slots({first}, first)
    {
      versions, default := {first}, first;
    }

    function View(): Slots
      reads this
    {
      Slots(versions, default)
    }

    method UpdateManagedPolicy(listing: seq<Version>, added: Version)
      requires Lists(listing, versions)
      modifies this
      ensures View() == Updated(old(View()), listing, added)
    {
      hide Lists;
      var current: seq<Version> := [];
      var defaultIndex := 0;
      var oldest, oldestTimestamp := -1, 0;
      for i := 0 to |listing|
        invariant current == listing[..i]
        invariant defaultIndex == DefaultIndex(listing[..i], default)
        invariant i == 0 ==> oldest == -1
        invariant i > 0 ==> oldest == OldestIndex(listing[..i]) && oldestTimestamp == listing[oldest].created
      {
        var version := listing[i];
        assert listing[..i + 1][..i] == listing[..i];
        if version == default { defaultIndex := i; }
        current := current + [version];
        if oldest == -1 || oldestTimestamp > version.created {
          oldest, oldestTimestamp := i, version.created;
        }
      }
      assert listing[..|listing|] == listing;
      if |current| == LIMIT {
        var popPosition := oldest;
        if defaultIndex == oldest { popPosition := (oldest + 1) % |current|; }
        versions := versions - {current[popPosition]};
      }
      versions, default := versions + {added}, added;
    }
  }

  // ---- Over runs ----

  /** An update, seeing the versions in some order; or someone putting an existing version back into force. */
  datatype Operation = Update(listing: seq<Version>, added: Version) | SetDefault(version: Version)

  ghost predicate Possible(s: Slots, op: Operation) {
    match op
    case Update(listing, added) => Lists(listing, s.versions)
    case SetDefault(v) => v in s.versions
  }

  ghost function Step(s: Slots, op: Operation): Slots
    requires Possible(s, op)
  {
    match op
    case Update(listing, added) => Updated(s, listing, added)
    case SetDefault(v) => s.(default := v)
  }

  /** A state within the limit whose version in force exists. */
  predicate Sound(s: Slots) {
    s.default in s.versions && 1 <= |s.versions| <= 5
  }

  lemma {:induction false} ListingCount(listing: seq<Version>, versions: set<Version>)
    requires Lists(listing, versions)
    ensures |listing| == |versions|
  {
    if listing == [] {
      assert versions == {};
    } else {
      var last, init := listing[|listing| - 1], listing[..|listing| - 1];
      assert listing == init + [last];
      assert last in listing;
      assert Lists(init, versions - {last});
      ListingCount(init, versions - {last});
    }
  }

  /** No operation deletes the version that was in force, or leaves more than five versions. */
  lemma StepKeepsDefault(s: Slots, op: Operation)
    requires Sound(s) && Possible(s, op)
    ensures Sound(Step(s, op)) && s.default in Step(s, op).versions
  {
    if op.Update? {
      ListingCount(op.listing, s.versions);
      var d := DefaultIndex(op.listing, s.default);
      if |op.listing| == LIMIT {
        var pop := PopPosition(op.listing, s.default);
        assert pop != d;
        assert op.listing[pop] != op.listing[d];
        assert op.listing[pop] in op.listing;
        assert |s.versions - {op.listing[pop]}| == LIMIT - 1;
      }
    }
  }

  /** Place `i` holds an oldest version, the first that is listed. */
  ghost predicate FirstOldest(listing: seq<Version>, i: nat) {
    && i < |listing| && (forall v :: v in listing ==> listing[i].created <= v.created)
    && forall j :: 0 <= j < i ==> listing[i].created < listing[j].created
  }

  /** What an update does, whichever version is in force. With fewer than five versions it adds one. With five it first
      deletes the oldest, the first listed if there are several; or, where that one is in force, the one listed after
      it, the list being taken as a ring. What is added comes into force. */
  lemma UpdateIsExact(s: Slots, listing: seq<Version>, added: Version) returns (oldest: nat)
    requires Sound(s) && Lists(listing, s.versions)
    ensures FirstOldest(listing, oldest) && |listing| == |s.versions|
    ensures var n := Updated(s, listing, added);
      var next := if oldest + 1 == |listing| then listing[0] else listing[oldest + 1];
      var gone := if listing[oldest] == s.default then next else listing[oldest];
      && n.default == added
      && n.versions == (if |s.versions| < 5 then s.versions else s.versions - {gone}) + {added}
  {
    ListingCount(listing, s.versions);
    oldest := FindsFirstOldest(listing);
    PoppedIs(listing, s.default, s.versions);
    hide FirstOldest, Lists, PopPosition;
  }

  lemma FindsFirstOldest(listing: seq<Version>) returns (i: nat)
    requires listing != []
    ensures i == OldestIndex(listing) && FirstOldest(listing, i)
  {
    i := OldestIndex(listing);
    forall v | v in listing ensures listing[i].created <= v.created {
      var j :| 0 <= j < |listing| && listing[j] == v;
    }
  }

  lemma PoppedIs(listing: seq<Version>, default: Version, versions: set<Version>)
    requires Lists(listing, versions) && default in versions && listing != []
    ensures var oldest := OldestIndex(listing);
      var next := if oldest + 1 == |listing| then listing[0] else listing[oldest + 1];
      PopPosition(listing, default) < |listing| &&
      listing[PopPosition(listing, default)] == if listing[oldest] == default then next else listing[oldest]
  {
    assert default in listing;
    var oldest, d := OldestIndex(listing), DefaultIndex(listing, default);
    hide OldestIndex, DefaultIndex;
    assert listing[d] == default && (listing[oldest] == default ==> oldest == d);
    hide Lists;
    NextInRing(oldest, |listing|);
  }

  lemma NextInRing(i: nat, n: nat)
    requires i < n
    ensures (i + 1) % n == if i + 1 == n then 0 else i + 1
  {
  }

  /** Operations that can be carried out one after another. */
  ghost predicate Runnable(s: Slots, ops: seq<Operation>)
    decreases ops
  {
    ops == [] || (Possible(s, ops[0]) && Runnable(Step(s, ops[0]), ops[1..]))
  }

  ghost function Run(s: Slots, ops: seq<Operation>): Slots
    requires Runnable(s, ops)
    decreases ops
  {
    if ops == [] then s else Run(Step(s, ops[0]), ops[1..])
  }

  lemma {:induction false} RunStaysSound(s: Slots, ops: seq<Operation>)
    requires Sound(s) && Runnable(s, ops)
    ensures Sound(Run(s, ops))
    decreases ops
  {
    if ops == [] {
    } else {
      StepKeepsDefault(s, ops[0]);
      RunStaysSound(Step(s, ops[0]), ops[1..]);
    }
  }

  /** `kept` are the most recent five of `ever`. */
  ghost predicate MostRecent(kept: set<Version>, ever: set<Version>) {
    && kept <= ever
    && |kept| == (if |ever| < 5 then |ever| else 5)
    && forall v, w :: v in kept && w in ever - kept ==> w.created < v.created
  }

  /** The version in force is the newest, and no two were created at one time. */
  ghost predicate NewestInForce(s: Slots) {
    && s.default in s.versions
    && (forall v :: v in s.versions && v != s.default ==> v.created < s.default.created)
    && (forall v, w :: v in s.versions && w in s.versions && v.created == w.created ==> v == w)
  }

  /** Only updates, each creating a version later than all before. */
  ghost predicate Forward(ops: seq<Operation>, since: int)
    decreases ops
  {
    ops == [] || (ops[0].Update? && since < ops[0].added.created && Forward(ops[1..], ops[0].added.created))
  }

  ghost function Created(ops: seq<Operation>): set<Version> {
    set i | 0 <= i < |ops| && ops[i].Update? :: ops[i].added
  }

  /** In a full list whose newest version is in force, the oldest is the one deleted. */
  lemma OldestIsPopped(s: Slots, listing: seq<Version>) returns (gone: Version)
    requires NewestInForce(s) && Lists(listing, s.versions) && |listing| == LIMIT
    ensures gone == listing[PopPosition(listing, s.default)] && gone in s.versions && gone != s.default
    ensures forall v :: v in s.versions && v != gone ==> gone.created < v.created
  {
    var oldest, d := OldestIndex(listing), DefaultIndex(listing, s.default);
    var other := if d == 0 then 1 else 0;
    assert listing[other] in listing && listing[other] != listing[d];
    gone := listing[oldest];
    assert gone in listing;
    forall v | v in s.versions && v != gone ensures gone.created < v.created {
      assert v in listing;
      var j :| 0 <= j < |listing| && listing[j] == v;
    }
  }

  lemma RollKeepsMostRecent(versions: set<Version>, gone: Version, added: Version, ever: set<Version>)
    requires MostRecent(versions, ever) && |versions| == LIMIT && gone in versions && added !in ever
    requires forall v :: v in versions && v != gone ==> gone.created < v.created
    requires forall v :: v in ever ==> v.created < added.created
    ensures MostRecent(versions - {gone} + {added}, ever + {added})
  {
    var next := versions - {gone} + {added};
    assert |versions - {gone}| == LIMIT - 1;
    assert |next| == LIMIT;
    assert |ever + {added}| == |ever| + 1;
    forall v, w | v in next && w in (ever + {added}) - next ensures w.created < v.created {
      if w != gone { assert w in ever - versions; }
    }
  }

  lemma GrowKeepsMostRecent(versions: set<Version>, added: Version, ever: set<Version>)
    requires MostRecent(versions, ever) && |versions| < LIMIT && added !in ever
    ensures MostRecent(versions + {added}, ever + {added})
  {
    SameSizeSubset(versions, ever);
    assert |ever + {added}| == |ever| + 1;
  }

  lemma NewestAfter(s: Slots, listing: seq<Version>, added: Version, ever: set<Version>)
    requires NewestInForce(s) && s.versions <= ever && Lists(listing, s.versions)
    requires forall v :: v in ever ==> v.created < added.created
    ensures NewestInForce(Updated(s, listing, added))
  {
    assert Updated(s, listing, added).versions <= s.versions + {added};
  }

  lemma UpdateKeepsMostRecent(s: Slots, listing: seq<Version>, added: Version, ever: set<Version>)
    requires Sound(s) && NewestInForce(s) && MostRecent(s.versions, ever) && Lists(listing, s.versions)
    requires forall v :: v in ever ==> v.created < added.created
    ensures var n := Updated(s, listing, added);
      Sound(n) && NewestInForce(n) && MostRecent(n.versions, ever + {added})
  {
    StepKeepsDefault(s, Update(listing, added));
    ListingCount(listing, s.versions);
    NewestAfter(s, listing, added, ever);
    hide NewestInForce;
    if |listing| == LIMIT {
      var gone := OldestIsPopped(s, listing);
      RollKeepsMostRecent(s.versions, gone, added, ever);
    } else {
      GrowKeepsMostRecent(s.versions, added, ever);
    }
  }

  lemma SameSizeSubset<T>(a: set<T>, b: set<T>)
    requires a <= b && |a| == |b|
    ensures a == b
  {
    assert b == a + (b - a);
  }

  lemma DefaultIsNewest(s: Slots, ever: set<Version>)
    requires NewestInForce(s) && MostRecent(s.versions, ever)
    ensures forall v :: v in ever ==> v.created <= s.default.created
  {
    forall v | v in ever ensures v.created <= s.default.created {
      if v !in s.versions { assert v in ever - s.versions; }
    }
  }

  lemma CreatedSplit(ops: seq<Operation>)
    requires ops != [] && ops[0].Update?
    ensures Created(ops) == {ops[0].added} + Created(ops[1..])
  {
    forall i | 0 <= i < |ops| && ops[i].Update? ensures ops[i].added in {ops[0].added} + Created(ops[1..]) {
      if i > 0 { assert ops[1..][i - 1] == ops[i]; }
    }
    forall i | 0 <= i < |ops[1..]| && ops[1..][i].Update? ensures ops[1..][i].added in Created(ops) {
      assert ops[1..][i] == ops[i + 1];
    }
  }

  /** Within the limit, the newest in force, and the most recent five kept. */
  ghost predicate Rolling(s: Slots, ever: set<Version>) {
    Sound(s) && NewestInForce(s) && MostRecent(s.versions, ever)
  }

  lemma StepKeepsRolling(s: Slots, op: Operation, ever: set<Version>)
    requires Rolling(s, ever) && Possible(s, op) && op.Update? && s.default.created < op.added.created
    ensures Rolling(Step(s, op), ever + {op.added})
  {
    DefaultIsNewest(s, ever);
    UpdateKeepsMostRecent(s, op.listing, op.added, ever);
  }

  lemma {:induction false} RunKeepsRolling(s: Slots, ops: seq<Operation>, ever: set<Version>, total: set<Version>)
    requires Rolling(s, ever) && Runnable(s, ops) && Forward(ops, s.default.created)
    requires total == ever + Created(ops)
    ensures Rolling(Run(s, ops), total)
    decreases ops
  {
    if ops == [] {
      assert total == ever;
    } else {
      StepKeepsRolling(s, ops[0], ever);
      CreatedSplit(ops);
      hide Rolling, Created, PopPosition, Lists;
      RunKeepsRolling(Step(s, ops[0]), ops[1..], ever + {ops[0].added}, total);
    }
  }

  /** Started with the newest version in force and distinct dates, and left to updates alone, the versions kept are
      always the most recent five of all there ever were, and the newest stays in force. */
  lemma {:induction false} RunKeepsMostRecent(s: Slots, ops: seq<Operation>, ever: set<Version>)
    requires Sound(s) && NewestInForce(s) && MostRecent(s.versions, ever)
    requires Runnable(s, ops) && Forward(ops, s.default.created)
    ensures NewestInForce(Run(s, ops)) && MostRecent(Run(s, ops).versions, ever + Created(ops))
  {
    RunKeepsRolling(s, ops, ever, ever + Created(ops));
  }
}
