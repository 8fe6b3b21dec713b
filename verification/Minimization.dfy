/** `minimize_iam_policy_statements` as a function: what the nested merging loops compute. */
module Minimization {
  import opened MergeLoops
  import opened Normalization
  import opened Outcomes
  import opened Statements
  import opened Strings

  /** DeepDiff finds nothing once element `e` is excluded: lists count without order or repetition. */
  predicate SameExcept(a: Statement, b: Statement, e: Field) {
    a.Keys - {e} == b.Keys - {e} && forall k :: k in a && k != e && k in b ==> AsUnordered(a[k]) == AsUnordered(b[k])
  }

  predicate MayMerge(a: Statement, b: Statement, e: Field) {
    (Truthy(a, e) || Truthy(b, e)) && SameExcept(a, b, e)
  }

  /** The first element, from place `n` on, on which two statements are merged. */
  function Candidate(a: Statement, b: Statement, n: nat): (c: Option<Field>)
    ensures c.Some? ==> IsElement(c.value) && MayMerge(a, b, c.value)
    decreases |ELEMENTS| - n
  {
    if n >= |ELEMENTS| then None
    else
      assert Position(ELEMENTS[n]) == n;
      if MayMerge(a, b, ELEMENTS[n]) then Some(ELEMENTS[n]) else Candidate(a, b, n + 1)
  }

  /** The lists of both united under `e`, without repeats and sorted; with the exceptions of a missing key and of a text
      joined to a list. */
  function MergedOn(a: Statement, b: Statement, e: Field): Result<Statement> {
    if e !in a || e !in b then Err(KeyError)
    else if !(a[e].Entries? && b[e].Entries?) then Err(TypeError)
    else Ok(a[e := Entries(SortedSet(a[e].entries + b[e].entries))])
  }

  function WithoutSid(st: Statement, disregardSid: bool): Statement {
    if disregardSid then st - {Sid} else st
  }

  /** The body of the inner loop: merge on the first element that allows it. */
  function TryMerge(a: Statement, b: Statement): Attempt<Statement> {
    match Candidate(a, b, 0)
    case None => Apart
    case Some(e) =>
      match MergedOn(a, b, e)
      case Ok(merged) => Joined(merged, e)
      case Err(error) => Failed(error)
  }

  function MergeRules(disregardSid: bool): Rules<Statement> {
    Rules(st => WithoutSid(st, disregardSid), (a, b) => TryMerge(a, b))
  }

  /** `sort_dict` on a statement: every list of more than one entry is sorted. */
  function SortDict(st: Statement): Statement {
    map k | k in st :: if st[k].Entries? && |st[k].entries| > 1 then Entries(Sort(st[k].entries)) else st[k]
  }

  function SortAll(sts: seq<Statement>): (r: seq<Statement>)
    ensures |r| == |sts| && forall i :: 0 <= i < |sts| ==> r[i] == SortDict(sts[i])
  {
    seq(|sts|, i requires 0 <= i < |sts| => SortDict(sts[i]))
  }

  /** What the nested loops leave: the list with its merges and its absorbed entries. */
  function Merged(sts: seq<Statement>, disregardSid: bool): Result<Merging<Statement>> {
    AbsorbAll(Start(NormalizedAll(sts)), 0, MergeRules(disregardSid))
  }

  function Minimized(sts: seq<Statement>, disregardSid: bool): Result<seq<Statement>> {
    var m :- Merged(sts, disregardSid);
    Ok(NormalizedAll(SortAll(KeptFrom(m, 0))))
  }

  // ---- When statements differ in one element only, said without the code's comparison ----

  /** Texts that are the same, or lists with the same entries. */
  ghost predicate SameValue(v: Value, w: Value) {
    match (v, w)
    case (Text(s), Text(t)) => s == t
    case (Entries(xs), Entries(ys)) => forall x :: x in xs <==> x in ys
    case _ => false
  }

  /** Both have the key, with the same value, or neither has it. */
  ghost predicate AgreeOn(a: Statement, b: Statement, k: Field) {
    (k in a <==> k in b) && (k in a && k in b ==> SameValue(a[k], b[k]))
  }

  /** The key stands for something: a text that is not empty, or a list that is not. */
  ghost predicate HasSome(st: Statement, k: Field) {
    k in st && match st[k] case Text(t) => t != "" case Entries(xs) => xs != []
  }

  /** Outside element `e`, of which there is something to merge, the statements agree; a Sid may be disregarded. */
  ghost predicate AgreeOutside(a: Statement, b: Statement, e: Field, disregardSid: bool) {
    && e in {Resource, Action, NotAction, NotResource, NotPrincipal} && (HasSome(a, e) || HasSome(b, e))
    && forall k :: k != e && !(disregardSid && k == Sid) ==> AgreeOn(a, b, k)
  }

  lemma SameValueIsUnordered(v: Value, w: Value)
    ensures SameValue(v, w) <==> AsUnordered(v) == AsUnordered(w)
  {
    if v.Entries? && w.Entries? {
      assert forall x :: x in v.entries <==> x in AsUnordered(v).members;
      assert forall x :: x in w.entries <==> x in AsUnordered(w).members;
    }
  }

  /** What the code compares is just that. */
  lemma MayMergeIff(a: Statement, b: Statement, e: Field, disregardSid: bool)
    ensures AgreeOutside(a, b, e, disregardSid) <==>
              IsElement(e) && MayMerge(WithoutSid(a, disregardSid), WithoutSid(b, disregardSid), e)
  {
    var x, y := WithoutSid(a, disregardSid), WithoutSid(b, disregardSid);
    forall k | k in a && k in b ensures SameValue(a[k], b[k]) <==> AsUnordered(a[k]) == AsUnordered(b[k]) {
      SameValueIsUnordered(a[k], b[k]);
    }
    hide SameValue, AsUnordered;
    if AgreeOutside(a, b, e, disregardSid) {
      forall k ensures k in x.Keys - {e} <==> k in y.Keys - {e} {
        assert k == e || (disregardSid && k == Sid) || AgreeOn(a, b, k);
      }
      forall k | k in x && k != e && k in y ensures AsUnordered(x[k]) == AsUnordered(y[k]) { assert AgreeOn(a, b, k); }
    }
    if IsElement(e) && MayMerge(x, y, e) {
      forall k | k != e && !(disregardSid && k == Sid) ensures AgreeOn(a, b, k) {
        assert k in x.Keys - {e} <==> k in y.Keys - {e};
      }
    }
  }

  // ---- One merge ----

  lemma NamesDependsOnMembers(e: Field, v: Value, w: Value, s: string)
    requires forall x :: x in AsList(v) <==> x in AsList(w)
    ensures Names(e, v, s) <==> Names(e, w, s)
    ensures forall p :: p in FoldedAll(e, AsList(v)) <==> p in FoldedAll(e, AsList(w))
  {
    FoldedMembers(e, AsList(v), AsList(w));
    FoldedMembers(e, AsList(w), AsList(v));
  }

  lemma FoldedMembers(e: Field, xs: seq<string>, ys: seq<string>)
    requires forall x :: x in xs ==> x in ys
    ensures forall p :: p in FoldedAll(e, xs) ==> p in FoldedAll(e, ys)
  {
    forall p | p in FoldedAll(e, xs) ensures p in FoldedAll(e, ys) {
      var i :| 0 <= i < |xs| && FoldedAll(e, xs)[i] == p;
      assert xs[i] in ys;
      var j :| 0 <= j < |ys| && ys[j] == xs[i];
      assert FoldedAll(e, ys)[j] == p;
    }
  }

  lemma SameUnorderedSameMembers(v: Value, w: Value)
    requires AsUnordered(v) == AsUnordered(w)
    ensures forall x :: x in AsList(v) <==> x in AsList(w)
  {
    if v.Entries? {
      assert forall x :: x in v.entries <==> x in AsUnordered(v).members;
      assert forall x :: x in w.entries <==> x in AsUnordered(w).members;
    }
  }

  lemma UnionNames(e: Field, xs: seq<string>, ys: seq<string>, s: string)
    ensures Names(e, Entries(SortedSet(xs + ys)), s) <==> Names(e, Entries(xs), s) || Names(e, Entries(ys), s)
    ensures forall p :: p in FoldedAll(e, SortedSet(xs + ys)) ==> p in FoldedAll(e, xs) || p in FoldedAll(e, ys)
  {
    var zs := SortedSet(xs + ys);
    FoldedMembers(e, xs, zs);
    FoldedMembers(e, ys, zs);
    forall p | p in FoldedAll(e, zs) ensures p in FoldedAll(e, xs) || p in FoldedAll(e, ys) {
      var i :| 0 <= i < |zs| && FoldedAll(e, zs)[i] == p;
      assert zs[i] in zs;
      if zs[i] in xs {
        var j :| 0 <= j < |xs| && xs[j] == zs[i];
        assert FoldedAll(e, xs)[j] == p;
      } else {
        var j :| 0 <= j < |ys| && ys[j] == zs[i];
        assert FoldedAll(e, ys)[j] == p;
      }
    }
  }

  lemma OutsideTheElementNothingDiffers(a: Statement, b: Statement, e: Field, k: Field, s: string)
    requires SameExcept(a, b, e) && k != e
    ensures k in a <==> k in b
    ensures k in a ==> (Names(k, a[k], s) <==> Names(k, b[k], s))
  {
    assert k in a.Keys - {e} <==> k in b.Keys - {e};
    if k in a {
      SameUnorderedSameMembers(a[k], b[k]);
      NamesDependsOnMembers(k, a[k], b[k], s);
    }
  }

  lemma MergeIsDefined(a: Statement, b: Statement, e: Field)
    requires Tidy(a) && Tidy(b) && IsElement(e) && MayMerge(a, b, e)
    ensures e in a && e in b && a[e].Entries? && b[e].Entries?
  {
    if e == Action { assert NotAction in a.Keys - {e} <==> NotAction in b.Keys - {e}; }
    if e == NotAction { assert Action in a.Keys - {e} <==> Action in b.Keys - {e}; }
    if e == Resource { assert NotResource in a.Keys - {e} <==> NotResource in b.Keys - {e}; }
    if e == NotResource { assert Resource in a.Keys - {e} <==> Resource in b.Keys - {e}; }
  }

  lemma MergeKeepsTerms(a: Statement, b: Statement, e: Field)
    requires e in a && e in b && a[e].Entries? && b[e].Entries? && IsElement(e) && SameExcept(a, b, e)
    ensures Terms(MergedOn(a, b, e).value) == Terms(a) == Terms(b)
  {
    ReplacedKeepsTerms(a, e, Entries(SortedSet(a[e].entries + b[e].entries)));
    forall k | IsRest(k) ensures k in a <==> k in b {
      assert k in a.Keys - {e} <==> k in b.Keys - {e};
    }
    assert Terms(a).Keys == Terms(b).Keys;
    hide SortedSet;
  }

  lemma ReplacedKeepsTerms(st: Statement, e: Field, v: Value)
    requires IsElement(e) && e in st
    ensures Terms(st[e := v]) == Terms(st)
  {
    assert Terms(st[e := v]).Keys == Terms(st).Keys;
  }

  lemma MergeOfActions(a: Statement, b: Statement, e: Field, action: string)
    requires Tidy(a) && Tidy(b) && IsElement(e) && MayMerge(a, b, e) && MergedOn(a, b, e).Ok?
    ensures var merged := MergedOn(a, b, e).value;
      CoversAction(merged, action) <==>
        match e
        case Action => CoversAction(a, action) || CoversAction(b, action)
        case NotAction => CoversAction(a, action) && CoversAction(b, action)
        case _ => CoversAction(a, action)
    ensures e != Action && e != NotAction ==> (CoversAction(a, action) <==> CoversAction(b, action))
  {
    MergeIsDefined(a, b, e);
    if e != Action { OutsideTheElementNothingDiffers(a, b, e, Action, action); }
    if e != NotAction { OutsideTheElementNothingDiffers(a, b, e, NotAction, action); }
    UnionNames(e, a[e].entries, b[e].entries, action);
  }

  lemma MergeOfResources(a: Statement, b: Statement, e: Field, resource: string)
    requires Tidy(a) && Tidy(b) && IsElement(e) && MayMerge(a, b, e) && MergedOn(a, b, e).Ok?
    ensures var merged := MergedOn(a, b, e).value;
      CoversResource(merged, resource) <==>
        match e
        case Resource => CoversResource(a, resource) || CoversResource(b, resource)
        case NotResource => CoversResource(a, resource) && CoversResource(b, resource)
        case _ => CoversResource(a, resource)
    ensures e != Resource && e != NotResource ==> (CoversResource(a, resource) <==> CoversResource(b, resource))
  {
    MergeIsDefined(a, b, e);
    if e != Resource { OutsideTheElementNothingDiffers(a, b, e, Resource, resource); }
    if e != NotResource { OutsideTheElementNothingDiffers(a, b, e, NotResource, resource); }
    UnionNames(e, a[e].entries, b[e].entries, resource);
  }

  lemma MergeStaysTidy(a: Statement, b: Statement, e: Field, actions: set<string>, resources: set<string>)
    requires Tidy(a) && Tidy(b) && IsElement(e) && MayMerge(a, b, e)
    requires Within(a, actions, resources) && Within(b, actions, resources)
    ensures e in a && e in b && MergedOn(a, b, e).Ok?
    ensures var merged := MergedOn(a, b, e).value;
      Tidy(merged) && merged.Keys == a.Keys && Within(merged, actions, resources)
  {
    MergeIsDefined(a, b, e);
    var xs := SortedSet(a[e].entries + b[e].entries);
    UnionNames(e, a[e].entries, b[e].entries, "");
    ReplacedStaysTidy(a, e, xs);
    hide SortedSet, Tidy, MayMerge;
    assert forall p :: p in FoldedAll(e, xs) ==>
      p in FoldedAll(e, AsList(a[e])) || p in FoldedAll(e, AsList(b[e]));
  }

  lemma ReplacedStaysTidy(st: Statement, e: Field, xs: seq<string>)
    requires Tidy(st) && IsElement(e) && e in st
    ensures Tidy(st[e := Entries(xs)]) && st[e := Entries(xs)].Keys == st.Keys
  {
  }

  /** Merging two well-formed statements never fails. It gives the union of what they cover when the element
      lists what is covered, and the intersection when it lists what is excluded. */
  lemma MergeMeaning(a: Statement, b: Statement, e: Field, action: string, resource: string)
    requires Tidy(a) && Tidy(b) && IsElement(e) && MayMerge(a, b, e)
    ensures MergedOn(a, b, e).Ok?
    ensures Terms(MergedOn(a, b, e).value) == Terms(a) == Terms(b)
    ensures Covers(MergedOn(a, b, e).value, action, resource) <==>
              if e == Action || e == Resource then Covers(a, action, resource) || Covers(b, action, resource)
              else Covers(a, action, resource) && Covers(b, action, resource)
  {
    MergeIsDefined(a, b, e);
    MergeKeepsTerms(a, b, e);
    ghost var merged := MergedOn(a, b, e).value;
    MergeOfActions(a, b, e, action);
    MergeOfResources(a, b, e, resource);
    assert e == Action || e == NotAction || e == Resource || e == NotResource;
  }
}
