/** A run of `minimize_iam_policy_statements`: which statement absorbs which, on what, and what each kept statement
    covers in the end. */
module MinimizedRuns {
  import opened MergeLoops
  import opened Minimization
  import opened Normalization
  import opened Statements
  import opened Strings

  /** The same elements are present in both. */
  predicate SameElements(o: Statement, p: Statement) {
    && (Action in o <==> Action in p) && (NotAction in o <==> NotAction in p)
    && (Resource in o <==> Resource in p) && (NotResource in o <==> NotResource in p)
    && (NotPrincipal in o <==> NotPrincipal in p)
  }

  /** Under equal terms, with the same elements: only such statements are ever merged. */
  predicate Alike(o: Statement, p: Statement) {
    Terms(o) == Terms(p) && SameElements(o, p)
  }

  /** `st` has grown from `o`: a tidy statement with the same elements under the same terms. */
  ghost predicate Fits(st: Statement, o: Statement, actions: set<string>, resources: set<string>) {
    Tidy(st) && Within(st, actions, resources) && Alike(st, o)
  }

  // ---- What is asked of a statement, and what a merge does to the answer ----

  /** Does the statement cover a request; does it name an action; does it name a resource? */
  datatype Question = OfRequest(action: string, resource: string) | OfAction(name: string) | OfResource(name: string)

  /** The action is among those the statement lists, to cover them or to exclude them. */
  ghost predicate NamesAction(st: Statement, action: string) {
    (Action in st && Names(Action, st[Action], action)) || (NotAction in st && Names(NotAction, st[NotAction], action))
  }

  ghost predicate NamesResource(st: Statement, resource: string) {
    (Resource in st && Names(Resource, st[Resource], resource)) ||
    (NotResource in st && Names(NotResource, st[NotResource], resource))
  }

  lemma NamingIsCovering(st: Statement, action: string, resource: string)
    requires WellFormed(st)
    ensures CoversAction(st, action) <==> (NotAction in st <==> !NamesAction(st, action))
    ensures CoversResource(st, resource) <==> (NotResource in st <==> !NamesResource(st, resource))
  {
  }

  ghost predicate Answer(st: Statement, q: Question) {
    match q
    case OfRequest(action, resource) => Covers(st, action, resource)
    case OfAction(action) => NamesAction(st, action)
    case OfResource(resource) => NamesResource(st, resource)
  }

  /** A merge on `e` answers yes as soon as one of the two statements did. */
  predicate Complete(q: Question, e: Field) {
    q.OfRequest? ==> e == Action || e == Resource
  }

  lemma MergeAnswers(
      a: Statement, b: Statement, e: Field, q: Question,
      oa: Statement, ob: Statement, actions: set<string>, resources: set<string>)
    requires Fits(a, oa, actions, resources) && Fits(b, ob, actions, resources) && IsElement(e) && MayMerge(a, b, e)
    ensures MergedOn(a, b, e).Ok?
    ensures var merged := MergedOn(a, b, e).value;
      && (Answer(merged, q) ==> Answer(a, q) || Answer(b, q))
      && (Complete(q, e) && (Answer(a, q) || Answer(b, q)) ==> Answer(merged, q))
  {
    MergeStaysTidy(a, b, e, actions, resources);
    MergeIsDefined(a, b, e);
    var merged := MergedOn(a, b, e).value;
    assert SameElements(a, b) by { SameKeys(a, b, e); }
    assert NotAction in a <==> NotAction in b;
    assert NotResource in a <==> NotResource in b;
    match q {
      case OfRequest(action, resource) => MergeMeaning(a, b, e, action, resource);
      case OfAction(action) => MergeOfActions(a, b, e, action);
      case OfResource(resource) => MergeOfResources(a, b, e, resource);
    }
  }

  lemma SameKeys(a: Statement, b: Statement, e: Field)
    requires SameExcept(a, b, e) && e in a && e in b
    ensures a.Keys == b.Keys
  {
    assert a.Keys == (a.Keys - {e}) + {e} && b.Keys == (b.Keys - {e}) + {e};
  }

  ghost function StatementJudge(actions: set<string>, resources: set<string>, q: Question): Judge<Statement> {
    Judge((st, o) => Fits(st, o, actions, resources), st => Answer(st, q),
          (o, p, e) => Alike(o, p) && IsElement(e) && e in o && e in p,
          e => Complete(q, e), (o, p, error) => false)
  }

  lemma CleanStatementIsTheSame(
      st: Statement, d: bool, o: Statement, actions: set<string>, resources: set<string>, q: Question)
    ensures Terms(WithoutSid(st, d)) == Terms(st)
    ensures Answer(WithoutSid(st, d), q) <==> Answer(st, q)
    ensures Fits(st, o, actions, resources) ==> Fits(WithoutSid(st, d), o, actions, resources)
  {
    hide Names;
    assert Terms(WithoutSid(st, d)).Keys == Terms(st).Keys;
  }

  lemma TryMergeIsSound(
      a: Statement, b: Statement, oa: Statement, ob: Statement,
      actions: set<string>, resources: set<string>, q: Question)
    requires Fits(a, oa, actions, resources) && Fits(b, ob, actions, resources)
    ensures SoundAttempt(TryMerge(a, b), a, b, oa, ob, StatementJudge(actions, resources, q))
  {
    hide Fits, Alike, Answer, Complete, MayMerge, MergedOn;
    var c := Candidate(a, b, 0);
    if c.Some? {
      MergedFits(a, b, c.value, oa, ob, actions, resources);
      MergeAnswers(a, b, c.value, q, oa, ob, actions, resources);
    }
  }

  lemma MergedFits(
      a: Statement, b: Statement, e: Field, oa: Statement, ob: Statement, actions: set<string>, resources: set<string>)
    requires Fits(a, oa, actions, resources) && Fits(b, ob, actions, resources) && IsElement(e) && MayMerge(a, b, e)
    ensures MergedOn(a, b, e).Ok? && Fits(MergedOn(a, b, e).value, oa, actions, resources)
    ensures Alike(oa, ob) && e in oa && e in ob
  {
    MergeStaysTidy(a, b, e, actions, resources);
    MergeIsDefined(a, b, e);
    MergeKeepsTerms(a, b, e);
    SameKeys(a, b, e);
    hide Terms, Tidy, Within, MayMerge;
  }

  lemma RulesAreSound(d: bool, actions: set<string>, resources: set<string>, q: Question)
    ensures CleanIsHarmless(MergeRules(d), StatementJudge(actions, resources, q))
    ensures JoinIsSound(MergeRules(d), StatementJudge(actions, resources, q))
  {
    var rules, judge := MergeRules(d), StatementJudge(actions, resources, q);
    forall x, o | judge.fits(x, o)
      ensures judge.fits(rules.clean(x), o) && judge.hit(rules.clean(x)) == judge.hit(x)
    {
      CleanStatementIsTheSame(x, d, o, actions, resources, q);
    }
    forall a, b, oa, ob | judge.fits(a, oa) && judge.fits(b, ob)
      ensures SoundAttempt(rules.join(a, b), a, b, oa, ob, judge)
    {
      TryMergeIsSound(a, b, oa, ob, actions, resources, q);
    }
  }

  // ---- The whole run ----

  function PatternsOf(st: Statement, e: Field, f: Field): seq<string> {
    (if e in st then FoldedAll(e, AsList(st[e])) else []) + (if f in st then FoldedAll(f, AsList(st[f])) else [])
  }

  /** Every action pattern of a request, lowered; every resource pattern of a request. */
  ghost function ActionPool(sts: seq<Statement>): set<string> {
    set st, p | st in sts && p in PatternsOf(st, Action, NotAction) :: p
  }

  ghost function ResourcePool(sts: seq<Statement>): set<string> {
    set st, p | st in sts && p in PatternsOf(st, Resource, NotResource) :: p
  }

  lemma EveryStatementIsWithin(sts: seq<Statement>, k: nat)
    requires k < |sts|
    ensures Within(sts[k], ActionPool(sts), ResourcePool(sts))
  {
    var st := sts[k];
    assert forall p :: p in PatternsOf(st, Action, NotAction) ==> p in ActionPool(sts);
    assert forall p :: p in PatternsOf(st, Resource, NotResource) ==> p in ResourcePool(sts);
  }

  ghost predicate AllWellFormed(sts: seq<Statement>) {
    forall st :: st in sts ==> WellFormed(st)
  }

  ghost predicate AllRegular(sts: seq<Statement>) {
    Regular(ActionPool(sts)) && Regular(ResourcePool(sts))
  }

  lemma NormalizedFits(sts: seq<Statement>, k: nat)
    requires AllWellFormed(sts) && k < |sts|
    ensures Fits(NormalizedAll(sts)[k], NormalizedAll(sts)[k], ActionPool(sts), ResourcePool(sts))
  {
    EveryStatementIsWithin(sts, k);
    assert sts[k] in sts;
    NormalizedIsTidy(sts[k], ActionPool(sts), ResourcePool(sts));
  }

  /** On well-formed statements the loops never raise, and they end in a sound one-level forest. */
  lemma MergedIsSound(sts: seq<Statement>, d: bool, q: Question)
    requires AllWellFormed(sts)
    ensures Merged(sts, d).Ok?
    ensures Sound(Merged(sts, d).value, NormalizedAll(sts), StatementJudge(ActionPool(sts), ResourcePool(sts), q))
  {
    var judge := StatementJudge(ActionPool(sts), ResourcePool(sts), q);
    RulesAreSound(d, ActionPool(sts), ResourcePool(sts), q);
    forall k | 0 <= k < |sts| ensures judge.fits(NormalizedAll(sts)[k], NormalizedAll(sts)[k]) {
      NormalizedFits(sts, k);
    }
    LoopsAreSound(NormalizedAll(sts), MergeRules(d), judge);
  }

  lemma NormalizedIsAlike(o: Statement, p: Statement)
    ensures Alike(Normalized(o), Normalized(p)) <==> Alike(o, p)
    ensures Normalized(o).Keys == o.Keys
  {
    NormalizedKeepsTerms(o);
    NormalizedKeepsTerms(p);
    hide Terms, Normalized;
    assert forall k :: k in Normalized(o) <==> k in o;
    assert forall k :: k in Normalized(p) <==> k in p;
  }

  lemma OwnersAreAlike(sts: seq<Statement>, d: bool, j: nat)
    requires AllWellFormed(sts) && Merged(sts, d).Ok? && j in Merged(sts, d).value.owner
    ensures var m := Merged(sts, d).value;
      j < |sts| && m.owner[j].into < |sts| && Alike(sts[m.owner[j].into], sts[j]) && m.owner[j].on in sts[j]
  {
    var m, orig := Merged(sts, d).value, NormalizedAll(sts);
    var judge := StatementJudge(ActionPool(sts), ResourcePool(sts), OfAction(""));
    assert Sound(m, orig, judge) by { MergedIsSound(sts, d, OfAction("")); }
    hide Merged, Alike, Normalized, WellFormed, Position;
    assert judge.kin(orig[m.owner[j].into], orig[j], m.owner[j].on);
    NormalizedIsAlike(sts[m.owner[j].into], sts[j]);
    NormalizedIsAlike(sts[j], sts[j]);
    assert forall k :: k in orig[j] <==> k in sts[j];
  }

  lemma ExcludedCount(m: Merging<Statement>)
    requires Forest(m)
    ensures |KeptFrom(m, 0)| == |m.items| - |m.excluded|
  {
    KeptCount(m, 0);
    assert (set j | 0 <= j < |m.items| && j in m.excluded) == Elements(m.excluded);
    DistinctCount(m.excluded);
  }

  /** Merging is a one-level forest of statements under equal terms, with the same elements; each tree becomes one
      output statement. */
  lemma MergingIsAForest(sts: seq<Statement>, d: bool)
    requires AllWellFormed(sts)
    ensures Merged(sts, d).Ok? && Minimized(sts, d).Ok?
    ensures var m := Merged(sts, d).value;
      && |m.items| == |sts| && Forest(m)
      && (forall j :: j in m.owner ==> Alike(sts[m.owner[j].into], sts[j]) && m.owner[j].on in sts[j])
      && |Minimized(sts, d).value| == |sts| - |m.excluded|
  {
    MergedIsSound(sts, d, OfAction(""));
    var m := Merged(sts, d).value;
    ExcludedCount(m);
    hide Merged, Alike;
    forall j | j in m.owner ensures Alike(sts[m.owner[j].into], sts[j]) && m.owner[j].on in sts[j] {
      OwnersAreAlike(sts, d, j);
    }
  }

  lemma {:induction false} DistinctCount(xs: seq<nat>)
    requires forall i, j :: 0 <= i < j < |xs| ==> xs[i] != xs[j]
    ensures |Elements(xs)| == |xs|
  {
    if xs == [] {
    } else {
      DistinctCount(xs[1..]);
      assert Elements(xs) == {xs[0]} + Elements(xs[1..]);
    }
  }

  // ---- Sorting and normalising again ----

  lemma SortDictElement(st: Statement, e: Field, s: string)
    requires e in st
    ensures AsUnordered(SortDict(st)[e]) == AsUnordered(st[e])
    ensures Names(e, SortDict(st)[e], s) <==> Names(e, st[e], s)
    ensures forall p :: p in FoldedAll(e, AsList(SortDict(st)[e])) <==> p in FoldedAll(e, AsList(st[e]))
  {
    NamesDependsOnMembers(e, SortDict(st)[e], st[e], s);
  }

  lemma SortDictKeepsTerms(st: Statement)
    ensures Terms(SortDict(st)) == Terms(st)
  {
    forall k | k in st ensures AsUnordered(SortDict(st)[k]) == AsUnordered(st[k]) { SortDictElement(st, k, ""); }
    assert Terms(SortDict(st)).Keys == Terms(st).Keys;
    assert forall k :: k in Terms(st) ==> Terms(SortDict(st))[k] == Terms(st)[k];
  }

  lemma SortDictIsTheSame(
      st: Statement, actions: set<string>, resources: set<string>, action: string, resource: string)
    requires Within(st, actions, resources)
    ensures Within(SortDict(st), actions, resources)
    ensures CoversAction(SortDict(st), action) <==> CoversAction(st, action)
    ensures CoversResource(SortDict(st), resource) <==> CoversResource(st, resource)
  {
    if Action in st { SortDictElement(st, Action, action); }
    if NotAction in st { SortDictElement(st, NotAction, action); }
    if Resource in st { SortDictElement(st, Resource, resource); }
    if NotResource in st { SortDictElement(st, NotResource, resource); }
  }

  /** A kept statement, once sorted and normalised again, means what it meant. */
  lemma FinishedStatementIsTheSame(
      st: Statement, o: Statement, actions: set<string>, resources: set<string>, action: string, resource: string)
    requires Fits(st, o, actions, resources) && Regular(actions) && Regular(resources)
    ensures Terms(Normalized(SortDict(st))) == Terms(o)
    ensures CoversAction(Normalized(SortDict(st)), action) <==> CoversAction(st, action)
    ensures CoversResource(Normalized(SortDict(st)), resource) <==> CoversResource(st, resource)
  {
    SortDictIsTheSame(st, actions, resources, action, resource);
    SortDictKeepsTerms(st);
    NormalizedKeepsTerms(SortDict(st));
    NormalizedKeepsCoverage(SortDict(st), actions, resources, action, resource);
  }

  /** What becomes of statement `k` if it is kept: sorted, and normalised again. */
  function Finished(m: Merging<Statement>, k: nat): Statement
    requires k < |m.items|
  {
    Normalized(SortDict(m.items[k]))
  }

  lemma FinishedKeeps(sts: seq<Statement>, d: bool, k: nat, action: string, resource: string)
    requires AllWellFormed(sts) && AllRegular(sts) && k < |sts|
    ensures Merged(sts, d).Ok? && |Merged(sts, d).value.items| == |sts|
    ensures var st, fin := Merged(sts, d).value.items[k], Finished(Merged(sts, d).value, k);
      && Fits(st, NormalizedAll(sts)[k], ActionPool(sts), ResourcePool(sts))
      && Terms(fin) == Terms(sts[k]) && SameElements(fin, sts[k])
      && (CoversAction(fin, action) <==> CoversAction(st, action))
      && (CoversResource(fin, resource) <==> CoversResource(st, resource))
  {
    MergedIsSound(sts, d, OfAction(""));
    var m, orig := Merged(sts, d).value, NormalizedAll(sts);
    assert StatementJudge(ActionPool(sts), ResourcePool(sts), OfAction("")).fits(m.items[k], orig[k]);
    FinishedStatementIsTheSame(m.items[k], orig[k], ActionPool(sts), ResourcePool(sts), action, resource);
    NormalizedKeepsTerms(sts[k]);
    NormalizedKeepsTerms(SortDict(m.items[k]));
    assert SameElements(m.items[k], orig[k]);
  }

  lemma NormalizedGrants(sts: seq<Statement>, k: nat, action: string, resource: string)
    requires k < |sts| && AllRegular(sts)
    ensures Terms(NormalizedAll(sts)[k]) == Terms(sts[k])
    ensures CoversAction(NormalizedAll(sts)[k], action) <==> CoversAction(sts[k], action)
    ensures CoversResource(NormalizedAll(sts)[k], resource) <==> CoversResource(sts[k], resource)
  {
    EveryStatementIsWithin(sts, k);
    NormalizedKeepsTerms(sts[k]);
    NormalizedKeepsCoverage(sts[k], ActionPool(sts), ResourcePool(sts), action, resource);
  }

  // ---- What a kept statement covers in the end ----

  /** Statement `k` of the run was never absorbed. */
  predicate Kept(sts: seq<Statement>, d: bool, k: nat) {
    k < |sts| && Merged(sts, d).Ok? && |Merged(sts, d).value.items| == |sts| && k !in Merged(sts, d).value.excluded
  }

  /** Statement `l` ended in kept statement `k`. */
  predicate Member(sts: seq<Statement>, d: bool, l: nat, k: nat)
    requires Kept(sts, d, k)
  {
    l < |sts| && InGroup(Merged(sts, d).value, l, k)
  }

  /** An action listed by any of the group is listed; an action excluded by any of the group is excluded. */
  ghost predicate GroupCoversAction(sts: seq<Statement>, d: bool, k: nat, action: string)
    requires Kept(sts, d, k)
  {
    if NotAction in sts[k] then forall l: nat :: Member(sts, d, l, k) ==> CoversAction(sts[l], action)
    else exists l: nat :: Member(sts, d, l, k) && CoversAction(sts[l], action)
  }

  ghost predicate GroupCoversResource(sts: seq<Statement>, d: bool, k: nat, resource: string)
    requires Kept(sts, d, k)
  {
    if NotResource in sts[k] then forall l: nat :: Member(sts, d, l, k) ==> CoversResource(sts[l], resource)
    else exists l: nat :: Member(sts, d, l, k) && CoversResource(sts[l], resource)
  }

  lemma MembersAreAlike(sts: seq<Statement>, d: bool, l: nat, k: nat)
    requires AllWellFormed(sts) && Kept(sts, d, k) && Member(sts, d, l, k)
    ensures Alike(sts[l], sts[k])
    ensures WellFormed(sts[l]) && WellFormed(sts[k])
  {
    MergingIsAForest(sts, d);
    assert sts[l] in sts && sts[k] in sts;
  }

  lemma KeptNames(sts: seq<Statement>, d: bool, k: nat, q: Question)
    requires AllWellFormed(sts) && Kept(sts, d, k) && !q.OfRequest?
    ensures Answer(Merged(sts, d).value.items[k], q) <==>
              exists l: nat :: Member(sts, d, l, k) && Answer(NormalizedAll(sts)[l], q)
  {
    MergedIsSound(sts, d, q);
    var m, judge := Merged(sts, d).value, StatementJudge(ActionPool(sts), ResourcePool(sts), q);
    assert k !in m.owner && Faithful(m, k, NormalizedAll(sts), judge);
    assert GroupIsFull(m, k, judge);
    if l: nat :| Member(sts, d, l, k) && Answer(NormalizedAll(sts)[l], q) {
      assert judge.hit(NormalizedAll(sts)[l]);
      assert GroupHits(m, k, NormalizedAll(sts), judge);
    }
  }

  /** Exactly what a kept statement covers in the end. */
  lemma KeptCoverage(sts: seq<Statement>, d: bool, k: nat, action: string, resource: string)
    requires AllWellFormed(sts) && AllRegular(sts) && Kept(sts, d, k)
    ensures CoversAction(Finished(Merged(sts, d).value, k), action) <==> GroupCoversAction(sts, d, k, action)
    ensures CoversResource(Finished(Merged(sts, d).value, k), resource) <==> GroupCoversResource(sts, d, k, resource)
  {
    var item := Merged(sts, d).value.items[k];
    FinishedKeeps(sts, d, k, action, resource);
    KeptNames(sts, d, k, OfAction(action));
    KeptNames(sts, d, k, OfResource(resource));
    NamingIsCovering(item, action, resource);
    assert SameElements(item, NormalizedAll(sts)[k]);
    forall l: nat | Member(sts, d, l, k)
      ensures CoversAction(sts[l], action) <==> (NotAction in sts[k] <==> !NamesAction(NormalizedAll(sts)[l], action))
      ensures CoversResource(sts[l], resource) <==>
                (NotResource in sts[k] <==> !NamesResource(NormalizedAll(sts)[l], resource))
    {
      MembersAreAlike(sts, d, l, k);
      NormalizedGrants(sts, l, action, resource);
      NormalizedFits(sts, l);
      NormalizedKeepsTerms(sts[l]);
      NamingIsCovering(NormalizedAll(sts)[l], action, resource);
    }
  }

  /** Whatever a kept statement covers in the end, a statement of its group covered to begin with. */
  lemma KeptCoversNoMore(sts: seq<Statement>, d: bool, k: nat, action: string, resource: string)
    requires AllWellFormed(sts) && AllRegular(sts) && Kept(sts, d, k)
    ensures Covers(Finished(Merged(sts, d).value, k), action, resource) ==>
              exists l: nat :: Member(sts, d, l, k) && Terms(sts[l]) == Terms(sts[k])
                               && Covers(sts[l], action, resource)
  {
    if Covers(Finished(Merged(sts, d).value, k), action, resource) {
      var q := OfRequest(action, resource);
      FinishedKeeps(sts, d, k, action, resource);
      MergedIsSound(sts, d, q);
      var m, orig := Merged(sts, d).value, NormalizedAll(sts);
      var judge := StatementJudge(ActionPool(sts), ResourcePool(sts), q);
      assert judge.hit(m.items[k]) && Faithful(m, k, orig, judge);
      var l: nat :| l < |orig| && InGroup(m, l, k) && judge.hit(orig[l]);
      assert Member(sts, d, l, k);
      MembersAreAlike(sts, d, l, k);
      NormalizedGrants(sts, l, action, resource);
    }
  }

  /** Whatever kept statement `k` absorbed, it absorbed on Action or Resource. */
  ghost predicate AbsorbsOnListed(sts: seq<Statement>, d: bool, k: nat)
    requires Kept(sts, d, k)
  {
    forall j: nat :: j != k && Member(sts, d, j, k) ==> Merged(sts, d).value.owner[j].on in {Action, Resource}
  }

  /** A kept statement that absorbed others on no negated element covers in the end all that its group covered. */
  lemma KeptCoversNoLess(sts: seq<Statement>, d: bool, k: nat, action: string, resource: string)
    requires AllWellFormed(sts) && AllRegular(sts) && Kept(sts, d, k) && AbsorbsOnListed(sts, d, k)
    ensures (exists l: nat :: Member(sts, d, l, k) && Covers(sts[l], action, resource)) ==>
              Covers(Finished(Merged(sts, d).value, k), action, resource)
  {
    if l: nat :| Member(sts, d, l, k) && Covers(sts[l], action, resource) {
      var q := OfRequest(action, resource);
      FinishedKeeps(sts, d, k, action, resource);
      MergedIsSound(sts, d, q);
      NormalizedGrants(sts, l, action, resource);
      var m, orig := Merged(sts, d).value, NormalizedAll(sts);
      var judge := StatementJudge(ActionPool(sts), ResourcePool(sts), q);
      assert judge.hit(orig[l]) && GroupHits(m, k, orig, judge) && Faithful(m, k, orig, judge);
      assert GroupIsFull(m, k, judge) by {
        forall j | j in m.owner && m.owner[j].into == k ensures judge.full(m.owner[j].on) {
          assert Member(sts, d, j, k);
        }
      }
      assert judge.hit(m.items[k]);
    }
  }

  lemma OutputMembers(sts: seq<Statement>, d: bool, st: Statement)
    requires Merged(sts, d).Ok?
    ensures var m := Merged(sts, d).value;
      st in Minimized(sts, d).value <==> exists k :: 0 <= k < |m.items| && k !in m.excluded && Finished(m, k) == st
  {
    var m := Merged(sts, d).value;
    var kept, out := KeptFrom(m, 0), Minimized(sts, d).value;
    if st in out {
      var x :| 0 <= x < |out| && out[x] == st;
      KeptMembers(m, 0, kept[x]);
      var k :| 0 <= k < |m.items| && k !in m.excluded && m.items[k] == kept[x];
      assert Finished(m, k) == st;
    }
    forall k | 0 <= k < |m.items| && k !in m.excluded && Finished(m, k) == st ensures st in out {
      KeptMembers(m, 0, m.items[k]);
      var x :| 0 <= x < |kept| && kept[x] == m.items[k];
      assert out[x] == st;
    }
  }
}
