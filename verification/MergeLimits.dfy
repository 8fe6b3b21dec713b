/** The limits of minimisation: excluded principals can make it fail, and exclusions can make it lose coverage. */
module MergeLimits {
  import opened Globs
  import opened MergeLoops
  import opened Minimization
  import opened MinimizedMeaning
  import opened MinimizedRuns
  import opened NegatedMerges
  import opened Normalization
  import opened Outcomes
  import opened Statements
  import opened Strings

  // ---- When minimisation raises ----

  /** Well-formed, but for the principals the statement may exclude. */
  predicate WellFormedForAnyPrincipal(st: Statement) {
    WellFormed(st - {NotPrincipal}) && (NotPrincipal in st ==> st[NotPrincipal] != Text(""))
  }

  /** Tidy, but for the principals the statement may exclude. */
  predicate TidyForAnyPrincipal(st: Statement) {
    Tidy(st - {NotPrincipal}) && (NotPrincipal in st ==> st[NotPrincipal].Entries?)
  }

  /** Joining two statements raises, and then a KeyError, exactly when they agree but for excluded principals that only
      one of them has. */
  lemma MergeFailsIff(a: Statement, b: Statement)
    requires TidyForAnyPrincipal(a) && TidyForAnyPrincipal(b)
    ensures TryMerge(a, b).Failed? <==>
              (NotPrincipal in a <==> NotPrincipal !in b) && AgreeOutside(a, b, NotPrincipal, false)
    ensures TryMerge(a, b).Failed? ==> TryMerge(a, b).error == KeyError
  {
    MayMergeIff(a, b, NotPrincipal, false);
    hide AgreeOutside;
    if NotPrincipal in a <==> NotPrincipal !in b { OnlyPrincipalsDiffer(a, b); }
    var c := Candidate(a, b, 0);
    if c.Some? && c.value != NotPrincipal {
      MergeIsDefinedButForPrincipals(a, b, c.value);
    }
  }

  lemma MergeIsDefinedButForPrincipals(a: Statement, b: Statement, e: Field)
    requires TidyForAnyPrincipal(a) && TidyForAnyPrincipal(b) && IsElement(e) && e != NotPrincipal && MayMerge(a, b, e)
    ensures e in a && e in b && a[e].Entries? && b[e].Entries? && (NotPrincipal in a <==> NotPrincipal in b)
  {
    var x, y := a - {NotPrincipal}, b - {NotPrincipal};
    assert NotPrincipal in a.Keys - {e} <==> NotPrincipal in b.Keys - {e};
    assert x.Keys - {e} == (a.Keys - {e}) - {NotPrincipal} && y.Keys - {e} == (b.Keys - {e}) - {NotPrincipal};
    assert MayMerge(x, y, e);
    MergeIsDefined(x, y, e);
  }

  lemma OnlyPrincipalsDiffer(a: Statement, b: Statement)
    requires NotPrincipal in a <==> NotPrincipal !in b
    ensures Candidate(a, b, 0) == if MayMerge(a, b, NotPrincipal) then Some(NotPrincipal) else None
  {
    forall e | e != NotPrincipal ensures !SameExcept(a, b, e) {
      assert NotPrincipal in a.Keys - {e} <==> NotPrincipal !in b.Keys - {e};
    }
    assert Candidate(a, b, 5) == None;
    assert Candidate(a, b, 4) == if MayMerge(a, b, NotPrincipal) then Some(NotPrincipal) else None;
    assert Candidate(a, b, 2) == Candidate(a, b, 3) == Candidate(a, b, 4);
  }

  /** Under equal terms, with the same elements but for excluded principals, which only one of them has. */
  predicate OnlyOneExcludesPrincipals(o: Statement, p: Statement) {
    Alike(o - {NotPrincipal}, p - {NotPrincipal}) && (NotPrincipal in o <==> NotPrincipal !in p)
  }

  ghost function FailureJudge(): Judge<Statement> {
    Judge((st, o) => TidyForAnyPrincipal(st) && Alike(st, o), st => false, (o, p, e) => true, e => true,
          (o, p, error) => error == KeyError && OnlyOneExcludesPrincipals(o, p))
  }

  lemma WithoutPrincipals(o: Statement, p: Statement)
    ensures Alike(o, p) <==>
              Alike(o - {NotPrincipal}, p - {NotPrincipal}) && (NotPrincipal in o <==> NotPrincipal in p)
  {
    var x, y := o - {NotPrincipal}, p - {NotPrincipal};
    assert Terms(x) == Terms(o) by { assert Terms(x).Keys == Terms(o).Keys; }
    assert Terms(y) == Terms(p) by { assert Terms(y).Keys == Terms(p).Keys; }
  }

  lemma MergedStaysTidy(a: Statement, b: Statement, e: Field)
    requires TidyForAnyPrincipal(a) && TidyForAnyPrincipal(b) && IsElement(e) && e in a && e in b
    ensures var merged := MergedOn(a, b, e);
      merged.Ok? && TidyForAnyPrincipal(merged.value) && Alike(merged.value, a)
  {
    var x, y := a - {NotPrincipal}, b - {NotPrincipal};
    assert e != NotPrincipal ==> x[e] == a[e] && y[e] == b[e];
    assert a[e].Entries? && b[e].Entries?;
    ElementReplaced(a, e, SortedSet(a[e].entries + b[e].entries));
  }

  lemma ElementReplaced(st: Statement, e: Field, xs: seq<string>)
    requires TidyForAnyPrincipal(st) && IsElement(e) && e in st
    ensures TidyForAnyPrincipal(st[e := Entries(xs)]) && Alike(st[e := Entries(xs)], st)
  {
    var out := st[e := Entries(xs)];
    if e == NotPrincipal {
      assert out - {NotPrincipal} == st - {NotPrincipal};
    } else {
      assert out - {NotPrincipal} == (st - {NotPrincipal})[e := Entries(xs)];
    }
    ReplacedKeepsTerms(st, e, Entries(xs));
  }

  lemma FailedPairIsMismatched(a: Statement, b: Statement, oa: Statement, ob: Statement)
    requires MayMerge(a, b, NotPrincipal) && (NotPrincipal in a <==> NotPrincipal !in b)
    requires Alike(a, oa) && Alike(b, ob)
    ensures OnlyOneExcludesPrincipals(oa, ob)
  {
    var x, y := a - {NotPrincipal}, b - {NotPrincipal};
    assert forall k :: k in x <==> k in a.Keys - {NotPrincipal};
    assert forall k :: k in y <==> k in b.Keys - {NotPrincipal};
    assert Terms(x) == Terms(y) by {
      assert Terms(x).Keys == Terms(y).Keys;
      assert forall k :: k in Terms(x) ==> Terms(x)[k] == Terms(y)[k];
    }
    WithoutPrincipals(a, oa);
    WithoutPrincipals(b, ob);
  }

  lemma CleanStaysTidy(st: Statement, d: bool)
    requires TidyForAnyPrincipal(st)
    ensures TidyForAnyPrincipal(WithoutSid(st, d)) && Alike(WithoutSid(st, d), st)
  {
    assert st - {Sid} - {NotPrincipal} == st - {NotPrincipal} - {Sid};
    assert Terms(WithoutSid(st, d)).Keys == Terms(st).Keys;
  }

  lemma FailureRulesAreSound(d: bool)
    ensures CleanIsHarmless(MergeRules(d), FailureJudge())
    ensures JoinIsSound(MergeRules(d), FailureJudge())
  {
    var rules, judge := MergeRules(d), FailureJudge();
    forall x, o | judge.fits(x, o)
      ensures judge.fits(rules.clean(x), o) && judge.hit(rules.clean(x)) == judge.hit(x)
    {
      CleanStaysTidy(x, d);
    }
    forall a, b, oa, ob | judge.fits(a, oa) && judge.fits(b, ob)
      ensures SoundAttempt(rules.join(a, b), a, b, oa, ob, judge)
    {
      TryMergeFailsForMismatch(a, b, oa, ob);
    }
  }

  lemma TryMergeFailsForMismatch(a: Statement, b: Statement, oa: Statement, ob: Statement)
    requires TidyForAnyPrincipal(a) && TidyForAnyPrincipal(b) && Alike(a, oa) && Alike(b, ob)
    ensures SoundAttempt(TryMerge(a, b), a, b, oa, ob, FailureJudge())
  {
    MergeFailsIff(a, b);
    MayMergeIff(a, b, NotPrincipal, false);
    var c := Candidate(a, b, 0);
    if TryMerge(a, b).Failed? {
      FailedPairIsMismatched(a, b, oa, ob);
    } else if c.Some? {
      MergedStaysTidy(a, b, c.value);
    }
  }

  lemma NormalizedIsTidyForAnyPrincipal(st: Statement)
    requires WellFormedForAnyPrincipal(st)
    ensures TidyForAnyPrincipal(Normalized(st))
  {
    var x := st - {NotPrincipal};
    EveryStatementIsWithin([x], 0);
    NormalizedIsTidy(x, ActionPool([x]), ResourcePool([x]));
    NormalizedWithoutPrincipals(st);
  }

  /** Minimisation raises nothing but a KeyError, and only where two statements of the list could be merged if not one
      of them alone excluded principals. */
  lemma MinimizedFailsOnlyFor(sts: seq<Statement>, d: bool)
    requires forall st :: st in sts ==> WellFormedForAnyPrincipal(st)
    requires Minimized(sts, d).Err?
    ensures Minimized(sts, d).error == KeyError
    ensures exists x, y :: 0 <= x < y < |sts| && OnlyOneExcludesPrincipals(sts[x], sts[y])
  {
    var orig := NormalizedAll(sts);
    FailureRulesAreSound(d);
    forall k | 0 <= k < |orig| ensures FailureJudge().fits(orig[k], orig[k]) {
      assert sts[k] in sts;
      NormalizedIsTidyForAnyPrincipal(sts[k]);
    }
    LoopsAreSound(orig, MergeRules(d), FailureJudge());
    assert Merged(sts, d).Err?;
    var x, y :| 0 <= x < y < |orig| && FailureJudge().fails(orig[x], orig[y], Merged(sts, d).error);
    NormalizedMismatch(sts[x], sts[y]);
  }

  lemma NormalizedMismatch(o: Statement, p: Statement)
    requires OnlyOneExcludesPrincipals(Normalized(o), Normalized(p))
    ensures OnlyOneExcludesPrincipals(o, p)
  {
    NormalizedWithoutPrincipals(o);
    NormalizedWithoutPrincipals(p);
    NormalizedIsAlike(o - {NotPrincipal}, p - {NotPrincipal});
    hide Normalized, Alike;
  }

  lemma NormalizedWithoutPrincipals(st: Statement)
    ensures Normalized(st) - {NotPrincipal} == Normalized(st - {NotPrincipal})
    ensures NotPrincipal in Normalized(st) <==> NotPrincipal in st
  {
  }

  // ---- Lists of two ----

  lemma RunOnTwo<T>(x: T, y: T, rules: Rules<T>)
    ensures var run := AbsorbAll(Start([x, y]), 0, rules);
      match rules.join(rules.clean(x), rules.clean(y))
      case Apart => run.Ok? && run.value.excluded == []
      case Joined(item, on) => run.Ok? && run.value.excluded == [1] && run.value.owner == map[1 := Absorption(0, on)]
      case Failed(error) => run == Err(error)
  {
    var m0 := Start([x, y]);
    var m1 := Cleaned(m0, 0, rules);
    assert m1.items == [rules.clean(x), y];
    var m2 := Cleaned(m1, 1, rules);
    assert m2.items == [rules.clean(x), rules.clean(y)];
    var met := Meet(m1, 0, 1, rules);
    if met.Ok? {
      assert Absorb(met.value, 0, 2, rules) == met;
      assert Turn(m0, 0, rules) == met;
      assert Turn(met.value, 1, rules).Ok?;
      var m4 := Turn(met.value, 1, rules).value;
      assert m4.owner == met.value.owner && m4.excluded == met.value.excluded;
      assert AbsorbAll(m4, 2, rules) == Ok(m4);
    }
  }

  /** What the first turn makes of a statement. */
  function Prepared(st: Statement, d: bool): Statement {
    WithoutSid(Normalized(st), d)
  }

  lemma MergedOnTwo(a: Statement, b: Statement, d: bool)
    ensures var run := Merged([a, b], d);
      match TryMerge(Prepared(a, d), Prepared(b, d))
      case Apart => run.Ok? && run.value.excluded == []
      case Joined(item, on) => run.Ok? && run.value.excluded == [1] && run.value.owner == map[1 := Absorption(0, on)]
      case Failed(error) => run == Err(error)
  {
    assert NormalizedAll([a, b]) == [Normalized(a), Normalized(b)];
    RunOnTwo(Normalized(a), Normalized(b), MergeRules(d));
  }

  /** On two statements: minimisation raises exactly when they agree, once normalised, but for excluded principals that
      only one of them has. */
  lemma PairFailsIff(a: Statement, b: Statement, d: bool)
    requires WellFormedForAnyPrincipal(a) && WellFormedForAnyPrincipal(b)
    ensures Minimized([a, b], d).Err? <==>
              (NotPrincipal in a <==> NotPrincipal !in b) && AgreeOutside(Normalized(a), Normalized(b), NotPrincipal, d)
    ensures Minimized([a, b], d).Err? ==> Minimized([a, b], d).error == KeyError
  {
    MergedOnTwo(a, b, d);
    PreparedIsTidy(a, d);
    PreparedIsTidy(b, d);
    MergeFailsIff(Prepared(a, d), Prepared(b, d));
    MayMergeIff(Prepared(a, d), Prepared(b, d), NotPrincipal, false);
    MayMergeIff(Normalized(a), Normalized(b), NotPrincipal, d);
    hide AgreeOutside, MayMerge, Normalized;
  }

  lemma PreparedIsTidy(st: Statement, d: bool)
    requires WellFormedForAnyPrincipal(st)
    ensures TidyForAnyPrincipal(Prepared(st, d)) && (NotPrincipal in Prepared(st, d) <==> NotPrincipal in st)
  {
    NormalizedIsTidyForAnyPrincipal(st);
    NormalizedWithoutPrincipals(st);
    CleanStaysTidy(Normalized(st), d);
    hide TidyForAnyPrincipal, Normalized;
  }

  /** Two statements that are merged keep their meaning if and only if they listed the same exclusions once normalised,
      on whatever element they are merged. */
  lemma PairKeepsMeaningIff(sts: seq<Statement>, d: bool, e: Field)
    requires |sts| == 2 && AllWellFormed(sts) && AllRegular(sts)
    requires CoversSomething(sts[0]) && CoversSomething(sts[1])
    requires AgreeOutside(Normalized(sts[0]), Normalized(sts[1]), e, d)
    ensures Minimized(sts, d).Ok? && |Minimized(sts, d).value| == 1
    ensures KeepsMeaning(sts, d) <==> SameExclusions(Normalized(sts[0]), Normalized(sts[1]))
  {
    hide *;
    PreparedMayMerge(sts[0], sts[1], d, e);
    PairIsOneGroup(sts, d, e);
    assert forall st :: st in sts ==> CoversSomething(st);
    OneGroupKeepsMeaningIff(sts, d);
    SameExclusionsIsEquivalence(Normalized(sts[0]), Normalized(sts[1]));
  }

  lemma PreparedMayMerge(a: Statement, b: Statement, d: bool, e: Field)
    ensures AgreeOutside(Normalized(a), Normalized(b), e, d) <==>
              IsElement(e) && MayMerge(Prepared(a, d), Prepared(b, d), e)
  {
    MayMergeIff(Normalized(a), Normalized(b), e, d);
  }

  lemma SameExclusionsIsEquivalence(a: Statement, b: Statement)
    ensures SameExclusions(a, a) && SameExclusions(b, b) && (SameExclusions(a, b) <==> SameExclusions(b, a))
  {
  }

  /** The same for a list that ends in one statement. */
  lemma OneGroupKeepsMeaningIff(sts: seq<Statement>, d: bool)
    requires AllWellFormed(sts) && AllRegular(sts) && sts != []
    requires Kept(sts, d, 0) && forall l: nat :: l < |sts| ==> Member(sts, d, l, 0)
    requires forall st :: st in sts ==> CoversSomething(st)
    ensures KeepsMeaning(sts, d) <==>
              forall l: nat, x: nat :: l < |sts| && x < |sts| ==> SameExclusions(Normalized(sts[l]), Normalized(sts[x]))
  {
    forall k: nat | Kept(sts, d, k) ensures k == 0 { OnlyOneIsKept(sts, d, k); }
    hide Merged, Normalized, SameExclusions, CoversSomething, AllWellFormed, AllRegular, Kept;
    assert forall l: nat :: Member(sts, d, l, 0) <==> l < |sts|;
    MinimizedKeepsMeaningIff(sts, d);
    GroupKeepsMeaningIff(sts, d, 0);
    GroupKeepsMeaningIffListsAgree(sts, d, 0);
  }

  lemma OnlyOneIsKept(sts: seq<Statement>, d: bool, k: nat)
    requires AllWellFormed(sts) && Kept(sts, d, k) && sts != []
    requires Kept(sts, d, 0) && forall l: nat :: l < |sts| ==> Member(sts, d, l, 0)
    ensures k == 0
  {
    MergingIsAForest(sts, d);
    assert Member(sts, d, k, 0);
  }

  lemma PairIsOneGroup(sts: seq<Statement>, d: bool, e: Field)
    requires |sts| == 2 && AllWellFormed(sts)
    requires IsElement(e) && MayMerge(Prepared(sts[0], d), Prepared(sts[1], d), e)
    ensures Minimized(sts, d).Ok? && |Minimized(sts, d).value| == 1
    ensures Kept(sts, d, 0) && Member(sts, d, 0, 0) && Member(sts, d, 1, 0)
  {
    assert sts == [sts[0], sts[1]];
    PairIsMerged(sts[0], sts[1], d, e);
    MergingIsAForest(sts, d);
    hide Merged, Minimized, AllWellFormed, MayMerge, Prepared;
    assert Merged(sts, d).value.owner[1].into == 0;
  }

  lemma PairIsMerged(a: Statement, b: Statement, d: bool, e: Field)
    requires AllWellFormed([a, b]) && IsElement(e) && MayMerge(Prepared(a, d), Prepared(b, d), e)
    ensures Merged([a, b], d).Ok? && Merged([a, b], d).value.excluded == [1]
    ensures Merged([a, b], d).value.owner.Keys == {1} && Merged([a, b], d).value.owner[1].into == 0
  {
    var x, y := Prepared(a, d), Prepared(b, d);
    MergedOnTwo(a, b, d);
    MergedIsSound([a, b], d, OfAction(""));
    CandidateFound(x, y, e, 0);
  }

  lemma {:induction false} CandidateFound(a: Statement, b: Statement, e: Field, n: nat)
    requires n <= Position(e) < 5 && MayMerge(a, b, e)
    ensures Candidate(a, b, n).Some?
    decreases 5 - n
  {
    if n == Position(e) {
    } else {
      CandidateFound(a, b, e, n + 1);
    }
  }

  // ---- Each limit at a concrete input ----

  const READS: Statement :=
    map[Effect := Text("Allow"), Action := Entries(["s3:*"]), Resource := Entries(["*"])]

  const READS_FOR_OTHERS: Statement := READS[NotPrincipal := Entries(["arn:aws:iam::1:root"])]

  const ALL_BUT_IAM: Statement :=
    map[Effect := Text("Allow"), NotAction := Entries(["iam:*"]), Resource := Entries(["*"])]

  const ALL_BUT_S3: Statement :=
    map[Effect := Text("Allow"), NotAction := Entries(["s3:*"]), Resource := Entries(["*"])]

  const ELSEWHERE_THAN_A: Statement :=
    map[Effect := Text("Allow"), Action := Entries(["*"]), NotResource := Entries(["a*"])]

  const ELSEWHERE_THAN_B: Statement :=
    map[Effect := Text("Allow"), Action := Entries(["*"]), NotResource := Entries(["b*"])]

  lemma OneEntry(e: Field, p: string)
    ensures NormalList(e, [p]) == [Folded(e, p)]
  {
    var q := Folded(e, p);
    var ps := FoldedAll(e, [p]);
    assert ps == [q];
    assert !Superseded(q, ps);
    OnlyOne(NormalList(e, [p]), q);
  }

  lemma OnlyOne(xs: seq<string>, q: string)
    requires StrictlySorted(xs) && forall x :: x in xs <==> x == q
    ensures xs == [q]
  {
    StrictlySortedIsUnique(xs, [q]);
  }

  lemma {:induction false} StarMatchesRest(p: string, s: string)
    ensures IamMatch(p + s, p + "*")
    decreases |p| + |s|
  {
    if p == "" {
      assert p + "*" == "*" && p + s == s && "*"[1..] == "";
      if s != "" {
        StarMatchesRest("", s[1..]);
        assert "" + s[1..] == s[1..] && "" + "*" == "*";
      }
    } else {
      StarMatchesRest(p[1..], s);
      assert (p + s)[1..] == p[1..] + s && (p + "*")[1..] == p[1..] + "*";
      if p[0] == '*' { assert IamMatch((p + s)[1..], (p + "*")[1..]); StarTakesMore(p + s, p + "*"); }
    }
  }

  lemma StarTakesMore(s: string, p: string)
    requires s != "" && p != "" && p[0] == '*' && IamMatch(s[1..], p[1..])
    ensures IamMatch(s, p)
  {
    assert IamMatch(s[1..], p);
  }

  lemma PreparedPointwise(a: Statement, b: Statement, d: bool, k: Field)
    requires (k in a <==> k in b) && (k in a ==> a[k] == b[k])
    ensures k in Prepared(a, d) <==> k in Prepared(b, d)
    ensures k in Prepared(a, d) ==> Prepared(a, d)[k] == Prepared(b, d)[k]
  {
    hide NormalList;
  }

  lemma AgreementMerges(x: Statement, y: Statement, e: Field)
    requires Truthy(y, e) && x - {e} == y - {e}
    ensures MayMerge(x, y, e)
  {
    hide AsUnordered;
    forall k | k in x && k != e ensures k in y && x[k] == y[k] { assert (x - {e})[k] == (y - {e})[k]; }
    forall k | k in y && k != e ensures k in x { assert k in y - {e}; }
  }

  lemma ListedIsPrepared(st: Statement, d: bool, e: Field, p: string)
    requires IsElement(e) && e in st && st[e] == Entries([p])
    ensures Truthy(Prepared(st, d), e)
  {
    NormalizedAt(st, e);
    OneEntry(e, p);
    hide NormalList;
  }

  /** Statements that differ in one element only, of which the second lists one entry, are merged on it. */
  lemma MayMergeOnOneEntry(a: Statement, b: Statement, d: bool, e: Field, p: string)
    requires IsElement(e) && e in b && b[e] == Entries([p]) && a - {e} == b - {e}
    ensures MayMerge(Prepared(a, d), Prepared(b, d), e)
  {
    var x, y := Prepared(a, d), Prepared(b, d);
    hide *;
    forall k | k != e ensures k in x <==> k in y ensures k in x ==> x[k] == y[k] {
      assert k in a - {e} <==> k in b - {e};
      assert k in a ==> (a - {e})[k] == (b - {e})[k];
      PreparedPointwise(a, b, d, k);
    }
    assert x - {e} == y - {e};
    ListedIsPrepared(b, d, e, p);
    AgreementMerges(x, y, e);
  }

  lemma PrincipalsAdded(st: Statement, p: string)
    requires WellFormed(st)
    ensures var other := st[NotPrincipal := Entries([p])];
      && WellFormedForAnyPrincipal(st) && WellFormedForAnyPrincipal(other) && NotPrincipal !in st
      && st - {NotPrincipal} == other - {NotPrincipal}
  {
    assert st[NotPrincipal := Entries([p])] - {NotPrincipal} == st == st - {NotPrincipal};
  }

  /** A statement beside itself with principals excluded: the minimiser raises. */
  lemma PrincipalsAddedRaise(st: Statement, d: bool, p: string)
    requires WellFormed(st)
    ensures Minimized([st, st[NotPrincipal := Entries([p])]], d) == Err(KeyError)
  {
    hide WellFormed, WellFormedForAnyPrincipal, Minimized, MayMerge, Prepared, AgreeOutside, Normalized;
    var other := st[NotPrincipal := Entries([p])];
    PrincipalsAdded(st, p);
    PairFailsIff(st, other, d);
    MayMergeOnOneEntry(st, other, d, NotPrincipal, p);
    PreparedMayMerge(st, other, d, NotPrincipal);
  }

  lemma ExcludedPrincipalsRaise(d: bool)
    ensures Minimized([READS, READS_FOR_OTHERS], d) == Err(KeyError)
  {
    hide Minimized;
    PrincipalsAddedRaise(READS, d, "arn:aws:iam::1:root");
  }

  /** What only the second of two merged statements covers is lost if they are merged on exclusions. */
  lemma PairLoses(sts: seq<Statement>, d: bool, e: Field, action: string, resource: string)
    requires |sts| == 2 && AllWellFormed(sts) && AllRegular(sts)
    requires IsElement(e) && MayMerge(Prepared(sts[0], d), Prepared(sts[1], d), e)
    requires Covers(sts[1], action, resource)
    requires (NotAction in sts[0] && !CoversAction(sts[0], action)) ||
             (NotResource in sts[0] && !CoversResource(sts[0], resource))
    ensures Grants(sts, Terms(sts[1]), action, resource)
    ensures Minimized(sts, d).Ok? && !Grants(Minimized(sts, d).value, Terms(sts[1]), action, resource)
  {
    hide Minimized, Merged, AllWellFormed, AllRegular, MayMerge, Prepared, Covers, CoversAction, CoversResource, Terms;
    PairIsOneGroup(sts, d, e);
    MinimizedCoverage(sts, d, Terms(sts[1]), action, resource);
    forall k: nat | Kept(sts, d, k) ensures !GroupGrants(sts, d, k, Terms(sts[1]), action, resource) {
      OnlyOneIsKept(sts, d, k);
    }
    assert sts[1] in sts;
  }

  /** One entry names what it matches. */
  lemma OneEntryNames(e: Field, p: string, s: string)
    ensures Names(e, Entries([p]), s) <==> IamMatch(Folded(e, s), Folded(e, p))
  {
    var ps := FoldedAll(e, [p]);
    assert ps == [Folded(e, p)];
    assert ps[0] in ps;
  }

  predicate AllPlain(st: Statement) {
    forall e :: e in st.Keys && IsElement(e) ==> forall p :: p in AsList(st[e]) ==> PlainPattern(p)
  }

  lemma PairIsRegular(a: Statement, b: Statement)
    requires WellFormed(a) && WellFormed(b) && AllPlain(a) && AllPlain(b)
    ensures AllWellFormed([a, b]) && AllRegular([a, b])
  {
    forall st, e, p | st in [a, b] && e in st && IsElement(e) && p in AsList(st[e]) ensures PlainPattern(p) {
      assert st == a || st == b;
    }
    PlainPatternsAreRegular([a, b]);
  }

  lemma LiteralsArePlain()
    ensures PlainPattern("*") && PlainPattern("iam:*") && PlainPattern("s3:*")
    ensures PlainPattern("a*") && PlainPattern("b*")
  {
  }

  /** Of two statements that exclude one action each, what only the first excludes is lost. */
  lemma OtherActionIsLost(a: Statement, b: Statement, d: bool, p: string, q: string, action: string, resource: string)
    requires WellFormed(a) && WellFormed(b) && AllPlain(a) && AllPlain(b)
    requires a == b[NotAction := Entries([p])] && NotAction in b && b[NotAction] == Entries([q])
    requires IamMatch(Lower(action), Lower(p)) && !IamMatch(Lower(action), Lower(q)) && CoversResource(b, resource)
    ensures var sts := [a, b];
      && Grants(sts, Terms(b), action, resource) && Minimized(sts, d).Ok?
      && !Grants(Minimized(sts, d).value, Terms(b), action, resource)
  {
    PairIsRegular(a, b);
    MayMergeOnOneEntry(a, b, d, NotAction, q);
    OneEntryNames(NotAction, p, action);
    OneEntryNames(NotAction, q, action);
    assert CoversAction(b, action) && !CoversAction(a, action);
    hide CoversAction, CoversResource, Terms, AllPlain, Prepared, AllWellFormed, AllRegular, Grants;
    var sts := [a, b];
    PairLoses(sts, d, NotAction, action, resource);
  }

  lemma OtherResourceIsLost(a: Statement, b: Statement, d: bool, p: string, q: string, action: string, resource: string)
    requires WellFormed(a) && WellFormed(b) && AllPlain(a) && AllPlain(b)
    requires a == b[NotResource := Entries([p])] && NotResource in b && b[NotResource] == Entries([q])
    requires IamMatch(resource, p) && !IamMatch(resource, q) && CoversAction(b, action)
    ensures var sts := [a, b];
      && Grants(sts, Terms(b), action, resource) && Minimized(sts, d).Ok?
      && !Grants(Minimized(sts, d).value, Terms(b), action, resource)
  {
    PairIsRegular(a, b);
    MayMergeOnOneEntry(a, b, d, NotResource, q);
    OneEntryNames(NotResource, p, resource);
    OneEntryNames(NotResource, q, resource);
    assert CoversResource(b, resource) && !CoversResource(a, resource);
    hide CoversAction, CoversResource, Terms, AllPlain, Prepared, AllWellFormed, AllRegular, Grants;
    var sts := [a, b];
    PairLoses(sts, d, NotResource, action, resource);
  }

  lemma LiteralsAreInOrder()
    ensures forall st :: st in {ALL_BUT_IAM, ALL_BUT_S3, ELSEWHERE_THAN_A, ELSEWHERE_THAN_B} ==>
              WellFormed(st) && AllPlain(st)
  {
    LiteralsArePlain();
  }

  lemma ReadingS3()
    ensures IamMatch(Lower("s3:getobject"), Lower("s3:*")) && !IamMatch(Lower("s3:getobject"), Lower("iam:*"))
  {
    assert Lower("s3:getobject") == "s3:" + "getobject" && Lower("s3:*") == "s3:" + "*" && Lower("iam:*") == "iam:*";
    StarMatchesRest("s3:", "getobject");
  }

  lemma EveryResource(st: Statement, resource: string)
    requires Resource in st && st[Resource] == Entries(["*"])
    ensures CoversResource(st, resource)
  {
    StarMatchesRest("", resource);
    assert "" + resource == resource && "" + "*" == "*";
    OneEntryNames(Resource, "*", resource);
  }

  lemma EveryAction(st: Statement, action: string)
    requires Action in st && st[Action] == Entries(["*"])
    ensures CoversAction(st, action)
  {
    StarMatchesRest("", Lower(action));
    assert "" + Lower(action) == Lower(action) && "" + "*" == "*" == Lower("*");
    OneEntryNames(Action, "*", action);
  }

  /** All actions but IAM's, and all actions but S3's: reading S3 is granted before, and by nothing afterwards. */
  lemma ExcludedActionsLose(d: bool)
    ensures var sts, terms := [ALL_BUT_S3, ALL_BUT_IAM], Terms(ALL_BUT_IAM);
      && Grants(sts, terms, "s3:getobject", "r") && Minimized(sts, d).Ok?
      && !Grants(Minimized(sts, d).value, terms, "s3:getobject", "r")
  {
    LiteralsAreInOrder();
    ReadingS3();
    EveryResource(ALL_BUT_IAM, "r");
    hide WellFormed, AllPlain, Minimized, Grants, Terms, IamMatch, Lower, CoversResource;
    assert ALL_BUT_S3 == ALL_BUT_IAM[NotAction := Entries(["s3:*"])];
    OtherActionIsLost(ALL_BUT_S3, ALL_BUT_IAM, d, "s3:*", "iam:*", "s3:getobject", "r");
  }

  /** Likewise for resources. */
  lemma ExcludedResourcesLose(d: bool)
    ensures var sts, terms := [ELSEWHERE_THAN_A, ELSEWHERE_THAN_B], Terms(ELSEWHERE_THAN_B);
      && Grants(sts, terms, "s3:getobject", "a1") && Minimized(sts, d).Ok?
      && !Grants(Minimized(sts, d).value, terms, "s3:getobject", "a1")
  {
    LiteralsAreInOrder();
    assert "a" + "1" == "a1" && "a" + "*" == "a*";
    StarMatchesRest("a", "1");
    EveryAction(ELSEWHERE_THAN_B, "s3:getobject");
    assert !IamMatch("a1", "b*");
    hide WellFormed, AllPlain, Minimized, Grants, Terms, IamMatch, CoversAction;
    assert ELSEWHERE_THAN_A == ELSEWHERE_THAN_B[NotResource := Entries(["a*"])];
    OtherResourceIsLost(ELSEWHERE_THAN_A, ELSEWHERE_THAN_B, d, "a*", "b*", "s3:getobject", "a1");
  }
}
