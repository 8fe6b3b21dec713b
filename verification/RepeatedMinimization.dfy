/** Whether minimising once combines all it can: where it does not, and how to tell. */
module RepeatedMinimization {
  import opened Globs
  import opened MergeLimits
  import opened MergeLoops
  import opened Minimization
  import opened MinimizedRuns
  import opened Normalization
  import opened Outcomes
  import opened Statements
  import opened Strings

  // ---- When the loops absorb nothing ----

  /** The two items, as the loops first see them, are joined. */
  predicate Join<T>(items: seq<T>, i: nat, j: nat, rules: Rules<T>)
    requires i < |items| && j < |items|
  {
    rules.join(rules.clean(items[i]), rules.clean(items[j])).Joined?
  }

  ghost predicate CleanOnce<T(!new)>(rules: Rules<T>) {
    forall x :: rules.clean(rules.clean(x)) == rules.clean(x)
  }

  /** Nothing was absorbed so far, and items were at most cleaned. */
  ghost predicate Untouched<T>(m: Merging<T>, items: seq<T>, rules: Rules<T>) {
    && m.excluded == [] && |m.items| == |items|
    && forall k :: 0 <= k < |items| ==> rules.clean(m.items[k]) == rules.clean(items[k])
  }

  lemma {:induction false} AbsorbAddsOnly<T>(m: Merging<T>, i: nat, j: nat, rules: Rules<T>)
    requires i < j && i < |m.items| && Absorb(m, i, j, rules).Ok?
    ensures |m.excluded| <= |Absorb(m, i, j, rules).value.excluded|
    decreases |m.items| - j
  {
    if j >= |m.items| {
    } else {
      AbsorbAddsOnly(Meet(m, i, j, rules).value, i, j + 1, rules);
    }
  }

  lemma {:induction false} AbsorbAllAddsOnly<T>(m: Merging<T>, i: nat, rules: Rules<T>)
    requires AbsorbAll(m, i, rules).Ok?
    ensures |m.excluded| <= |AbsorbAll(m, i, rules).value.excluded|
    decreases |m.items| - i
  {
    if i >= |m.items| {
    } else {
      var c := Cleaned(m, i, rules);
      if i !in c.excluded { AbsorbAddsOnly(c, i, i + 1, rules); }
      AbsorbAllAddsOnly(Turn(m, i, rules).value, i + 1, rules);
    }
  }

  lemma {:induction false} AbsorbsNothingIff<T(!new)>(m: Merging<T>, i: nat, j: nat, items: seq<T>, rules: Rules<T>)
    requires CleanOnce(rules) && Untouched(m, items, rules) && i < j && i < |items|
    requires m.items[i] == rules.clean(items[i]) && Absorb(m, i, j, rules).Ok?
    ensures var n := Absorb(m, i, j, rules).value;
      if exists y :: j <= y < |items| && Join(items, i, y, rules) then n.excluded != [] else Untouched(n, items, rules)
    decreases |m.items| - j
  {
    if j >= |m.items| {
    } else {
      var next := Meet(m, i, j, rules).value;
      if Join(items, i, j, rules) {
        AbsorbAddsOnly(next, i, j + 1, rules);
      } else {
        AbsorbsNothingIff(next, i, j + 1, items, rules);
      }
    }
  }

  lemma {:induction false} AbsorbsNothingFrom<T(!new)>(m: Merging<T>, i: nat, items: seq<T>, rules: Rules<T>)
    requires CleanOnce(rules) && Untouched(m, items, rules) && AbsorbAll(m, i, rules).Ok?
    ensures AbsorbAll(m, i, rules).value.excluded == [] <==>
              forall x, y :: i <= x < y < |items| ==> !Join(items, x, y, rules)
    decreases |m.items| - i
  {
    if i >= |m.items| {
    } else {
      var c := Cleaned(m, i, rules);
      AbsorbsNothingIff(c, i, i + 1, items, rules);
      var next := Turn(m, i, rules).value;
      if exists y :: i + 1 <= y < |items| && Join(items, i, y, rules) {
        AbsorbAllAddsOnly(next, i + 1, rules);
      } else {
        AbsorbsNothingFrom(next, i + 1, items, rules);
      }
    }
  }

  // ---- When minimising shortens nothing ----

  /** The two statements, once normalised, differ in one element only; and in their Sids, if these do not matter. */
  ghost predicate Mergeable(a: Statement, b: Statement, d: bool) {
    exists e :: AgreeOutside(Normalized(a), Normalized(b), e, d)
  }

  ghost predicate NoneMergeable(sts: seq<Statement>, d: bool) {
    forall i, j :: 0 <= i < j < |sts| ==> !Mergeable(sts[i], sts[j], d)
  }

  lemma JoinIffMergeable(sts: seq<Statement>, d: bool, i: nat, j: nat)
    requires AllWellFormed(sts) && i < j < |sts|
    ensures Join(NormalizedAll(sts), i, j, MergeRules(d)) <==> Mergeable(sts[i], sts[j], d)
  {
    PreparedFits(sts, d, i);
    PreparedFits(sts, d, j);
    hide AllWellFormed, Tidy, MayMerge, AgreeOutside, Normalized, WithoutSid, TryMerge;
    TriedIffMergeable(Prepared(sts[i], d), Prepared(sts[j], d));
    forall e { MayMergeIff(Normalized(sts[i]), Normalized(sts[j]), e, d); }
  }

  lemma TriedIffMergeable(x: Statement, y: Statement)
    requires Tidy(x) && Tidy(y)
    ensures TryMerge(x, y).Joined? <==> exists e :: IsElement(e) && MayMerge(x, y, e)
  {
    hide Tidy, MayMerge, MergedOn;
    if e :| IsElement(e) && MayMerge(x, y, e) {
      CandidateFound(x, y, e, 0);
      MergeSucceeds(x, y, Candidate(x, y, 0).value);
    }
  }

  lemma MergeSucceeds(a: Statement, b: Statement, e: Field)
    requires Tidy(a) && Tidy(b) && IsElement(e) && MayMerge(a, b, e)
    ensures MergedOn(a, b, e).Ok?
  {
    MergeIsDefined(a, b, e);
  }

  lemma PreparedFits(sts: seq<Statement>, d: bool, k: nat)
    requires AllWellFormed(sts) && k < |sts|
    ensures Tidy(Prepared(sts[k], d))
  {
    NormalizedFits(sts, k);
    var st := Normalized(sts[k]);
    CleanStatementIsTheSame(st, d, st, ActionPool(sts), ResourcePool(sts), OfAction(""));
  }

  lemma AbsorbsNothingIffNoneJoin(sts: seq<Statement>, d: bool)
    requires AllWellFormed(sts) && Merged(sts, d).Ok?
    ensures Merged(sts, d).value.excluded == [] <==>
              forall x, y :: 0 <= x < y < |sts| ==> !Join(NormalizedAll(sts), x, y, MergeRules(d))
  {
    var items, rules := NormalizedAll(sts), MergeRules(d);
    forall x ensures rules.clean(rules.clean(x)) == rules.clean(x) { assert x - {Sid} - {Sid} == x - {Sid}; }
    hide AllWellFormed, Join;
    AbsorbsNothingFrom(Start(items), 0, items, rules);
  }

  /** Minimising shortens a list exactly if two of its statements, once normalised, differ in one element only, Sids
      aside where they are disregarded. */
  lemma ShortensNothingIff(sts: seq<Statement>, d: bool)
    requires AllWellFormed(sts)
    ensures Minimized(sts, d).Ok? && |Minimized(sts, d).value| <= |sts|
    ensures |Minimized(sts, d).value| == |sts| <==> NoneMergeable(sts, d)
  {
    hide AllWellFormed, Join, Mergeable, Minimized, Merged, Alike, Forest, MergeRules;
    MergingIsAForest(sts, d);
    AbsorbsNothingIffNoneJoin(sts, d);
    var items, rules := NormalizedAll(sts), MergeRules(d);
    forall i: nat, j: nat | i < j < |sts| ensures Join(items, i, j, rules) <==> Mergeable(sts[i], sts[j], d) {
      JoinIffMergeable(sts, d, i, j);
    }
  }

  lemma OutputIsWellFormed(sts: seq<Statement>, d: bool)
    requires AllWellFormed(sts)
    ensures Minimized(sts, d).Ok? && AllWellFormed(Minimized(sts, d).value)
  {
    MergingIsAForest(sts, d);
    var out := Minimized(sts, d).value;
    forall st | st in out ensures WellFormed(st) {
      OutputMembers(sts, d, st);
      var m := Merged(sts, d).value;
      var k :| 0 <= k < |m.items| && k !in m.excluded && Finished(m, k) == st;
      FinishedIsWellFormed(sts, d, k);
    }
  }

  lemma FinishedIsWellFormed(sts: seq<Statement>, d: bool, k: nat)
    requires AllWellFormed(sts) && Kept(sts, d, k)
    ensures WellFormed(Finished(Merged(sts, d).value, k))
  {
    MergedIsSound(sts, d, OfAction(""));
    var m := Merged(sts, d).value;
    var judge := StatementJudge(ActionPool(sts), ResourcePool(sts), OfAction(""));
    assert judge.fits(m.items[k], NormalizedAll(sts)[k]);
    var x := SortDict(m.items[k]);
    SortDictIsTheSame(m.items[k], ActionPool(sts), ResourcePool(sts), "", "");
    NormalizedIsTidy(x, ActionPool(sts), ResourcePool(sts));
  }

  /** All that can be combined has been exactly if minimising once more shortens nothing. */
  lemma AllCombinedIff(sts: seq<Statement>, d: bool)
    requires AllWellFormed(sts)
    ensures Minimized(sts, d).Ok? && Minimized(Minimized(sts, d).value, d).Ok?
    ensures var once := Minimized(sts, d).value;
      NoneMergeable(once, d) <==> |Minimized(once, d).value| == |once|
  {
    OutputIsWellFormed(sts, d);
    ShortensNothingIff(Minimized(sts, d).value, d);
  }

  // ---- A list on which minimising once is not enough ----

  function OneAction(action: string, resources: seq<string>): Statement {
    map[Effect := Text("Allow"), Action := Entries([action]), Resource := Entries(resources)]
  }

  /** A statement of one lower-case action and a normal list of resources: nothing in it changes but by merging. */
  predicate Settled(action: string, resources: seq<string>) {
    Lower(action) == action && resources != [] && NormalList(Resource, resources) == resources
  }

  /** No step of the minimiser but merging changes the statement. */
  predicate Fixed(st: Statement, d: bool) {
    Normalized(st) == st && WithoutSid(st, d) == st && Normalized(SortDict(st)) == st
  }

  lemma SettledIsFixed(action: string, resources: seq<string>, d: bool)
    requires Settled(action, resources)
    ensures Fixed(OneAction(action, resources), d)
  {
    hide NormalList, Sort, Normalized, SortDict;
    OneEntry(Action, action);
    NormalOfSorted(resources);
    OneActionNormalized(action, resources, resources);
    var sorted := if |resources| > 1 then Sort(resources) else resources;
    OneActionSorted(action, resources);
    OneActionNormalized(action, sorted, resources);
    assert OneAction(action, resources) - {Sid} == OneAction(action, resources);
  }

  lemma OneActionSorted(action: string, resources: seq<string>)
    ensures SortDict(OneAction(action, resources)) ==
            OneAction(action, if |resources| > 1 then Sort(resources) else resources)
  {
    hide Sort;
  }

  lemma NormalOfSorted(resources: seq<string>)
    ensures NormalList(Resource, Sort(resources)) == NormalList(Resource, resources)
    ensures resources != [] ==> Sort(resources) != []
  {
    NormalListDependsOnMembers(Sort(resources), resources);
  }

  lemma OneActionNormalized(action: string, resources: seq<string>, normal: seq<string>)
    requires NormalList(Action, [action]) == [action] && NormalList(Resource, resources) == normal && resources != []
    ensures Normalized(OneAction(action, resources)) == OneAction(action, normal)
  {
    var st := OneAction(action, resources);
    NormalizedAt(st, Action);
    NormalizedAt(st, Resource);
    hide NormalList;
    assert Normalized(st)[Effect] == st[Effect];
  }

  lemma RunOnThree<T>(items: seq<T>, rules: Rules<T>, merged: T, on: Field)
    requires |items| == 3 && forall k :: 0 <= k < 3 ==> rules.clean(items[k]) == items[k]
    requires rules.join(items[0], items[1]) == Apart && rules.join(items[0], items[2]) == Joined(merged, on)
    requires rules.clean(merged) == merged
    ensures var run := AbsorbAll(Start(items), 0, rules);
      run.Ok? && KeptFrom(run.value, 0) == [merged, items[1]]
  {
    var m := Start(items);
    assert forall k :: 0 <= k < 3 ==> Cleaned(m, k, rules) == m;
    var n := Absorbed(m, 0, 2, merged, on);
    assert Meet(m, 0, 1, rules) == Ok(m) && Meet(m, 0, 2, rules) == Ok(n);
    assert Absorb(n, 0, 3, rules) == Ok(n) && Absorb(m, 0, 2, rules) == Ok(n) && Absorb(m, 0, 1, rules) == Ok(n);
    assert Turn(m, 0, rules) == Ok(n);
    assert n.items == [merged, items[1], items[2]] && n.excluded == [2];
    assert Cleaned(n, 1, rules) == n && Cleaned(n, 2, rules) == n;
    assert Meet(n, 1, 2, rules) == Ok(n) && Absorb(n, 1, 3, rules) == Ok(n) && Absorb(n, 1, 2, rules) == Ok(n);
    assert Turn(n, 1, rules) == Ok(n) && Turn(n, 2, rules) == Ok(n);
    assert AbsorbAll(n, 3, rules) == Ok(n) && AbsorbAll(n, 2, rules) == Ok(n) && AbsorbAll(n, 1, rules) == Ok(n);
    assert KeptFrom(n, 3) == [] && KeptFrom(n, 2) == [] && KeptFrom(n, 1) == [items[1]];
  }

  lemma OneActionsJoin(a: string, b: string, xs: seq<string>, ys: seq<string>, zs: seq<string>, y: string)
    requires a != b && xs != [] && y in ys && y !in xs
    requires StrictlySorted(zs) && forall x :: x in zs <==> x in xs || x in ys
    ensures TryMerge(OneAction(a, xs), OneAction(b, ys)) == Apart
    ensures TryMerge(OneAction(a, xs), OneAction(a, ys)) == Joined(OneAction(a, zs), Resource)
  {
    StrictlySortedIsUnique(SortedSet(xs + ys), zs);
    ActionsApart(a, b, xs, ys, y);
    var x, x' := OneAction(a, xs), OneAction(a, ys);
    assert x.Keys - {Resource} == x'.Keys - {Resource};
    assert MayMerge(x, x', Resource);
    assert x[Resource := Entries(zs)] == OneAction(a, zs);
  }

  lemma ActionsApart(a: string, b: string, xs: seq<string>, ys: seq<string>, y: string)
    requires a != b && y in ys && y !in xs
    ensures forall e :: IsElement(e) ==> !MayMerge(OneAction(a, xs), OneAction(b, ys), e)
    ensures TryMerge(OneAction(a, xs), OneAction(b, ys)) == Apart
  {
    var x, x' := OneAction(a, xs), OneAction(b, ys);
    assert y in AsUnordered(x'[Resource]).members && y !in AsUnordered(x[Resource]).members;
    assert a in AsUnordered(x[Action]).members && a !in AsUnordered(x'[Action]).members;
  }

  /** Minimised once, three statements become two that still differ in one element only; minimised again, one. */
  lemma OnceIsNotEnough(a: string, b: string, x: string, y: string, d: bool)
    requires a != b && Lower(a) == a && Lower(b) == b
    requires NormalList(Resource, [x]) == [x] && NormalList(Resource, [y]) == [y]
    requires Less(x, y) && NormalList(Resource, [x, y]) == [x, y]
    ensures var sts := [OneAction(a, [x]), OneAction(b, [x, y]), OneAction(a, [y])];
      && Minimized(sts, d) == Ok([OneAction(a, [x, y]), OneAction(b, [x, y])])
      && Mergeable(OneAction(a, [x, y]), OneAction(b, [x, y]), d)
  {
    SettledIsFixed(a, [x], d);
    SettledIsFixed(a, [y], d);
    SettledIsFixed(a, [x, y], d);
    SettledIsFixed(b, [x, y], d);
    hide Fixed, NormalList, Minimized;
    OneActionsJoin(a, b, [x], [x, y], [x, y], y);
    OneActionsJoin(a, b, [x], [y], [x, y], y);
    hide TryMerge, OneAction;
    MinimizedOnThree([OneAction(a, [x]), OneAction(b, [x, y]), OneAction(a, [y])], d, OneAction(a, [x, y]), Resource);
    TwoActionsAreMergeable(a, b, [x, y], d);
  }

  lemma MinimizedOnThree(sts: seq<Statement>, d: bool, merged: Statement, on: Field)
    requires |sts| == 3 && Fixed(sts[0], d) && Fixed(sts[1], d) && Fixed(sts[2], d) && Fixed(merged, d)
    requires TryMerge(sts[0], sts[1]) == Apart && TryMerge(sts[0], sts[2]) == Joined(merged, on)
    ensures Minimized(sts, d) == Ok([merged, sts[1]])
  {
    hide TryMerge, Normalized, SortDict, WithoutSid;
    assert NormalizedAll(sts) == sts;
    RunOnThree(sts, MergeRules(d), merged, on);
    assert SortAll([merged, sts[1]]) == [SortDict(merged), SortDict(sts[1])];
    assert NormalizedAll([SortDict(merged), SortDict(sts[1])]) == [merged, sts[1]];
  }

  lemma TwoActionsAreMergeable(a: string, b: string, resources: seq<string>, d: bool)
    requires Fixed(OneAction(a, resources), d) && Fixed(OneAction(b, resources), d)
    ensures Mergeable(OneAction(a, resources), OneAction(b, resources), d)
  {
    hide MayMerge, Normalized, SortDict, WithoutSid, OneAction;
    ActionsMayMerge(a, b, resources);
    var x, y := OneAction(a, resources), OneAction(b, resources);
    assert Prepared(x, d) == x && Prepared(y, d) == y;
    MayMergeIff(x, y, Action, d);
  }

  lemma ActionsMayMerge(a: string, b: string, resources: seq<string>)
    ensures MayMerge(OneAction(a, resources), OneAction(b, resources), Action)
  {
    assert OneAction(a, resources).Keys - {Action} == OneAction(b, resources).Keys - {Action};
  }

  /** Such three: reading one bucket, writing two, reading the other. */
  lemma OnceIsNotEnoughForThese(d: bool)
    ensures var sts := [OneAction("get", ["x"]), OneAction("put", ["x", "y"]), OneAction("get", ["y"])];
      exists out :: Minimized(sts, d) == Ok(out) && !NoneMergeable(out, d)
  {
    OneEntry(Resource, "x");
    OneEntry(Resource, "y");
    TwoLetters();
    OnceIsNotEnough("get", "put", "x", "y", d);
    hide Minimized, Mergeable;
    var out := [OneAction("get", ["x", "y"]), OneAction("put", ["x", "y"])];
    assert Mergeable(out[0], out[1], d);
  }

  lemma TwoLetters()
    ensures Less("x", "y") && NormalList(Resource, ["x", "y"]) == ["x", "y"]
  {
    var xs := ["x", "y"];
    assert !Fnmatch("x", "y") && !Fnmatch("y", "x");
    assert forall p :: p in xs ==> p == "x" || p == "y";
    assert xs[0] in xs && xs[1] in xs;
    StrictlySortedIsUnique(NormalList(Resource, xs), xs);
  }
}
