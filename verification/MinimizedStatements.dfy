/** What the minimiser's output looks like, statement by statement and key by key, whatever the patterns: which
    statements come out and in what order, what their elements list, and what becomes of everything else, Sids among
    it. Nothing here asks the statements to be well formed. */
module MinimizedStatements {
  import opened Globs
  import opened MergeLoops
  import opened Minimization
  import opened MinimizedRuns
  import opened Normalization
  import opened Outcomes
  import opened Statements
  import opened Strings

  // ---- Sids ----

  ghost function HasNoSid(): Statement -> bool {
    st => Sid !in st
  }

  lemma CleaningTakesSids()
    ensures CleaningGives(MergeRules(true), HasNoSid())
  {
    forall a, b | Sid !in a && Sid !in b && TryMerge(a, b).Joined? ensures Sid !in TryMerge(a, b).item {
      assert IsElement(Candidate(a, b, 0).value) && !IsElement(Sid);
    }
  }

  /** Merged disregarding Sids, no statement of the list has one any more, be it kept or absorbed. */
  lemma NoSidsAfterMerging(sts: seq<Statement>)
    requires AbsorbAll(Start(sts), 0, MergeRules(true)).Ok?
    ensures forall st :: st in AbsorbAll(Start(sts), 0, MergeRules(true)).value.items ==> Sid !in st
  {
    CleaningTakesSids();
    LoopsCleanAll(Start(sts), 0, MergeRules(true), HasNoSid());
  }

  /** Disregarded, Sids are gone: no statement of the output has one. */
  lemma NoSidsLeft(sts: seq<Statement>)
    requires Minimized(sts, true).Ok?
    ensures forall st :: st in Minimized(sts, true).value ==> Sid !in st
  {
    NoSidsAfterMerging(NormalizedAll(sts));
    var places := OutputIsInOrder(sts, true);
    var m, out := Merged(sts, true).value, Minimized(sts, true).value;
    forall st | st in out ensures Sid !in st {
      var x :| 0 <= x < |out| && out[x] == st;
      assert m.items[places[x]] in m.items;
      NormalizedIs(SortDict(m.items[places[x]]), Sid);
    }
  }

  // ---- Which statements come out ----

  /** The output is the kept statements, all of them, in the order they had. */
  lemma OutputIsInOrder(sts: seq<Statement>, d: bool) returns (places: seq<nat>)
    requires Minimized(sts, d).Ok?
    ensures |places| == |Minimized(sts, d).value|
    ensures forall x, y :: 0 <= x < y < |places| ==> places[x] < places[y]
    ensures forall k: nat :: k in places <==> Kept(sts, d, k)
    ensures forall x {:trigger places[x]} :: 0 <= x < |places| ==>
              Kept(sts, d, places[x]) && Minimized(sts, d).value[x] == Finished(Merged(sts, d).value, places[x])
  {
    places := KeptPlaces(Merged(sts, d).value, 0);
  }

  // ---- Keys that are not merged ----

  /** The key stands for the same in both. */
  predicate SameAt(a: Statement, b: Statement, f: Field) {
    (f in a <==> f in b) && (f in a && f in b ==> a[f] == b[f])
  }

  ghost function KeyJudge(f: Field): Judge<Statement> {
    Judge((st, o) => SameAt(st, o, f), st => true, (o, p, e) => AgreeOn(o, p, f), e => true, (o, p, error) => true)
  }

  lemma JoinedAgree(a: Statement, b: Statement, f: Field)
    requires TryMerge(a, b).Joined? && f != TryMerge(a, b).on
    ensures SameAt(TryMerge(a, b).item, a, f) && AgreeOn(a, b, f)
  {
    var e := Candidate(a, b, 0).value;
    MayMergeIff(a, b, e, false);
    assert AgreeOutside(a, b, e, false);
  }

  lemma KeyRulesAreSound(d: bool, f: Field)
    requires !IsElement(f) && !(d && f == Sid)
    ensures CleanIsHarmless(MergeRules(d), KeyJudge(f)) && JoinIsSound(MergeRules(d), KeyJudge(f))
  {
    var rules, judge := MergeRules(d), KeyJudge(f);
    forall a, b, oa, ob | judge.fits(a, oa) && judge.fits(b, ob)
      ensures SoundAttempt(rules.join(a, b), a, b, oa, ob, judge)
    {
      if TryMerge(a, b).Joined? { JoinedAgree(a, b, f); }
    }
  }

  /** Merged statements agree in every key that is no element, Sids included unless they are disregarded; and that is
      what the output has there. */
  lemma OtherKeysAreKept(sts: seq<Statement>, d: bool, f: Field, l: nat, k: nat)
    requires Kept(sts, d, k) && Member(sts, d, l, k)
    requires f !in {Resource, Action, NotAction, NotResource, NotPrincipal} && !(d && f == Sid)
    ensures AgreeOn(Finished(Merged(sts, d).value, k), sts[l], f)
  {
    var m, orig, judge := Merged(sts, d).value, NormalizedAll(sts), KeyJudge(f);
    KeyRulesAreSound(d, f);
    LoopsAreSound(orig, MergeRules(d), judge);
    assert judge.fits(m.items[k], orig[k]);
    if l != k { assert judge.kin(orig[k], orig[l], m.owner[l].on); }
    NormalizedIs(sts[k], f);
    NormalizedIs(sts[l], f);
    NormalizedIs(SortDict(m.items[k]), f);
    if f in m.items[k] { SortDictElement(m.items[k], f, ""); }
    hide Merged, Normalized, SortDict;
    if f in m.items[k] {
      SameValueIsUnordered(SortDict(m.items[k])[f], m.items[k][f]);
      SameValueIsUnordered(sts[k][f], sts[l][f]);
      SameValueIsUnordered(SortDict(m.items[k])[f], sts[l][f]);
    }
  }

  // ---- Elements ----

  predicate HoldsEntry(st: Statement, e: Field, p: string) {
    e in st && p in AsList(st[e])
  }

  ghost function EntryJudge(e: Field, p: string): Judge<Statement> {
    Judge((st, o) => e in st <==> e in o, st => HoldsEntry(st, e, p), (o, q, on) => e in o <==> e in q,
          on => true, (o, q, error) => true)
  }

  lemma JoinedHolds(a: Statement, b: Statement, e: Field, p: string)
    requires TryMerge(a, b).Joined?
    ensures var item := TryMerge(a, b).item;
      && (e in item <==> e in a) && (e in a <==> e in b)
      && (HoldsEntry(item, e, p) <==> HoldsEntry(a, e, p) || HoldsEntry(b, e, p))
  {
    var on := TryMerge(a, b).on;
    if e == on {
      var zs := SortedSet(a[e].entries + b[e].entries);
      assert p in zs <==> p in a[e].entries + b[e].entries;
    } else {
      JoinedAgree(a, b, e);
    }
  }

  lemma EntryRulesAreSound(d: bool, e: Field, p: string)
    requires IsElement(e)
    ensures CleanIsHarmless(MergeRules(d), EntryJudge(e, p)) && JoinIsSound(MergeRules(d), EntryJudge(e, p))
  {
    var rules, judge := MergeRules(d), EntryJudge(e, p);
    forall a, b, oa, ob | judge.fits(a, oa) && judge.fits(b, ob)
      ensures SoundAttempt(rules.join(a, b), a, b, oa, ob, judge)
    {
      if TryMerge(a, b).Joined? { JoinedHolds(a, b, e, p); }
    }
  }

  /** Some statement of the group, once normalised, lists `p` under `e`. */
  ghost predicate GroupLists(sts: seq<Statement>, d: bool, k: nat, e: Field, p: string)
    requires Kept(sts, d, k)
  {
    exists l: nat :: Member(sts, d, l, k) && HoldsEntry(Normalized(sts[l]), e, p)
  }

  lemma ItemHolds(sts: seq<Statement>, d: bool, k: nat, e: Field, p: string)
    requires Kept(sts, d, k) && IsElement(e)
    ensures var item := Merged(sts, d).value.items[k];
      (e in item <==> e in sts[k]) && (HoldsEntry(item, e, p) <==> GroupLists(sts, d, k, e, p))
  {
    var m, orig, judge := Merged(sts, d).value, NormalizedAll(sts), EntryJudge(e, p);
    EntryRulesAreSound(d, e, p);
    LoopsAreSound(orig, MergeRules(d), judge);
    assert judge.fits(m.items[k], orig[k]);
    NormalizedIs(sts[k], e);
    assert Faithful(m, k, orig, judge) && GroupIsFull(m, k, judge);
    assert GroupHits(m, k, orig, judge) <==> GroupLists(sts, d, k, e, p) by {
      if GroupHits(m, k, orig, judge) {
        var l :| 0 <= l < |orig| && InGroup(m, l, k) && judge.hit(orig[l]);
        assert Member(sts, d, l, k);
      }
      if l: nat :| Member(sts, d, l, k) && HoldsEntry(Normalized(sts[l]), e, p) { assert judge.hit(orig[l]); }
    }
  }

  lemma NormalEntryIsFolded(st: Statement, e: Field, p: string)
    requires IsElement(e) && HoldsEntry(Normalized(st), e, p) && st[e] != Text("")
    ensures Folded(e, p) == p
  {
    NormalizedAt(st, e);
    FoldedNormalList(e, AsList(st[e]));
    var ys := NormalList(e, AsList(st[e]));
    var i :| 0 <= i < |ys| && ys[i] == p;
    assert FoldedAll(e, ys)[i] == Folded(e, ys[i]);
  }

  lemma FoldedListIsItself(e: Field, xs: seq<string>)
    requires forall x :: x in xs ==> Folded(e, x) == x
    ensures FoldedAll(e, xs) == xs
  {
    assert forall i :: 0 <= i < |xs| ==> xs[i] in xs;
  }

  /** What an output statement lists under an element: what the statements of its group list there, each once
      normalised, without what another of these entries matches; sorted, and each once. */
  lemma ElementsAreUnited(sts: seq<Statement>, d: bool, k: nat, e: Field)
    requires Kept(sts, d, k) && e in {Resource, Action, NotAction, NotResource, NotPrincipal}
    requires forall st :: st in sts && e in st ==> st[e] != Text("")
    ensures var fin := Finished(Merged(sts, d).value, k);
      && (e in fin <==> e in sts[k])
      && (e in fin ==>
           && fin[e].Entries? && StrictlySorted(fin[e].entries)
           && forall p :: p in fin[e].entries <==>
                GroupLists(sts, d, k, e, p)
                && forall q :: GroupLists(sts, d, k, e, q) && q != p ==> !Fnmatch(p, q))
  {
    var item := Merged(sts, d).value.items[k];
    var x, fin := SortDict(item), Finished(Merged(sts, d).value, k);
    assert SortDict(item).Keys == item.Keys;
    ItemHolds(sts, d, k, e, "");
    NormalizedIs(x, e);
    if e in fin {
      forall p ensures HoldsEntry(x, e, p) <==> GroupLists(sts, d, k, e, p) {
        ItemHolds(sts, d, k, e, p);
        SortDictElement(item, e, "");
        MembersOfUnordered(x[e], item[e], p);
      }
      ItemIsNoEmptyText(sts, d, k, e);
      NormalizedAt(x, e);
      forall p | p in AsList(x[e]) ensures Folded(e, p) == p {
        assert HoldsEntry(x, e, p);
        var l: nat :| Member(sts, d, l, k) && HoldsEntry(Normalized(sts[l]), e, p);
        NormalizedIs(sts[l], e);
        assert sts[l] in sts;
        NormalEntryIsFolded(sts[l], e, p);
      }
      FoldedListIsItself(e, AsList(x[e]));
      NormalListIsNormal(e, AsList(x[e]));
      ListedAndNotSuperseded(sts, d, k, e, AsList(x[e]));
    }
  }

  lemma MembersOfUnordered(v: Value, w: Value, p: string)
    requires AsUnordered(v) == AsUnordered(w)
    ensures p in AsList(v) <==> p in AsList(w)
  {
    SameUnorderedSameMembers(v, w);
  }

  lemma ListedAndNotSuperseded(sts: seq<Statement>, d: bool, k: nat, e: Field, xs: seq<string>)
    requires Kept(sts, d, k) && FoldedAll(e, xs) == xs
    requires forall p :: p in xs <==> GroupLists(sts, d, k, e, p)
    ensures forall p :: p in NormalList(e, xs) <==>
              GroupLists(sts, d, k, e, p)
              && forall q :: GroupLists(sts, d, k, e, q) && q != p ==> !Fnmatch(p, q)
  {
    hide GroupLists;
  }

  ghost function FilledJudge(e: Field): Judge<Statement> {
    Judge((st, o) => e in st ==> st[e] != Text(""), st => true, (o, p, on) => true, on => true, (o, p, error) => true)
  }

  lemma FilledRulesAreSound(d: bool, e: Field)
    ensures CleanIsHarmless(MergeRules(d), FilledJudge(e)) && JoinIsSound(MergeRules(d), FilledJudge(e))
  {
    var rules, judge := MergeRules(d), FilledJudge(e);
    forall a, b, oa, ob | judge.fits(a, oa) && judge.fits(b, ob)
      ensures SoundAttempt(rules.join(a, b), a, b, oa, ob, judge)
    {
      if TryMerge(a, b).Joined? && e != TryMerge(a, b).on { JoinedAgree(a, b, e); }
    }
  }

  lemma ItemIsNoEmptyText(sts: seq<Statement>, d: bool, k: nat, e: Field)
    requires Kept(sts, d, k) && IsElement(e)
    requires forall st :: st in sts && e in st ==> st[e] != Text("")
    ensures var x := SortDict(Merged(sts, d).value.items[k]); e in x ==> x[e] != Text("")
  {
    var m, orig, judge := Merged(sts, d).value, NormalizedAll(sts), FilledJudge(e);
    FilledRulesAreSound(d, e);
    forall i | 0 <= i < |orig| ensures judge.fits(orig[i], orig[i]) {
      NormalizedIs(sts[i], e);
      assert sts[i] in sts;
      if e in sts[i] { NormalizedAt(sts[i], e); }
    }
    LoopsAreSound(orig, MergeRules(d), judge);
    assert judge.fits(m.items[k], orig[k]);
  }

  // ---- Order within statements ----

  lemma SortDictSorts(st: Statement, k: Field)
    requires k in st && st[k].Entries?
    ensures SortDict(st)[k].Entries? && Sorted(SortDict(st)[k].entries)
    ensures multiset(SortDict(st)[k].entries) == multiset(st[k].entries)
  {
    SortedIsPermutation(st[k].entries);
  }

  lemma StrictlySortedIsSorted(xs: seq<string>)
    requires StrictlySorted(xs)
    ensures Sorted(xs)
  {
    forall i, j | 0 <= i < j < |xs| ensures Leq(xs[i], xs[j]) { assert Less(xs[i], xs[j]); }
  }

  /** Every list of the output is sorted, and normalising the output once more changes nothing. */
  lemma OutputIsSorted(sts: seq<Statement>, d: bool)
    requires Minimized(sts, d).Ok?
    ensures forall st: Statement, k :: st in Minimized(sts, d).value && k in st && st[k].Entries? ==>
              Sorted(st[k].entries)
    ensures NormalizedAll(Minimized(sts, d).value) == Minimized(sts, d).value
  {
    var places := OutputIsInOrder(sts, d);
    var m, out := Merged(sts, d).value, Minimized(sts, d).value;
    NormalizedTwice(SortAll(KeptFrom(m, 0)));
    forall st: Statement, k | st in out && k in st && st[k].Entries? ensures Sorted(st[k].entries) {
      var n :| 0 <= n < |out| && out[n] == st;
      var x := SortDict(m.items[places[n]]);
      NormalizedIs(x, k);
      if IsElement(k) && HasSome(x, k) {
        NormalListIsNormal(k, AsList(x[k]));
        StrictlySortedIsSorted(st[k].entries);
      } else if m.items[places[n]][k].Entries? {
        SortDictSorts(m.items[places[n]], k);
      }
    }
  }
}
