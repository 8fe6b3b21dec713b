/** Merging lists of exclusions takes their union and so can lose coverage. When exactly it does. */
module NegatedMerges {
  import opened Globs
  import opened Minimization
  import opened MinimizedRuns
  import opened Normalization
  import opened Statements
  import opened Strings

  // ---- Normal lists are canonical ----

  lemma FoldedTwice(e: Field, s: string)
    ensures Folded(e, Folded(e, s)) == Folded(e, s)
  {
    LowerTwice(s);
  }

  /** Each entry is below its own list. */
  lemma ListedIsNamed(e: Field, v: Value, p: string)
    requires p in FoldedAll(e, AsList(v))
    ensures Names(e, v, p)
  {
    var xs := AsList(v);
    var k :| 0 <= k < |xs| && FoldedAll(e, xs)[k] == p;
    FoldedTwice(e, xs[k]);
    MatchesItself(p);
  }

  lemma BelowWhat(e: Field, xs: seq<string>, ys: seq<string>, p: string) returns (q: string)
    requires p in FoldedAll(e, xs) && Names(e, Entries(ys), p)
    ensures q in FoldedAll(e, ys) && IamMatch(p, q)
  {
    var k :| 0 <= k < |xs| && FoldedAll(e, xs)[k] == p;
    FoldedTwice(e, xs[k]);
    q :| q in FoldedAll(e, ys) && IamMatch(p, q);
  }

  /** The entries of each list lie below the other list, and all are taken from one regular pool. */
  ghost predicate Level(e: Field, xs: seq<string>, ys: seq<string>, pool: set<string>) {
    && Regular(pool) && (forall p :: p in FoldedAll(e, xs) || p in FoldedAll(e, ys) ==> p in pool)
    && (forall p :: p in FoldedAll(e, xs) ==> Names(e, Entries(ys), p))
    && (forall p :: p in FoldedAll(e, ys) ==> Names(e, Entries(xs), p))
  }

  /** Level lists have the same maximal entries. */
  lemma KeptOnBothSides(e: Field, xs: seq<string>, ys: seq<string>, pool: set<string>, p: string)
    requires Level(e, xs, ys, pool) && p in NormalList(e, xs)
    ensures p in NormalList(e, ys)
  {
    var q := BelowWhat(e, xs, ys, p);
    var p' := BelowWhat(e, ys, xs, q);
    Squeezed(pool, p, q, p');
    FnmatchIsIamMatch(p, p');
    assert p == p' == q;
    forall r | r in FoldedAll(e, ys) && r != p ensures !Fnmatch(p, r) {
      FnmatchIsIamMatch(p, r);
      if Fnmatch(p, r) {
        var r' := BelowWhat(e, ys, xs, r);
        Squeezed(pool, p, r, r');
        FnmatchIsIamMatch(p, r');
      }
    }
  }

  /** In a regular pool, what lies between a pattern and itself is that pattern. */
  lemma Squeezed(pool: set<string>, p: string, q: string, r: string)
    requires Regular(pool) && p in pool && q in pool && r in pool
    requires IamMatch(p, q) && IamMatch(q, r)
    ensures IamMatch(p, r)
    ensures p == r ==> p == q
  {
    if q != r { TextMatchIsTransitive(p, q, r); }
    FnmatchIsIamMatch(p, q);
    FnmatchIsIamMatch(q, p);
  }

  lemma LevelListsAreEqual(e: Field, xs: seq<string>, ys: seq<string>, pool: set<string>)
    requires Level(e, xs, ys, pool)
    ensures NormalList(e, xs) == NormalList(e, ys)
  {
    NormalListIsNormal(e, xs);
    NormalListIsNormal(e, ys);
    forall p ensures p in NormalList(e, xs) <==> p in NormalList(e, ys) {
      if p in NormalList(e, xs) { KeptOnBothSides(e, xs, ys, pool, p); }
      if p in NormalList(e, ys) { KeptOnBothSides(e, ys, xs, pool, p); }
    }
    StrictlySortedIsUnique(NormalList(e, xs), NormalList(e, ys));
  }

  /** Normal forms are canonical: two values normalise to one list if and only if they name the same strings. */
  lemma NormalListIsCanonical(e: Field, v: Value, w: Value, pool: set<string>)
    requires Regular(pool)
    requires forall p :: p in FoldedAll(e, AsList(v)) || p in FoldedAll(e, AsList(w)) ==> p in pool
    ensures NormalList(e, AsList(v)) == NormalList(e, AsList(w)) <==> forall s :: Names(e, v, s) <==> Names(e, w, s)
  {
    if forall s :: Names(e, v, s) <==> Names(e, w, s) {
      forall p | p in FoldedAll(e, AsList(v)) ensures Names(e, Entries(AsList(w)), p) { ListedIsNamed(e, v, p); }
      forall p | p in FoldedAll(e, AsList(w)) ensures Names(e, Entries(AsList(v)), p) { ListedIsNamed(e, w, p); }
      LevelListsAreEqual(e, AsList(v), AsList(w), pool);
    }
    if NormalList(e, AsList(v)) == NormalList(e, AsList(w)) {
      forall s ensures Names(e, v, s) <==> Names(e, w, s) {
        NormalListKeepsNames(e, v, pool, s);
        NormalListKeepsNames(e, w, pool, s);
      }
    }
  }

  // ---- When a kept statement keeps the meaning of its group ----

  ghost predicate CoversSomething(st: Statement) {
    exists action, resource :: Covers(st, action, resource)
  }

  /** The two statements exclude the same, list for list. */
  predicate SameExclusions(a: Statement, b: Statement) {
    && (NotAction in a && NotAction in b ==> a[NotAction] == b[NotAction])
    && (NotResource in a && NotResource in b ==> a[NotResource] == b[NotResource])
  }

  /** All that the group of `k` covered, `k` covers in the end. (The converse always holds.) */
  ghost predicate GroupKeepsMeaning(sts: seq<Statement>, d: bool, k: nat)
    requires Kept(sts, d, k)
  {
    forall l: nat, action, resource :: Member(sts, d, l, k) && Covers(sts[l], action, resource) ==>
      Covers(Finished(Merged(sts, d).value, k), action, resource)
  }

  /** Whichever of the group covered anything had, once normalised, the lists of exclusions `k` ends with. */
  ghost predicate GroupKeepsExclusions(sts: seq<Statement>, d: bool, k: nat)
    requires Kept(sts, d, k)
  {
    forall l: nat :: Member(sts, d, l, k) && CoversSomething(sts[l]) ==>
      SameExclusions(Normalized(sts[l]), Finished(Merged(sts, d).value, k))
  }

  /** Normalised elements are equal if and only if they name the same. */
  lemma SameNormalElement(a: Statement, b: Statement, e: Field, pool: set<string>)
    requires e in a && e in b && IsElement(e) && a[e] != Text("") && b[e] != Text("") && Regular(pool)
    requires forall p :: p in FoldedAll(e, AsList(a[e])) || p in FoldedAll(e, AsList(b[e])) ==> p in pool
    ensures Normalized(a)[e] == Normalized(b)[e] <==>
              forall s :: Names(e, Normalized(a)[e], s) <==> Names(e, Normalized(b)[e], s)
  {
    NormalizedAt(a, e);
    NormalizedAt(b, e);
    NormalListIsCanonical(e, a[e], b[e], pool);
    forall s ensures Names(e, Normalized(a)[e], s) <==> Names(e, a[e], s) { NormalizedKeepsNames(a, e, pool, s); }
    forall s ensures Names(e, Normalized(b)[e], s) <==> Names(e, b[e], s) { NormalizedKeepsNames(b, e, pool, s); }
  }

  /** Two statements that list their exclusions from one regular pool exclude the same if and only if they list the
      same once normalised. */
  lemma SameExclusionsIff(a: Statement, b: Statement, actions: set<string>, resources: set<string>)
    requires WellFormed(a) && WellFormed(b) && SameElements(a, b)
    requires Within(a, actions, resources) && Within(b, actions, resources) && Regular(actions) && Regular(resources)
    ensures var x, y := Normalized(a), Normalized(b);
      SameExclusions(x, y) <==>
        && (NotAction in a ==> forall s :: CoversAction(x, s) <==> CoversAction(y, s))
        && (NotResource in a ==> forall s :: CoversResource(x, s) <==> CoversResource(y, s))
  {
    NormalizedKeys(a);
    NormalizedKeys(b);
    if NotAction in a { SameNormalElement(a, b, NotAction, actions); }
    if NotResource in a { SameNormalElement(a, b, NotResource, resources); }
    hide Normalized, Names, CoversAction, CoversResource, Within, Regular;
  }

  /** A normalised statement with exclusions covers what they do not name. */
  lemma NormalizedKeys(st: Statement)
    requires WellFormed(st)
    ensures var x := Normalized(st);
      && SameElements(x, st)
      && (NotAction in st ==> forall s :: CoversAction(x, s) <==> !Names(NotAction, x[NotAction], s))
      && (NotResource in st ==> forall s :: CoversResource(x, s) <==> !Names(NotResource, x[NotResource], s))
  {
    NormalizedKeepsTerms(st);
    var x := Normalized(st);
    assert forall k :: k in x <==> k in st;
    hide Normalized, Names;
  }

  lemma SortedItemIsTidy(sts: seq<Statement>, d: bool, k: nat)
    requires AllWellFormed(sts) && AllRegular(sts) && Kept(sts, d, k)
    ensures var x := SortDict(Merged(sts, d).value.items[k]);
      WellFormed(x) && SameElements(x, sts[k]) && Within(x, ActionPool(sts), ResourcePool(sts))
  {
    FinishedKeeps(sts, d, k, "", "");
    var item := Merged(sts, d).value.items[k];
    SortDictIsTheSame(item, ActionPool(sts), ResourcePool(sts), "", "");
    NormalizedIsAlike(sts[k], sts[k]);
  }

  lemma MemberExclusions(sts: seq<Statement>, d: bool, l: nat, k: nat)
    requires AllWellFormed(sts) && AllRegular(sts) && Kept(sts, d, k) && Member(sts, d, l, k)
    ensures SameExclusions(Normalized(sts[l]), Finished(Merged(sts, d).value, k)) <==>
              && (NotAction in sts[k] ==> forall s :: CoversAction(sts[l], s) <==> GroupCoversAction(sts, d, k, s))
              && (NotResource in sts[k] ==>
                   forall s :: CoversResource(sts[l], s) <==> GroupCoversResource(sts, d, k, s))
  {
    var a, b := sts[l], SortDict(Merged(sts, d).value.items[k]);
    SortedItemIsTidy(sts, d, k);
    MembersAreAlike(sts, d, l, k);
    EveryStatementIsWithin(sts, l);
    hide Merged, Kept, Member, Normalized, SortDict, WellFormed, Within, Regular;
    hide GroupCoversAction, GroupCoversResource;
    SameExclusionsIff(a, b, ActionPool(sts), ResourcePool(sts));
    forall s
      ensures CoversAction(Normalized(b), s) <==> GroupCoversAction(sts, d, k, s)
      ensures CoversResource(Normalized(b), s) <==> GroupCoversResource(sts, d, k, s)
      ensures CoversAction(Normalized(a), s) <==> CoversAction(a, s)
      ensures CoversResource(Normalized(a), s) <==> CoversResource(a, s)
    {
      KeptCoverage(sts, d, k, s, s);
      NormalizedGrants(sts, l, s, s);
    }
  }

  lemma MemberKeepsMeaningIff(sts: seq<Statement>, d: bool, l: nat, k: nat)
    requires AllWellFormed(sts) && AllRegular(sts) && Kept(sts, d, k) && Member(sts, d, l, k)
    ensures var fin := Finished(Merged(sts, d).value, k);
      (forall action, resource :: Covers(sts[l], action, resource) ==> Covers(fin, action, resource)) <==>
      (CoversSomething(sts[l]) ==> SameExclusions(Normalized(sts[l]), fin))
  {
    var st, fin := sts[l], Finished(Merged(sts, d).value, k);
    forall s
      ensures CoversAction(fin, s) <==> GroupCoversAction(sts, d, k, s)
      ensures CoversResource(fin, s) <==> GroupCoversResource(sts, d, k, s)
    {
      KeptCoverage(sts, d, k, s, s);
    }
    MemberExclusions(sts, d, l, k);
    GroupCoversListed(sts, d, l, k);
    hide Merged, Normalized, Finished, CoversAction, CoversResource, GroupCoversAction, GroupCoversResource;
    if action, resource :| Covers(st, action, resource) {
      assert forall s :: CoversAction(st, s) ==> Covers(st, s, resource);
      assert forall s :: CoversResource(st, s) ==> Covers(st, action, s);
    }
  }

  /** The group covers every action one of it lists, and no action one of it excludes. */
  lemma GroupCoversListed(sts: seq<Statement>, d: bool, l: nat, k: nat)
    requires Kept(sts, d, k) && Member(sts, d, l, k)
    ensures NotAction !in sts[k] ==> forall s :: CoversAction(sts[l], s) ==> GroupCoversAction(sts, d, k, s)
    ensures NotAction in sts[k] ==> forall s :: GroupCoversAction(sts, d, k, s) ==> CoversAction(sts[l], s)
    ensures NotResource !in sts[k] ==> forall s :: CoversResource(sts[l], s) ==> GroupCoversResource(sts, d, k, s)
    ensures NotResource in sts[k] ==> forall s :: GroupCoversResource(sts, d, k, s) ==> CoversResource(sts[l], s)
  {
    hide Merged, CoversAction, CoversResource;
  }

  /** A kept statement keeps the meaning of its group if and only if all of the group that covered anything had the
      lists of exclusions it ends with. */
  lemma GroupKeepsMeaningIff(sts: seq<Statement>, d: bool, k: nat)
    requires AllWellFormed(sts) && AllRegular(sts) && Kept(sts, d, k)
    ensures GroupKeepsMeaning(sts, d, k) <==> GroupKeepsExclusions(sts, d, k)
  {
    forall l: nat | Member(sts, d, l, k)
      ensures (forall action, resource :: Covers(sts[l], action, resource) ==>
                 Covers(Finished(Merged(sts, d).value, k), action, resource)) <==>
              (CoversSomething(sts[l]) ==> SameExclusions(Normalized(sts[l]), Finished(Merged(sts, d).value, k)))
    {
      MemberKeepsMeaningIff(sts, d, l, k);
    }
    hide Merged, Normalized, Finished, Covers, CoversSomething, SameExclusions;
  }

  /** If every statement of the group covers something, then that is: if and only if all of the group listed the same
      exclusions once normalised. */
  lemma GroupKeepsMeaningIffListsAgree(sts: seq<Statement>, d: bool, k: nat)
    requires AllWellFormed(sts) && AllRegular(sts) && Kept(sts, d, k)
    requires forall l: nat :: Member(sts, d, l, k) ==> CoversSomething(sts[l])
    ensures GroupKeepsMeaning(sts, d, k) <==>
              forall l: nat, x: nat :: Member(sts, d, l, k) && Member(sts, d, x, k) ==>
                SameExclusions(Normalized(sts[l]), Normalized(sts[x]))
  {
    GroupKeepsMeaningIff(sts, d, k);
    if forall l: nat, x: nat :: Member(sts, d, l, k) && Member(sts, d, x, k) ==>
        SameExclusions(Normalized(sts[l]), Normalized(sts[x])) {
      ListsAgree(sts, d, k);
    } else {
      var l: nat, x: nat :| Member(sts, d, l, k) && Member(sts, d, x, k)
                            && !SameExclusions(Normalized(sts[l]), Normalized(sts[x]));
      SameElementsOfFinished(sts, d, l, k);
      SameElementsOfFinished(sts, d, x, k);
      assert !GroupKeepsExclusions(sts, d, k);
    }
  }

  lemma SameElementsOfFinished(sts: seq<Statement>, d: bool, l: nat, k: nat)
    requires AllWellFormed(sts) && AllRegular(sts) && Kept(sts, d, k) && Member(sts, d, l, k)
    ensures SameElements(Normalized(sts[l]), Finished(Merged(sts, d).value, k))
  {
    MembersAreAlike(sts, d, l, k);
    FinishedKeeps(sts, d, k, "", "");
    NormalizedIsAlike(sts[l], sts[k]);
  }

  /** Where all of the group listed the same exclusions, these are the ones it ends with. */
  lemma ListsAgree(sts: seq<Statement>, d: bool, k: nat)
    requires AllWellFormed(sts) && AllRegular(sts) && Kept(sts, d, k)
    requires forall l: nat, x: nat :: Member(sts, d, l, k) && Member(sts, d, x, k) ==>
               SameExclusions(Normalized(sts[l]), Normalized(sts[x]))
    ensures GroupKeepsExclusions(sts, d, k)
  {
    forall l: nat | Member(sts, d, l, k)
      ensures SameExclusions(Normalized(sts[l]), Finished(Merged(sts, d).value, k))
    {
      forall x: nat | Member(sts, d, x, k)
        ensures NotAction in sts[k] ==> forall s :: CoversAction(sts[x], s) <==> CoversAction(sts[l], s)
        ensures NotResource in sts[k] ==> forall s :: CoversResource(sts[x], s) <==> CoversResource(sts[l], s)
      {
        AgreeingMembers(sts, d, x, l, k);
      }
      hide Merged, Kept, Member, Normalized, Finished, CoversAction, CoversResource;
      MemberExclusions(sts, d, l, k);
    }
  }

  lemma AgreeingMembers(sts: seq<Statement>, d: bool, x: nat, l: nat, k: nat)
    requires AllWellFormed(sts) && AllRegular(sts) && Kept(sts, d, k) && Member(sts, d, l, k) && Member(sts, d, x, k)
    requires SameExclusions(Normalized(sts[x]), Normalized(sts[l]))
    ensures NotAction in sts[k] ==> forall s :: CoversAction(sts[x], s) <==> CoversAction(sts[l], s)
    ensures NotResource in sts[k] ==> forall s :: CoversResource(sts[x], s) <==> CoversResource(sts[l], s)
  {
    MembersAreAlike(sts, d, l, k);
    MembersAreAlike(sts, d, x, k);
    EveryStatementIsWithin(sts, l);
    EveryStatementIsWithin(sts, x);
    hide Merged, Kept, Member, Normalized, WellFormed, Within, Regular;
    SameExclusionsIff(sts[x], sts[l], ActionPool(sts), ResourcePool(sts));
    forall s
      ensures CoversAction(Normalized(sts[l]), s) <==> CoversAction(sts[l], s)
      ensures CoversAction(Normalized(sts[x]), s) <==> CoversAction(sts[x], s)
      ensures CoversResource(Normalized(sts[l]), s) <==> CoversResource(sts[l], s)
      ensures CoversResource(Normalized(sts[x]), s) <==> CoversResource(sts[x], s)
    {
      NormalizedGrants(sts, l, s, s);
      NormalizedGrants(sts, x, s, s);
    }
  }
}
