/** What `minimize_iam_policy_statements` keeps of the meaning of a policy. */
module MinimizedMeaning {
  import opened Globs
  import opened Minimization
  import opened MinimizedRuns
  import opened NegatedMerges
  import opened Normalization
  import opened Statements
  import opened Strings

  // ---- Patterns of literals and single stars ----

  predicate PlainPattern(p: string) {
    '[' !in p && '?' !in p && NoAdjacentStars(p)
  }

  lemma LowerKeepsPlain(p: string)
    requires PlainPattern(p)
    ensures PlainPattern(Lower(p))
  {
    var q := Lower(p);
    forall i | 0 <= i < |q| ensures q[i] != '[' && q[i] != '?' && (q[i] == '*' <==> p[i] == '*') {
      assert q[i] == LowerChar(p[i]) && p[i] in p;
    }
  }

  /** A request whose patterns hold literals and single stars only is regular. */
  lemma PlainPatternsAreRegular(sts: seq<Statement>)
    requires forall st, e, p :: st in sts && e in st && IsElement(e) && p in AsList(st[e]) ==> PlainPattern(p)
    ensures AllRegular(sts)
  {
    forall st, e, p | st in sts && e in st && IsElement(e) && p in FoldedAll(e, AsList(st[e])) ensures PlainPattern(p) {
      var xs := AsList(st[e]);
      var k :| 0 <= k < |xs| && FoldedAll(e, xs)[k] == p;
      assert xs[k] in xs;
      LowerKeepsPlain(xs[k]);
    }
    forall p | p in ActionPool(sts) || p in ResourcePool(sts) ensures PlainPattern(p) {
      var st :| st in sts && (p in PatternsOf(st, Action, NotAction) || p in PatternsOf(st, Resource, NotResource));
    }
    SingleStarsAreRegular(ActionPool(sts));
    SingleStarsAreRegular(ResourcePool(sts));
  }

  // ---- What the output covers ----

  /** The kept statement `k` covers, under the terms of its group, what the group lists and nothing it excludes. */
  ghost predicate GroupGrants(
      sts: seq<Statement>, d: bool, k: nat, terms: map<Field, Unordered>, action: string, resource: string)
    requires Kept(sts, d, k)
  {
    Terms(sts[k]) == terms && GroupCoversAction(sts, d, k, action) && GroupCoversResource(sts, d, k, resource)
  }

  lemma FinishedGrants(
      sts: seq<Statement>, d: bool, k: nat, terms: map<Field, Unordered>, action: string, resource: string)
    requires AllWellFormed(sts) && AllRegular(sts) && Kept(sts, d, k)
    ensures var fin := Finished(Merged(sts, d).value, k);
      && (GroupGrants(sts, d, k, terms, action, resource) <==> Terms(fin) == terms && Covers(fin, action, resource))
      && fin in Minimized(sts, d).value
  {
    MergingIsAForest(sts, d);
    FinishedKeeps(sts, d, k, action, resource);
    KeptCoverage(sts, d, k, action, resource);
    OutputMembers(sts, d, Finished(Merged(sts, d).value, k));
  }

  lemma OutputIsFinished(sts: seq<Statement>, d: bool, st: Statement) returns (k: nat)
    requires AllWellFormed(sts) && AllRegular(sts)
    requires Minimized(sts, d).Ok? && st in Minimized(sts, d).value
    ensures Kept(sts, d, k) && Finished(Merged(sts, d).value, k) == st
  {
    MergingIsAForest(sts, d);
    OutputMembers(sts, d, st);
    var m := Merged(sts, d).value;
    k :| 0 <= k < |m.items| && k !in m.excluded && Finished(m, k) == st;
  }

  /** Exactly what the output covers, negated elements included: a request is covered under given terms if and only
      if some group of merged statements lists it, one member or another, and none of the group excludes it. */
  lemma MinimizedCoverage(sts: seq<Statement>, d: bool, terms: map<Field, Unordered>, action: string, resource: string)
    requires AllWellFormed(sts) && AllRegular(sts)
    ensures Minimized(sts, d).Ok?
    ensures Grants(Minimized(sts, d).value, terms, action, resource) <==>
              exists k: nat :: Kept(sts, d, k) && GroupGrants(sts, d, k, terms, action, resource)
  {
    MergingIsAForest(sts, d);
    if Grants(Minimized(sts, d).value, terms, action, resource) {
      var st :| st in Minimized(sts, d).value && Terms(st) == terms && Covers(st, action, resource);
      var k := OutputIsFinished(sts, d, st);
      FinishedGrants(sts, d, k, terms, action, resource);
      hide Terms, Covers, Kept, GroupGrants;
      assert Kept(sts, d, k) && GroupGrants(sts, d, k, terms, action, resource);
    }
    if k: nat :| Kept(sts, d, k) && GroupGrants(sts, d, k, terms, action, resource) {
      FinishedGrants(sts, d, k, terms, action, resource);
    }
  }

  /** Minimisation never grants what the input did not: under every effect, condition and account limit, every
      request the output covers, the input covered. */
  lemma MinimizedNeverGrantsMore(
      sts: seq<Statement>, d: bool, terms: map<Field, Unordered>, action: string, resource: string)
    requires AllWellFormed(sts) && AllRegular(sts)
    ensures Minimized(sts, d).Ok?
    ensures Grants(Minimized(sts, d).value, terms, action, resource) ==> Grants(sts, terms, action, resource)
  {
    MergingIsAForest(sts, d);
    if Grants(Minimized(sts, d).value, terms, action, resource) {
      var st :| st in Minimized(sts, d).value && Terms(st) == terms && Covers(st, action, resource);
      var k := OutputIsFinished(sts, d, st);
      FinishedKeeps(sts, d, k, action, resource);
      KeptCoversNoMore(sts, d, k, action, resource);
      var l: nat :| Member(sts, d, l, k) && Terms(sts[l]) == Terms(sts[k]) && Covers(sts[l], action, resource);
      assert sts[l] in sts;
    }
  }

  // ---- When the meaning is kept ----

  /** Every kept statement ends with the exclusions of whichever of its group covered anything. */
  ghost predicate ExclusionsKept(sts: seq<Statement>, d: bool) {
    forall k: nat :: Kept(sts, d, k) ==> GroupKeepsExclusions(sts, d, k)
  }

  /** Minimisation keeps the meaning: unless exclusions grew, the output covers a request under given terms if and
      only if the input does. */
  lemma MinimizedKeepsMeaning(
      sts: seq<Statement>, d: bool, terms: map<Field, Unordered>, action: string, resource: string)
    requires AllWellFormed(sts) && AllRegular(sts) && ExclusionsKept(sts, d)
    ensures Minimized(sts, d).Ok?
    ensures Grants(Minimized(sts, d).value, terms, action, resource) <==> Grants(sts, terms, action, resource)
  {
    MinimizedNeverGrantsMore(sts, d, terms, action, resource);
    MergingIsAForest(sts, d);
    if Grants(sts, terms, action, resource) {
      var l: nat :| l < |sts| && Terms(sts[l]) == terms && Covers(sts[l], action, resource);
      var k := OwnerOf(sts, d, l);
      GroupKeepsMeaningIff(sts, d, k);
      MembersAreAlike(sts, d, l, k);
      FinishedKeeps(sts, d, k, action, resource);
      FinishedGrants(sts, d, k, terms, action, resource);
    }
  }

  /** Every statement ends in a kept one. */
  lemma OwnerOf(sts: seq<Statement>, d: bool, l: nat) returns (k: nat)
    requires AllWellFormed(sts) && l < |sts|
    ensures Kept(sts, d, k) && Member(sts, d, l, k)
  {
    MergingIsAForest(sts, d);
    var m := Merged(sts, d).value;
    k := if l in m.owner then m.owner[l].into else l;
  }

  /** Hence no deny-overrides decision changes, whichever conditions and account limits apply. */
  lemma MinimizedKeepsDecisions(
      sts: seq<Statement>, d: bool, applies: map<Field, Unordered> -> bool, action: string, resource: string)
    requires AllWellFormed(sts) && AllRegular(sts) && ExclusionsKept(sts, d)
    ensures Minimized(sts, d).Ok?
    ensures Decide(Minimized(sts, d).value, applies, action, resource) == Decide(sts, applies, action, resource)
  {
    MergingIsAForest(sts, d);
    forall terms
      ensures Grants(Minimized(sts, d).value, terms, action, resource) <==> Grants(sts, terms, action, resource)
    {
      MinimizedKeepsMeaning(sts, d, terms, action, resource);
    }
  }

  /** No statement was absorbed on NotAction or NotResource. */
  ghost predicate NothingNegatedMerged(sts: seq<Statement>, d: bool) {
    forall k: nat :: Kept(sts, d, k) ==> AbsorbsOnListed(sts, d, k)
  }

  /** Where no negated element is merged, exclusions are kept. */
  lemma ListedMergesKeepExclusions(sts: seq<Statement>, d: bool)
    requires AllWellFormed(sts) && AllRegular(sts) && NothingNegatedMerged(sts, d)
    ensures ExclusionsKept(sts, d)
  {
    forall k: nat | Kept(sts, d, k) ensures GroupKeepsExclusions(sts, d, k) {
      forall l: nat, action, resource | Member(sts, d, l, k) && Covers(sts[l], action, resource)
        ensures Covers(Finished(Merged(sts, d).value, k), action, resource)
      {
        KeptCoversNoLess(sts, d, k, action, resource);
      }
      GroupKeepsMeaningIff(sts, d, k);
    }
  }

  /** Any two statements that could be merged list the same exclusions, once normalised. */
  ghost predicate AlikeExcludeTheSame(sts: seq<Statement>) {
    forall o, p :: o in sts && p in sts && Alike(o, p) ==> SameExclusions(Normalized(o), Normalized(p))
  }

  /** Where the statements of the input that could be merged exclude the same, exclusions are kept. */
  lemma SameExclusionsAreKept(sts: seq<Statement>, d: bool)
    requires AllWellFormed(sts) && AllRegular(sts) && AlikeExcludeTheSame(sts)
    ensures ExclusionsKept(sts, d)
  {
    forall k: nat | Kept(sts, d, k) ensures GroupKeepsExclusions(sts, d, k) {
      forall l: nat, x: nat | Member(sts, d, l, k) && Member(sts, d, x, k)
        ensures SameExclusions(Normalized(sts[l]), Normalized(sts[x]))
      {
        MembersAreAlike(sts, d, l, k);
        MembersAreAlike(sts, d, x, k);
        assert sts[l] in sts && sts[x] in sts;
      }
      ListsAgree(sts, d, k);
    }
  }

  /** Where nothing is excluded, exclusions are kept. */
  lemma PositiveKeepsExclusions(sts: seq<Statement>, d: bool)
    requires AllWellFormed(sts) && AllRegular(sts)
    requires forall st :: st in sts ==> Positive(st)
    ensures ExclusionsKept(sts, d)
  {
    forall o, p | o in sts && p in sts && Alike(o, p) ensures SameExclusions(Normalized(o), Normalized(p)) {
      NormalizedIsAlike(o, p);
    }
    SameExclusionsAreKept(sts, d);
  }

  ghost predicate KeepsMeaning(sts: seq<Statement>, d: bool) {
    Minimized(sts, d).Ok? &&
    forall terms, action, resource ::
      Grants(Minimized(sts, d).value, terms, action, resource) <==> Grants(sts, terms, action, resource)
  }

  /** No two statements of the output are under the same terms. */
  ghost predicate OneKeptPerTerms(sts: seq<Statement>, d: bool) {
    forall k: nat, x: nat :: Kept(sts, d, k) && Kept(sts, d, x) && Terms(sts[k]) == Terms(sts[x]) ==> k == x
  }

  /** Where one statement is left for every effect, condition and account limit, nothing can make up for what it
      loses: then a whole list keeps its meaning if and only if exclusions are kept. */
  lemma MinimizedKeepsMeaningIff(sts: seq<Statement>, d: bool)
    requires AllWellFormed(sts) && AllRegular(sts) && OneKeptPerTerms(sts, d)
    ensures KeepsMeaning(sts, d) <==> ExclusionsKept(sts, d)
  {
    MergingIsAForest(sts, d);
    if ExclusionsKept(sts, d) {
      forall terms, action, resource
        ensures Grants(Minimized(sts, d).value, terms, action, resource) <==> Grants(sts, terms, action, resource)
      {
        MinimizedKeepsMeaning(sts, d, terms, action, resource);
      }
    }
    if KeepsMeaning(sts, d) {
      forall k: nat | Kept(sts, d, k) ensures GroupKeepsExclusions(sts, d, k) {
        forall l: nat, action, resource | Member(sts, d, l, k) && Covers(sts[l], action, resource)
          ensures Covers(Finished(Merged(sts, d).value, k), action, resource)
        {
          NothingElseCovers(sts, d, l, k, action, resource);
        }
        GroupKeepsMeaningIff(sts, d, k);
      }
    }
  }

  lemma NothingElseCovers(sts: seq<Statement>, d: bool, l: nat, k: nat, action: string, resource: string)
    requires AllWellFormed(sts) && AllRegular(sts) && OneKeptPerTerms(sts, d) && KeepsMeaning(sts, d)
    requires Kept(sts, d, k) && Member(sts, d, l, k) && Covers(sts[l], action, resource)
    ensures Covers(Finished(Merged(sts, d).value, k), action, resource)
  {
    MembersAreAlike(sts, d, l, k);
    assert Grants(sts, Terms(sts[k]), action, resource) by { assert sts[l] in sts; }
    var st :| st in Minimized(sts, d).value && Terms(st) == Terms(sts[k]) && Covers(st, action, resource);
    var x := OutputIsFinished(sts, d, st);
    FinishedKeeps(sts, d, x, action, resource);
  }
}
