/** `normalize_policies`: lowering, removing duplicates and removing entries another entry supersedes. */
module Normalization {
  import opened Globs
  import opened Statements
  import opened Strings

  predicate Superseded(p: string, all: seq<string>) {
    exists q :: q in all && q != p && Fnmatch(p, q)
  }

  function Unsuperseded(xs: seq<string>, all: seq<string>): (ys: seq<string>)
    ensures forall y {:trigger y in ys} :: y in ys <==> y in xs && !Superseded(y, all)
  {
    if xs == [] then []
    else (if Superseded(xs[0], all) then [] else [xs[0]]) + Unsuperseded(xs[1..], all)
  }

  /** What one element's list of entries becomes. */
  function NormalList(e: Field, xs: seq<string>): seq<string> {
    SortedSet(Unsuperseded(FoldedAll(e, xs), FoldedAll(e, xs)))
  }

  /** A statement whose first `n` elements have been normalised. */
  function NormalizedUpTo(st: Statement, n: nat): Statement {
    map k | k in st ::
      if Position(k) < n && IsElement(k) && Truthy(st, k) then Entries(NormalList(k, AsList(st[k]))) else st[k]
  }

  function Normalized(st: Statement): Statement {
    NormalizedUpTo(st, |ELEMENTS|)
  }

  function NormalizedAll(sts: seq<Statement>): (r: seq<Statement>)
    ensures |r| == |sts| && forall i :: 0 <= i < |sts| ==> r[i] == Normalized(sts[i])
  {
    seq(|sts|, i requires 0 <= i < |sts| => Normalized(sts[i]))
  }

  // ---- The loops of the code ----

  method DropSuperseded(entries: seq<string>) returns (kept: seq<string>)
    requires forall i, j :: 0 <= i < j < |entries| ==> entries[i] != entries[j]
    ensures kept == SortedSet(Unsuperseded(entries, entries))
  {
    var modified: seq<string> := [];
    for i := 0 to |entries|
      invariant forall y :: y in modified <==> y in entries[..i] && !Superseded(y, entries)
    {
      var others := entries[..i] + entries[i + 1..];
      assert forall q :: q in others <==> q in entries && q != entries[i];
      var matched := false;
      for j := 0 to |others|
        invariant !matched
        invariant forall k :: 0 <= k < j ==> !Fnmatch(entries[i], others[k])
      {
        if Fnmatch(entries[i], others[j]) {
          matched := true;
          assert others[j] in others;
          break;
        }
      }
      assert matched <==> Superseded(entries[i], entries);
      if !matched { modified := modified + [entries[i]]; }
      assert entries[..i + 1] == entries[..i] + [entries[i]];
    }
    assert entries[..|entries|] == entries;
    kept := SortedSet(modified);
    StrictlySortedIsUnique(kept, SortedSet(Unsuperseded(entries, entries)));
  }

  lemma SupersededDependsOnMembers(p: string, xs: seq<string>, ys: seq<string>)
    requires forall x :: x in xs <==> x in ys
    ensures Superseded(p, xs) == Superseded(p, ys)
  {
  }

  lemma NormalListDependsOnMembers(xs: seq<string>, ys: seq<string>)
    requires forall x :: x in xs <==> x in ys
    ensures SortedSet(Unsuperseded(xs, xs)) == SortedSet(Unsuperseded(ys, ys))
  {
    forall p ensures Superseded(p, xs) == Superseded(p, ys) { SupersededDependsOnMembers(p, xs, ys); }
    StrictlySortedIsUnique(SortedSet(Unsuperseded(xs, xs)), SortedSet(Unsuperseded(ys, ys)));
  }

  lemma NormalizedStep(st: Statement, n: nat, e: Field)
    requires n < |ELEMENTS| && ELEMENTS[n] == e
    ensures Truthy(NormalizedUpTo(st, n), e) == Truthy(st, e)
    ensures e in st ==> NormalizedUpTo(st, n)[e] == st[e]
    ensures NormalizedUpTo(st, n + 1) ==
            if Truthy(st, e) then NormalizedUpTo(st, n)[e := Entries(NormalList(e, AsList(st[e])))]
            else NormalizedUpTo(st, n)
  {
    hide NormalList;
    assert Position(e) == n;
    assert forall k :: Position(k) == n ==> k == e;
  }

  method NormalizeElements(statement: Statement) returns (policy: Statement)
    ensures policy == Normalized(statement)
  {
    policy := statement;
    assert policy == NormalizedUpTo(statement, 0);
    for n := 0 to |ELEMENTS|
      invariant policy == NormalizedUpTo(statement, n)
    {
      var e := ELEMENTS[n];
      NormalizedStep(statement, n, e);
      if Truthy(policy, e) {
        var entries := ListOfSet(FoldedAll(e, AsList(policy[e])));
        var kept := DropSuperseded(entries);
        NormalListDependsOnMembers(entries, FoldedAll(e, AsList(policy[e])));
        policy := policy[e := Entries(kept)];
      }
    }
  }

  method NormalizePolicies(policies: array<Statement>)
    modifies policies
    ensures policies[..] == NormalizedAll(old(policies[..]))
  {
    for i := 0 to policies.Length
      invariant forall k :: 0 <= k < i ==> policies[k] == Normalized(old(policies[k]))
      invariant forall k :: i <= k < policies.Length ==> policies[k] == old(policies[k])
    {
      policies[i] := NormalizeElements(policies[i]);
    }
  }

  // ---- What normalisation yields, with no precondition on the patterns ----

  /** Sorted, free of duplicates, no entry matching another; and doing it again changes nothing. */
  lemma NormalListIsNormal(e: Field, xs: seq<string>)
    ensures StrictlySorted(NormalList(e, xs))
    ensures forall p, q :: p in NormalList(e, xs) && q in NormalList(e, xs) && p != q ==> !Fnmatch(p, q)
    ensures NormalList(e, NormalList(e, xs)) == NormalList(e, xs)
  {
    var ps := FoldedAll(e, xs);
    var ys := NormalList(e, xs);
    assert FoldedAll(e, ys) == ys by {
      forall i | 0 <= i < |ys| ensures Folded(e, ys[i]) == ys[i] {
        assert ys[i] in ys && ys[i] in Unsuperseded(ps, ps);
        var k :| 0 <= k < |ps| && ps[k] == ys[i];
        LowerTwice(xs[k]);
      }
    }
    StrictlySortedIsUnique(NormalList(e, ys), ys);
  }

  lemma NormalizedTwice(sts: seq<Statement>)
    ensures NormalizedAll(NormalizedAll(sts)) == NormalizedAll(sts)
  {
    forall i | 0 <= i < |sts| ensures Normalized(Normalized(sts[i])) == Normalized(sts[i]) {
      var st, once := sts[i], Normalized(sts[i]);
      forall k | k in st ensures Normalized(once)[k] == once[k] {
        if IsElement(k) && Truthy(st, k) { NormalListIsNormal(k, AsList(st[k])); }
      }
    }
  }

  /** One key of a normalised statement. A filled element becomes a list, sorted and without repeats, of those of its
      entries, lowered if they are actions, that no other of them matches. Nothing else changes. */
  lemma NormalizedIs(st: Statement, k: Field)
    ensures k in Normalized(st) <==> k in st
    ensures k in st ==>
      if k in {Resource, Action, NotAction, NotResource, NotPrincipal} && st[k] !in {Text(""), Entries([])} then
        var ps, out := FoldedAll(k, AsList(st[k])), Normalized(st)[k];
        && out.Entries? && StrictlySorted(out.entries)
        && forall p :: p in out.entries <==> p in ps && forall q :: q in ps && q != p ==> !Fnmatch(p, q)
      else Normalized(st)[k] == st[k]
  {
  }

  // ---- When normalisation keeps the meaning of a list ----

  /** No bracket classes, and no `*` that a `?` of another entry could consume. */
  predicate Decidable(xs: seq<string>) {
    (forall p :: p in xs ==> '[' !in p) &&
    (forall p, q :: p in xs && q in xs && p != q ==> Unmixed(p, q))
  }

  predicate Twins(p: string, q: string) {
    p != q && Fnmatch(p, q) && Fnmatch(q, p)
  }

  /** Whenever two entries match each other, a third matches the first without being matched by it. */
  predicate TwinsAreTopped(xs: seq<string>) {
    forall p, q :: p in xs && q in xs && Twins(p, q) ==> exists r :: r in xs && Fnmatch(p, r) && !Fnmatch(r, p)
  }

  ghost function Above(p: string, xs: seq<string>): set<string> {
    set q | q in xs && IamMatch(p, q)
  }

  /** Climbing from an entry along "is matched by" ends at one that is kept. */
  lemma {:induction false} SomeSurvivorAbove(xs: seq<string>, p: string) returns (top: string)
    requires Decidable(xs) && TwinsAreTopped(xs) && p in xs
    ensures top in xs && !Superseded(top, xs) && IamMatch(p, top)
    decreases |Above(p, xs)|
  {
    MatchesItself(p);
    if !Superseded(p, xs) { return p; }
    var q :| q in xs && q != p && Fnmatch(p, q);
    if Fnmatch(q, p) {
      assert Twins(p, q);
      q :| q in xs && Fnmatch(p, q) && !Fnmatch(q, p);
      FnmatchIsIamMatch(p, p);
    }
    FnmatchIsIamMatch(p, q);
    FnmatchIsIamMatch(q, p);
    assert Above(q, xs) < Above(p, xs) by {
      forall r | r in Above(q, xs) ensures r in Above(p, xs) {
        if q != r { TextMatchIsTransitive(p, q, r); }
      }
      assert p in Above(p, xs) && p !in Above(q, xs);
    }
    StrictSubsetIsSmaller(Above(q, xs), Above(p, xs));
    top := SomeSurvivorAbove(xs, q);
    if q != top { TextMatchIsTransitive(p, q, top); }
  }

  lemma StrictSubsetIsSmaller<T>(a: set<T>, b: set<T>)
    requires a < b
    ensures |a| < |b|
  {
    assert b == a + (b - a);
  }

  ghost predicate SameLanguage(xs: seq<string>, ys: seq<string>) {
    forall s :: AnyMatch(xs, s) <==> AnyMatch(ys, s)
  }

  /** On decidable lists, normalisation keeps the set of strings a list matches exactly when every pair of
      mutually matching entries lies strictly below a third. */
  lemma NormalizationKeepsLanguageIff(xs: seq<string>)
    requires Decidable(xs)
    ensures SameLanguage(SortedSet(Unsuperseded(xs, xs)), xs) <==> TwinsAreTopped(xs)
  {
    var kept := SortedSet(Unsuperseded(xs, xs));
    if TwinsAreTopped(xs) {
      forall s ensures AnyMatch(kept, s) <==> AnyMatch(xs, s) {
        if AnyMatch(xs, s) {
          var p :| p in xs && IamMatch(s, p);
          var top := SomeSurvivorAbove(xs, p);
          if top != p { TextMatchIsContainment(s, p, top); }
          assert top in kept;
        }
      }
    }
    if SameLanguage(kept, xs) {
      forall p, q | p in xs && q in xs && Twins(p, q) ensures exists r :: r in xs && Fnmatch(p, r) && !Fnmatch(r, p) {
        MatchesItself(p);
        assert AnyMatch(xs, p);
        var r :| r in kept && IamMatch(p, r);
        FnmatchIsIamMatch(p, r);
        assert Superseded(p, xs) && r != p;
        assert !Fnmatch(r, p);
      }
    }
  }

  /** Both failing families, concretely: adjacent stars, and a `?` beside a `*`. Every request is covered by
      the first list and every request of one character by the second; nothing is covered afterwards. */
  lemma NormalizationCanLoseEverything()
    ensures NormalList(Resource, ["*", "**"]) == []
    ensures NormalList(Resource, ["*", "?"]) == []
  {
    assert Fnmatch("*", "**") by { assert "**"[1..] == "*"; MatchesItself("*"); FnmatchIsIamMatch("*", "*"); }
    assert Fnmatch("**", "*") by { assert "**"[1..] == "*"; MatchesItself("*"); FnmatchIsIamMatch("*", "*"); }
    EachDropsTheOther("*", "**");
    assert Fnmatch("?", "*") by { assert Fnmatch("", "*"); }
    EachDropsTheOther("*", "?");
  }

  lemma EachDropsTheOther(p: string, q: string)
    requires p != q && Fnmatch(p, q) && Fnmatch(q, p)
    ensures NormalList(Resource, [p, q]) == []
  {
    var xs := [p, q];
    hide Fnmatch;
    assert q == xs[1] && q in xs && Superseded(p, xs);
    assert p == xs[0] && p in xs && Superseded(q, xs);
    NothingSurvives(xs);
  }

  lemma FirstIsMember<T>(xs: seq<T>)
    requires xs != []
    ensures xs[0] in xs
  {
  }

  lemma NothingSurvives(xs: seq<string>)
    requires forall y :: y in xs ==> Superseded(y, xs)
    ensures SortedSet(Unsuperseded(xs, xs)) == []
  {
    var kept := SortedSet(Unsuperseded(xs, xs));
    if kept != [] { FirstIsMember(kept); }
  }

  // ---- Pools of patterns: the condition carried through a whole minimisation ----

  /** All patterns of one dimension (actions or resources) of a request. */
  ghost predicate Regular(pool: set<string>) {
    (forall p :: p in pool ==> '[' !in p) &&
    (forall p, q :: p in pool && q in pool && p != q ==> Unmixed(p, q) && !Twins(p, q))
  }

  /** Patterns of literals and single stars are regular. */
  lemma SingleStarsAreRegular(pool: set<string>)
    requires forall p :: p in pool ==> '[' !in p && '?' !in p && NoAdjacentStars(p)
    ensures Regular(pool)
  {
    forall p, q | p in pool && q in pool && Twins(p, q) ensures false {
      FnmatchIsIamMatch(p, q);
      FnmatchIsIamMatch(q, p);
      TextMatchIsAntisymmetric(p, q);
    }
  }

  lemma NormalListKeepsNames(e: Field, v: Value, pool: set<string>, s: string)
    requires Regular(pool) && forall p :: p in FoldedAll(e, AsList(v)) ==> p in pool
    ensures Names(e, Entries(NormalList(e, AsList(v))), s) <==> Names(e, v, s)
  {
    var ps := FoldedAll(e, AsList(v));
    NormalizationKeepsLanguageIff(ps);
    FoldedNormalList(e, AsList(v));
  }

  lemma FoldedNormalList(e: Field, xs: seq<string>)
    ensures FoldedAll(e, NormalList(e, xs)) == NormalList(e, xs)
  {
    var ps, ys := FoldedAll(e, xs), NormalList(e, xs);
    forall i | 0 <= i < |ys| ensures Folded(e, ys[i]) == ys[i] {
      assert ys[i] in ys && ys[i] in Unsuperseded(ps, ps);
      var k :| 0 <= k < |ps| && ps[k] == ys[i];
      LowerTwice(xs[k]);
    }
  }

  ghost predicate Within(st: Statement, actions: set<string>, resources: set<string>) {
    (forall e, p :: (e == Action || e == NotAction) && e in st && p in FoldedAll(e, AsList(st[e])) ==> p in actions) &&
    (forall e, p :: (e == Resource || e == NotResource) && e in st && p in FoldedAll(e, AsList(st[e])) ==>
      p in resources)
  }

  lemma NormalizedKeepsNames(st: Statement, e: Field, pool: set<string>, s: string)
    requires e in st && IsElement(e) && Regular(pool)
    requires forall p :: p in FoldedAll(e, AsList(st[e])) ==> p in pool
    ensures Names(e, Normalized(st)[e], s) <==> Names(e, st[e], s)
  {
    if Truthy(st, e) { NormalListKeepsNames(e, st[e], pool, s); }
  }

  lemma NormalizedKeepsTerms(st: Statement)
    ensures Normalized(st).Keys == st.Keys
    ensures Terms(Normalized(st)) == Terms(st)
  {
    var out := Normalized(st);
    assert forall k :: k in st && IsRest(k) ==> out[k] == st[k];
    assert Terms(out).Keys == Terms(st).Keys;
    assert forall k :: k in Terms(st) ==> Terms(out)[k] == Terms(st)[k];
  }

  lemma NormalizedAt(st: Statement, e: Field)
    requires e in st && IsElement(e) && st[e] != Text("")
    ensures Normalized(st)[e] == Entries(NormalList(e, AsList(st[e])))
  {
    if st[e] == Entries([]) { assert NormalList(e, []) == []; }
  }

  lemma NormalizedIsTidy(st: Statement, actions: set<string>, resources: set<string>)
    requires WellFormed(st) && Within(st, actions, resources)
    ensures Tidy(Normalized(st)) && Within(Normalized(st), actions, resources)
  {
    var out := Normalized(st);
    forall e | e in st && IsElement(e)
      ensures out[e].Entries?
      ensures forall p :: p in FoldedAll(e, AsList(out[e])) ==> p in FoldedAll(e, AsList(st[e]))
    {
      assert st[e] != Text("");
      FoldedNormalList(e, AsList(st[e]));
    }
  }

  lemma NormalizedKeepsCoverage(st: Statement, actions: set<string>, resources: set<string>, action: string,
      resource: string)
    requires Within(st, actions, resources)
    requires Regular(actions) && Regular(resources)
    ensures CoversAction(Normalized(st), action) <==> CoversAction(st, action)
    ensures CoversResource(Normalized(st), resource) <==> CoversResource(st, resource)
  {
    NormalizedKeepsTerms(st);
    hide Normalized, Names, Terms;
    if Action in st { NormalizedKeepsNames(st, Action, actions, action); }
    if NotAction in st { NormalizedKeepsNames(st, NotAction, actions, action); }
    if Resource in st { NormalizedKeepsNames(st, Resource, resources, resource); }
    if NotResource in st { NormalizedKeepsNames(st, NotResource, resources, resource); }
  }
}
