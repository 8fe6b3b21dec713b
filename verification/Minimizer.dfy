/** The minimiser as the code runs it: nested loops rewriting a list of statements in place. */
module Minimizer {
  import opened MergeLoops
  import opened Minimization
  import opened MinimizedStatements
  import opened Normalization
  import opened Outcomes
  import opened Statements
  import opened Strings

  /** `sort_dict` on one statement. */
  method SortStatement(original: Statement) returns (d: Statement)
    ensures d == SortDict(original)
  {
    d := original;
    var keys := original.Keys;
    while keys != {}
      invariant keys <= original.Keys && d.Keys == original.Keys
      invariant forall k :: k in original ==> d[k] == if k in keys then original[k] else SortDict(original)[k]
      decreases keys
    {
      var k :| k in keys;
      if d[k].Entries? && |d[k].entries| > 1 {
        d := d[k := Entries(Sort(d[k].entries))];
      }
      keys := keys - {k};
    }
  }

  /** The loop over the elements: the first on which the two statements can be merged. */
  method FindElement(a: Statement, b: Statement) returns (c: Option<Field>)
    ensures c == Candidate(a, b, 0)
  {
    for n := 0 to |ELEMENTS|
      invariant Candidate(a, b, n) == Candidate(a, b, 0)
    {
      var e := ELEMENTS[n];
      if !(Truthy(a, e) || Truthy(b, e)) { continue; }
      if SameExcept(a, b, e) { return Some(e); }
    }
    return None;
  }

  /** The inner loop: statement `i` absorbs what it can of the statements after it. */
  method AbsorbLater(statements: array<Statement>, i: nat, excludeIds: seq<nat>, disregardSid: bool,
      ghost owner: map<nat, Absorption>)
    returns (failure: Option<Error>, excluded: seq<nat>, ghost newOwner: map<nat, Absorption>)
    requires i < statements.Length
    modifies statements
    ensures match Absorb(Merging(old(statements[..]), excludeIds, owner), i, i + 1, MergeRules(disregardSid))
            case Ok(m) => failure == None && m == Merging(statements[..], excluded, newOwner)
            case Err(error) => failure == Some(error)
    ensures failure == None && disregardSid ==>
              forall k :: i < k < statements.Length && k !in excludeIds ==> Sid !in statements[k]
  {
    ghost var rules := MergeRules(disregardSid);
    ghost var goal := Absorb(Merging(statements[..], excludeIds, owner), i, i + 1, rules);
    excluded, newOwner := excludeIds, owner;
    for j := i + 1 to statements.Length
      invariant goal == Absorb(Merging(statements[..], excluded, newOwner), i, j, rules)
      invariant forall k :: j <= k < statements.Length ==> (k in excluded <==> k in excludeIds)
      invariant disregardSid ==> forall k :: i < k < j && k !in excludeIds ==> Sid !in statements[k]
    {
      ghost var m := Merging(statements[..], excluded, newOwner);
      if j in excluded { continue; }
      if disregardSid { statements[j] := statements[j] - {Sid}; }
      assert Cleaned(m, j, rules) == Merging(statements[..], excluded, newOwner);
      var element := FindElement(statements[i], statements[j]);
      if element.Some? {
        var merged := MergedOn(statements[i], statements[j], element.value);
        if merged.Err? {
          assert Meet(m, i, j, rules) == Err(merged.error);
          return Some(merged.error), excluded, newOwner;
        }
        excluded, newOwner := excluded + [j], newOwner[j := Absorption(i, element.value)];
        statements[i] := merged.value;
      }
      assert Meet(m, i, j, rules) == Ok(Merging(statements[..], excluded, newOwner));
    }
    return None, excluded, newOwner;
  }

  lemma KeptStep(m: Merging<Statement>, i: nat)
    requires i < |m.items|
    ensures SortAll(KeptFrom(m, i)) ==
            (if i in m.excluded then [] else [SortDict(m.items[i])]) + SortAll(KeptFrom(m, i + 1))
  {
  }

  /** The outer loop. */
  method MergeStatements(statements: array<Statement>, disregardSid: bool)
    returns (failure: Option<Error>, excludeIds: seq<nat>, ghost owner: map<nat, Absorption>)
    modifies statements
    ensures match AbsorbAll(Start(old(statements[..])), 0, MergeRules(disregardSid))
            case Ok(m) => failure == None && m == Merging(statements[..], excludeIds, owner)
            case Err(error) => failure == Some(error)
    ensures failure == None && disregardSid ==> forall st :: st in statements[..] ==> Sid !in st
  {
    ghost var rules := MergeRules(disregardSid);
    if disregardSid && AbsorbAll(Start(statements[..]), 0, rules).Ok? { NoSidsAfterMerging(statements[..]); }
    ghost var goal := AbsorbAll(Start(statements[..]), 0, rules);
    failure, excludeIds, owner := None, [], map[];
    for i := 0 to statements.Length
      invariant failure == None
      invariant goal == AbsorbAll(Merging(statements[..], excludeIds, owner), i, rules)
    {
      ghost var m := Merging(statements[..], excludeIds, owner);
      if disregardSid { statements[i] := statements[i] - {Sid}; }
      assert Cleaned(m, i, rules) == Merging(statements[..], excludeIds, owner);
      if i in excludeIds { continue; }
      failure, excludeIds, owner := AbsorbLater(statements, i, excludeIds, disregardSid, owner);
      if failure.Some? { return; }
    }
  }

  /** Sorting and collecting what was not absorbed. */
  method CollectKept(statements: array<Statement>, excludeIds: seq<nat>, ghost owner: map<nat, Absorption>)
      returns (minimized: seq<Statement>)
    modifies statements
    ensures minimized == SortAll(KeptFrom(Merging(old(statements[..]), excludeIds, owner), 0))
    ensures forall k :: 0 <= k < statements.Length ==>
              statements[k] == if k in excludeIds then old(statements[k]) else SortDict(old(statements[k]))
  {
    hide SortDict;
    ghost var m := Merging(statements[..], excludeIds, owner);
    minimized := [];
    for i := 0 to statements.Length
      invariant minimized + SortAll(KeptFrom(m, i)) == SortAll(KeptFrom(m, 0))
      invariant forall k :: i <= k < statements.Length ==> statements[k] == old(statements[k])
      invariant forall k :: 0 <= k < i ==>
                  statements[k] == if k in excludeIds then old(statements[k]) else SortDict(old(statements[k]))
    {
      KeptStep(m, i);
      if i !in excludeIds {
        statements[i] := SortStatement(statements[i]);
        minimized := minimized + [statements[i]];
      }
    }
  }

  /** The result is `Minimized`; the caller's list is left merged, with its kept statements sorted. */
  method MinimizeIamPolicyStatements(statements: array<Statement>, disregardSid: bool)
      returns (r: Result<seq<Statement>>)
    modifies statements
    ensures r == Minimized(old(statements[..]), disregardSid)
    ensures r.Ok? ==> var m := Merged(old(statements[..]), disregardSid).value;
      |m.items| == statements.Length &&
      forall k :: 0 <= k < statements.Length ==>
        statements[k] == if k in m.excluded then m.items[k] else SortDict(m.items[k])
    ensures r.Ok? && disregardSid ==> forall st :: st in r.value ==> Sid !in st
  {
    if disregardSid && Minimized(statements[..], true).Ok? { NoSidsLeft(statements[..]); }
    NormalizePolicies(statements);
    var failure, excludeIds;
    ghost var owner;
    failure, excludeIds, owner := MergeStatements(statements, disregardSid);
    if failure.Some? { return Err(failure.value); }
    var minimized := CollectKept(statements, excludeIds, owner);
    var result := new Statement[|minimized|](k requires 0 <= k < |minimized| => minimized[k]);
    assert result[..] == minimized;
    NormalizePolicies(result);
    return Ok(result[..]);
  }
}
