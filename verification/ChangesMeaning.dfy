/** The compiled policy covers exactly what the changes ask for. */
module ChangesMeaning {
  import opened Changes
  import opened Globs
  import opened Minimization
  import opened MinimizedMeaning
  import opened MinimizedRuns
  import opened MinimizedStatements
  import opened Outcomes
  import opened Statements
  import opened Strings

  lemma GeneratedIsPlain(c: Change, actions: seq<string>, resources: seq<string>)
    ensures WellFormed(GeneratedStatement(c, actions, resources)) && Positive(GeneratedStatement(c, actions, resources))
  {
    CoreHasTerms(Entries(SortedSet(actions)), c.effect, Entries(SortedSet(resources)), Limits(c));
  }

  lemma CoreHasTerms(actions: Value, effect: string, resources: Value, limits: Statement)
    requires forall k :: k in limits ==> k.Other?
    requires actions.Entries? && resources.Entries?
    ensures var st := map[Action := actions, Effect := Text(effect), Resource := resources] + limits;
      && Terms(st) == map[Effect := Scalar(effect)] + (map k | k in limits :: AsUnordered(limits[k]))
      && WellFormed(st) && Positive(st)
  {
    var st := map[Action := actions, Effect := Text(effect), Resource := resources] + limits;
    var asked := map[Effect := Scalar(effect)] + map k | k in limits :: AsUnordered(limits[k]);
    assert Terms(st).Keys == asked.Keys;
    assert forall k :: k in asked ==> Terms(st)[k] == asked[k];
  }

  /** The terms of a generated statement are those the change states, and no others. */
  lemma GeneratedHasTerms(c: Change, actions: seq<string>, resources: seq<string>, terms: map<Field, Unordered>)
    ensures Terms(GeneratedStatement(c, actions, resources)) == terms <==> StatesTerms(c, terms)
  {
    GeneratedStatesTerms(c, actions, resources);
    TermsAreStatedOnce(c, Terms(GeneratedStatement(c, actions, resources)), terms);
  }

  lemma GeneratedStatesTerms(c: Change, actions: seq<string>, resources: seq<string>)
    ensures StatesTerms(c, Terms(GeneratedStatement(c, actions, resources)))
  {
    hide Terms, Limits, SortedSet;
    LimitsAreStated(c);
    CoreHasTerms(Entries(SortedSet(actions)), c.effect, Entries(SortedSet(resources)), Limits(c));
  }

  lemma LimitsAreStated(c: Change)
    ensures var limits := Limits(c);
      && (Other("Condition") in limits <==> c.condition != "")
      && (Other("Condition") in limits ==> limits[Other("Condition")] == Text(c.condition))
      && (Other("IncludeAccounts") in limits <==> c.includeAccounts != [])
      && (Other("IncludeAccounts") in limits ==> limits[Other("IncludeAccounts")] == Entries(c.includeAccounts))
      && (Other("ExcludeAccounts") in limits <==> c.excludeAccounts != [])
      && (Other("ExcludeAccounts") in limits ==> limits[Other("ExcludeAccounts")] == Entries(c.excludeAccounts))
      && forall k :: k in limits ==> k in {Other("Condition"), Other("IncludeAccounts"), Other("ExcludeAccounts")}
  {
    NamesDiffer();
  }

  lemma NamesDiffer()
    ensures "Condition" != "IncludeAccounts" && "Condition" != "ExcludeAccounts"
      && "IncludeAccounts" != "ExcludeAccounts"
  {
    assert "IncludeAccounts"[0] != "ExcludeAccounts"[0];
  }

  lemma TermsAreStatedOnce(c: Change, one: map<Field, Unordered>, other: map<Field, Unordered>)
    requires StatesTerms(c, one)
    ensures StatesTerms(c, other) <==> one == other
  {
    if StatesTerms(c, other) {
      assert one.Keys == other.Keys;
      assert forall k :: k in one ==> one[k] == other[k];
    }
  }

  lemma NamesIsAnyOf(e: Field, xs: seq<string>, s: string)
    ensures Names(e, Entries(SortedSet(xs)), s) <==> exists p :: p in xs && IamMatch(Folded(e, s), Folded(e, p))
  {
    var ys := SortedSet(xs);
    if Names(e, Entries(ys), s) {
      var k :| 0 <= k < |ys| && IamMatch(Folded(e, s), FoldedAll(e, ys)[k]);
      assert ys[k] in ys;
    }
    if p :| p in xs && IamMatch(Folded(e, s), Folded(e, p)) {
      assert p in ys;
      var k :| 0 <= k < |ys| && ys[k] == p;
      assert FoldedAll(e, ys)[k] in FoldedAll(e, ys);
    }
  }

  lemma GeneratedCovers(c: Change, actions: seq<string>, resources: seq<string>, action: string, resource: string)
    ensures Covers(GeneratedStatement(c, actions, resources), action, resource) <==>
              && (exists p :: p in actions && IamMatch(Lower(action), Lower(p)))
              && (exists p :: p in resources && IamMatch(resource, p))
  {
    var st := GeneratedStatement(c, actions, resources);
    assert st[Action] == Entries(SortedSet(actions)) && st[Resource] == Entries(SortedSet(resources));
    assert NotAction !in st && NotResource !in st;
    NamesIsAnyOf(Action, actions, action);
    NamesIsAnyOf(Resource, resources, resource);
  }

  /** What the statements of one change grant is what the change asks. */
  lemma StatementsGrantWhatIsAsked(c: Change, settings: Settings, terms: map<Field, Unordered>, action: string,
      resource: string)
    requires StatementsOf(c, settings).Ok?
    ensures Grants(StatementsOf(c, settings).value, terms, action, resource) <==>
      Asks(c, settings, terms, action, resource)
  {
    if !c.kind.CustomIam? {
      var actions, arns := RequestedActions(c, settings).value, RequestedArns(c).value;
      var st := GeneratedStatement(c, actions, arns);
      assert StatementsOf(c, settings).value == [st];
      assert Grants([st], terms, action, resource) <==> Terms(st) == terms && Covers(st, action, resource) by {
        assert st in [st];
      }
      GeneratedHasTerms(c, actions, arns, terms);
      GeneratedCovers(c, actions, arns, action, resource);
      forall p ensures p in actions <==> AsksForAction(c, settings, p) { RequestedActionsHold(c, settings, p); }
      forall p ensures p in arns <==> AsksForResource(c, p) { RequestedArnsHold(c, p); }
    }
  }

  lemma {:induction false} AcceptedMembers(sts: seq<Statement>, st: Statement)
    requires Accepted(sts).Ok?
    ensures st in Accepted(sts).value <==> st in sts && st != map[]
  {
    if sts == [] {
    } else {
      assert st in sts <==> st == sts[0] || st in sts[1..];
      AcceptedMembers(sts[1..], st);
    }
  }

  /** An empty statement, or one with an action, a resource and an effect. */
  ghost predicate EmptyOrWhole(st: Statement) {
    st == map[] ||
    ((HasSome(st, Action) || HasSome(st, NotAction)) && (HasSome(st, Resource) || HasSome(st, NotResource))
     && HasSome(st, Effect))
  }

  lemma AcceptableIff(st: Statement)
    ensures EmptyOrWhole(st) <==> st == map[] || Acceptable(st)
  {
  }

  lemma {:induction false} AcceptedIff(sts: seq<Statement>)
    ensures Accepted(sts).Ok? <==> forall st :: st in sts ==> EmptyOrWhole(st)
  {
    if sts == [] {
    } else {
      AcceptableIff(sts[0]);
      hide EmptyOrWhole, Acceptable;
      assert forall st :: st in sts <==> st == sts[0] || st in sts[1..];
      AcceptedIff(sts[1..]);
    }
  }

  /** Statement `st` comes from change `c`. */
  ghost predicate ComesFrom(st: Statement, c: Change, settings: Settings) {
    StatementsOf(c, settings).Ok? && st in StatementsOf(c, settings).value && st != map[]
  }

  lemma {:induction false} GatheredMembers(g: Gathering, changes: seq<Change>, settings: Settings, st: Statement)
    requires GatherAll(g, changes, settings).Ok?
    ensures st in GatherAll(g, changes, settings).value.statements <==>
              st in g.statements || exists c :: c in changes && ComesFrom(st, c, settings)
    decreases changes
  {
    if changes == [] {
    } else {
      var c, rest := changes[0], changes[1..];
      assert forall x :: x in changes <==> x == c || x in rest;
      AcceptedMembers(StatementsOf(c, settings).value, st);
      var next := Gather(g, c, settings).value;
      assert st in next.statements <==> st in g.statements || ComesFrom(st, c, settings);
      GatheredMembers(next, rest, settings, st);
      assert GatherAll(g, changes, settings) == GatherAll(next, rest, settings);
    }
  }

  /** What a change must bring along. Custom statements: an action, a resource and an effect each. Any other change:
      a configured type, an ARN, an effect and groups of actions; for S3, a prefix; for access levels, a service and
      some action, otherwise a group with permissions. */
  ghost predicate Usable(c: Change, settings: Settings) {
    if c.kind.CustomIam? then c.policy.Some? && forall st :: st in c.policy.value ==> EmptyOrWhole(st)
    else
      && (exists ag :: Configured(c, settings, ag))
      && c.resourceArn.Some? && AsList(c.resourceArn.value) != [] && c.effect != "" && c.actionGroups.Some?
      && (c.kind == Typed("s3") ==> c.bucketPrefix.Some?)
      && if c.kind == Typed("crud_lookup") then c.serviceName.Some? && exists p :: AsksForAction(c, settings, p)
         else exists p :: NamesPermission(c, settings, p)
  }

  lemma SomeOrNone<T>(xs: seq<T>)
    ensures xs != [] <==> exists x :: x in xs
  {
    if xs != [] { assert xs[0] in xs; }
  }

  lemma GeneratedIsAcceptable(c: Change, actions: seq<string>, resources: seq<string>)
    ensures var st := GeneratedStatement(c, actions, resources);
      && (Accepted([st]).Ok? <==> actions != [] && resources != [] && c.effect != "") && st != map[]
  {
    var st := GeneratedStatement(c, actions, resources);
    var xs, ys := SortedSet(actions), SortedSet(resources);
    SomeOrNone(actions);
    SomeOrNone(xs);
    SomeOrNone(resources);
    SomeOrNone(ys);
    assert st[Action] == Entries(xs) && st[Resource] == Entries(ys) && st[Effect] == Text(c.effect);
    assert NotAction !in st && NotResource !in st;
    AcceptedIff([st]);
    hide Limits, SortedSet, GeneratedStatement;
    assert forall x :: x in [st] <==> x == st;
  }

  lemma RequestedActionsIff(c: Change, settings: Settings)
    ensures var actions := RequestedActions(c, settings);
      (actions.Ok? && actions.value != []) <==>
      && c.actionGroups.Some?
      && if c.kind == Typed("crud_lookup") then c.serviceName.Some? && exists p :: AsksForAction(c, settings, p)
         else exists p :: NamesPermission(c, settings, p)
  {
    var actions := RequestedActions(c, settings);
    if actions.Ok? {
      SomeOrNone(actions.value);
      forall p ensures p in actions.value <==> AsksForAction(c, settings, p) { RequestedActionsHold(c, settings, p); }
    }
    if c.actionGroups.Some? {
      var grouped := GroupsActions(c.actionGroups.value, settings.ActionMap(TypeName(c.kind)));
      SomeOrNone(grouped);
      forall p ensures p in grouped <==> NamesPermission(c, settings, p) { GroupedIsNamed(c, settings, p); }
    }
  }

  lemma ConfiguredIff(c: Change, settings: Settings)
    ensures (exists ag :: Configured(c, settings, ag)) <==> settings.ActionMap(TypeName(c.kind)) != []
  {
    SomeOrNone(settings.ActionMap(TypeName(c.kind)));
    assert forall ag :: Configured(c, settings, ag) <==> ag in settings.ActionMap(TypeName(c.kind));
  }

  lemma RequestedArnsIff(c: Change)
    ensures var arns := RequestedArns(c);
      (arns.Ok? && arns.value != []) <==>
      c.resourceArn.Some? && AsList(c.resourceArn.value) != [] && (c.kind == Typed("s3") ==> c.bucketPrefix.Some?)
  {
  }

  /** A change is usable exactly when it yields statements and all of them are accepted. */
  lemma UsableIff(c: Change, settings: Settings)
    ensures Usable(c, settings) <==> StatementsOf(c, settings).Ok? && Accepted(StatementsOf(c, settings).value).Ok?
  {
    if c.kind.CustomIam? {
      if c.policy.Some? { AcceptedIff(c.policy.value); }
    } else {
      ConfiguredIff(c, settings);
      RequestedActionsIff(c, settings);
      RequestedArnsIff(c);
      var actions, arns := RequestedActions(c, settings), RequestedArns(c);
      if actions.Ok? && arns.Ok? { GeneratedIsAcceptable(c, actions.value, arns.value); }
      hide RequestedActions, RequestedArns, AsksForAction, NamesPermission, GeneratedStatement, Accepted;
    }
  }

  /** Once a name is met, all later ones are the same. */
  predicate OneNameFrom(primary: Option<string>, names: seq<Option<string>>, emptyCounts: bool) {
    && (Present(primary, emptyCounts) ==> forall name :: name in names ==> name == primary)
    && forall i, j :: 0 <= i < j < |names| && Present(names[i], emptyCounts) ==> names[j] == names[i]
  }

  lemma OneNameSplit(primary: Option<string>, names: seq<Option<string>>, emptyCounts: bool)
    requires names != []
    ensures var next := Primary(primary, names[0], emptyCounts);
      OneNameFrom(primary, names, emptyCounts) <==> next == names[0] && OneNameFrom(next, names[1..], emptyCounts)
  {
    var first, rest := names[0], names[1..];
    var next := Primary(primary, first, emptyCounts);
    assert forall x :: x in names <==> x == first || x in rest;
    assert forall i :: 0 <= i < |rest| ==> rest[i] == names[i + 1];
    if OneNameFrom(primary, names, emptyCounts) {
      assert names[0] in names && next == first;
      forall x | x in rest && Present(next, emptyCounts) ensures x == next {
        var i :| 0 <= i < |rest| && rest[i] == x;
        assert names[i + 1] == x;
      }
      forall i, j | 0 <= i < j < |rest| && Present(rest[i], emptyCounts) ensures rest[j] == rest[i] {
        assert names[j + 1] == names[i + 1];
      }
      assert OneNameFrom(next, rest, emptyCounts);
    }
    if next == first && OneNameFrom(next, rest, emptyCounts) {
      forall i, j | 0 <= i < j < |names| && Present(names[i], emptyCounts) ensures names[j] == names[i] {
        assert names[j] == rest[j - 1] && rest[j - 1] in rest;
        if i > 0 { assert names[i] == rest[i - 1]; }
      }
      assert OneNameFrom(primary, names, emptyCounts);
    }
  }

  function Users(changes: seq<Change>): (names: seq<Option<string>>)
    ensures |names| == |changes| && forall i :: 0 <= i < |changes| ==> names[i] == changes[i].user
  {
    seq(|changes|, i requires 0 <= i < |changes| => changes[i].user)
  }

  function Principals(changes: seq<Change>): (names: seq<Option<string>>)
    ensures |names| == |changes| && forall i :: 0 <= i < |changes| ==> names[i] == changes[i].principal
  {
    seq(|changes|, i requires 0 <= i < |changes| => changes[i].principal)
  }

  /** Gathering succeeds exactly on usable changes for one user and one principal, which are those of the last. */
  lemma {:induction false} GatherAllIff(g: Gathering, changes: seq<Change>, settings: Settings)
    ensures GatherAll(g, changes, settings).Ok? <==>
              && OneNameFrom(g.user, Users(changes), false) && OneNameFrom(g.principal, Principals(changes), true)
              && forall c :: c in changes ==> Usable(c, settings)
    ensures GatherAll(g, changes, settings).Ok? ==>
              var out := GatherAll(g, changes, settings).value;
              && out.user == (if changes == [] then g.user else changes[|changes| - 1].user)
              && out.principal == (if changes == [] then g.principal else changes[|changes| - 1].principal)
    decreases changes
  {
    if changes == [] {
    } else {
      var c, rest := changes[0], changes[1..];
      assert forall x :: x in changes <==> x == c || x in rest;
      OneNameSplit(g.user, Users(changes), false);
      OneNameSplit(g.principal, Principals(changes), true);
      assert Users(changes)[1..] == Users(rest) && Principals(changes)[1..] == Principals(rest);
      var user, principal := Primary(g.user, c.user, false), Primary(g.principal, c.principal, true);
      UsableIff(c, settings);
      hide Usable, StatementsOf, Accepted, OneNameFrom, Users, Principals;
      assert Gather(g, c, settings).Ok? <==> user == c.user && principal == c.principal && Usable(c, settings);
      if Gather(g, c, settings).Ok? { GatherAllIff(Gather(g, c, settings).value, rest, settings); }
    }
  }

  /** The statements gathered from a whole request. */
  function Gathered(changes: seq<Change>, settings: Settings): seq<Statement> {
    var g := GatherAll(NOTHING, changes, settings);
    if g.Ok? then g.value.statements else []
  }

  lemma {:induction false} AcceptedGrows(sts: seq<Statement>, st: Statement)
    requires Accepted(sts + [st]).Ok?
    ensures Accepted(sts).Ok?
    ensures Accepted(sts + [st]).value == Accepted(sts).value + if st == map[] then [] else [st]
  {
    if sts == [] {
      assert [st][1..] == [] && sts + [st] == [st];
    } else {
      assert (sts + [st])[0] == sts[0] && (sts + [st])[1..] == sts[1..] + [st];
      AcceptedGrows(sts[1..], st);
    }
  }

  /** The first change that cannot be gathered decides what is raised. */
  lemma {:induction false} GatherAllGrows(g: Gathering, changes: seq<Change>, c: Change, settings: Settings)
    ensures var before := GatherAll(g, changes, settings);
      GatherAll(g, changes + [c], settings) == if before.Ok? then Gather(before.value, c, settings) else before
    decreases changes
  {
    var all := changes + [c];
    hide StatementsOf, Accepted, Gather;
    if changes == [] {
      assert all == [c] && all[1..] == [];
    } else {
      assert all[0] == changes[0] && all[1..] == changes[1..] + [c];
      var next := Gather(g, changes[0], settings);
      if next.Ok? { GatherAllGrows(next.value, changes[1..], c, settings); }
    }
  }

  /** The change names another user or principal than the ones before it. */
  predicate NamesAnother(g: Gathering, c: Change) {
    || (g.user.Some? && g.user.value != "" && c.user != g.user)
    || (g.principal.Some? && c.principal != g.principal)
  }

  /** What a change raises that names another user or principal, or is not usable. */
  lemma TurnRaises(g: Gathering, c: Change, settings: Settings)
    ensures Gather(g, c, settings).Ok? <==> !NamesAnother(g, c) && Usable(c, settings)
    ensures NamesAnother(g, c) ==> Gather(g, c, settings) == Err(InvalidRequestParameter)
    ensures !NamesAnother(g, c) && !Usable(c, settings) ==>
              Gather(g, c, settings) == Err(
                if c.kind.CustomIam? then if c.policy.None? then KeyError else InvalidRequestParameter
                else if forall ag :: !Configured(c, settings, ag) then MissingConfigurationValue
                else if c.kind == Typed("s3") && c.resourceArn.None? then TypeError
                else if c.kind == Typed("s3") && AsList(c.resourceArn.value) != [] && c.bucketPrefix.None? then
                  AttributeError
                else if c.actionGroups.None? then TypeError
                else if c.kind == Typed("crud_lookup") && c.serviceName.None? then AttributeError
                else if c.kind != Typed("crud_lookup") && forall p :: !NamesPermission(c, settings, p) then
                  InvalidRequestParameter
                else if c.resourceArn.None? then TypeError
                else InvalidRequestParameter)
  {
    UsableIff(c, settings);
    hide Usable, Configured;
    AcceptedFailsWith(if StatementsOf(c, settings).Ok? then StatementsOf(c, settings).value else []);
    if c.kind.Typed? {
      ConfiguredIff(c, settings);
      if c.actionGroups.Some? {
        SomeOrNone(GroupsActions(c.actionGroups.value, settings.ActionMap(TypeName(c.kind))));
        forall p { GroupedIsNamed(c, settings, p); }
      }
      hide NamesPermission, Accepted, GeneratedStatement, GroupsActions, LevelsActions, BucketArns;
    }
  }

  lemma {:induction false} AcceptedFailsWith(sts: seq<Statement>)
    ensures Accepted(sts).Err? ==> Accepted(sts).error == InvalidRequestParameter
  {
    if sts == [] {
    } else {
      AcceptedFailsWith(sts[1..]);
    }
  }

  /** Statements are gathered in the order of the changes, and those of one change in theirs, without empty ones. */
  lemma GatheredInOrder(changes: seq<Change>, c: Change, settings: Settings, sts: seq<Statement>, st: Statement)
    requires GatherAll(NOTHING, changes + [c], settings).Ok?
    ensures Gathered([], settings) == []
    ensures StatementsOf(c, settings).Ok? && Accepted(StatementsOf(c, settings).value).Ok?
    ensures Gathered(changes + [c], settings) ==
              Gathered(changes, settings) + Accepted(StatementsOf(c, settings).value).value
    ensures Accepted([]) == Ok([])
    ensures Accepted(sts + [st]).Ok? ==>
              Accepted(sts).Ok? && Accepted(sts + [st]).value == Accepted(sts).value + if st == map[] then [] else [st]
  {
    GatherAllGrows(NOTHING, changes, c, settings);
    if Accepted(sts + [st]).Ok? { AcceptedGrows(sts, st); }
  }

  /** Custom statements are well formed. */
  ghost predicate CustomIsWellFormed(c: Change) {
    c.kind.CustomIam? && c.policy.Some? ==> forall st :: st in c.policy.value && st != map[] ==> WellFormed(st)
  }

  /** Custom statements exclude nothing. */
  ghost predicate CustomIsPositive(c: Change) {
    c.kind.CustomIam? && c.policy.Some? ==> forall st :: st in c.policy.value && st != map[] ==> Positive(st)
  }

  lemma GatheredIsWellFormed(changes: seq<Change>, settings: Settings)
    requires forall c :: c in changes ==> CustomIsWellFormed(c)
    ensures AllWellFormed(Gathered(changes, settings))
    ensures (forall c :: c in changes ==> CustomIsPositive(c)) ==>
              forall st :: st in Gathered(changes, settings) ==> Positive(st)
  {
    var sts := Gathered(changes, settings);
    forall st | st in sts
      ensures WellFormed(st) && ((forall c :: c in changes ==> CustomIsPositive(c)) ==> Positive(st))
    {
      GatheredMembers(NOTHING, changes, settings, st);
      var c :| c in changes && ComesFrom(st, c, settings);
      assert CustomIsWellFormed(c);
      if !c.kind.CustomIam? {
        GeneratedIsPlain(c, RequestedActions(c, settings).value, RequestedArns(c).value);
      }
    }
  }

  lemma SidIsNoTerm(st: Statement, sid: string)
    ensures Terms(st[Sid := Text(sid)]) == Terms(st)
    ensures forall action, resource :: Covers(st[Sid := Text(sid)], action, resource) <==> Covers(st, action, resource)
  {
    assert Terms(st[Sid := Text(sid)]).Keys == Terms(st).Keys;
  }

  lemma {:induction false} SidsChangeNothing(sts: seq<Statement>, sids: nat -> string, k: nat,
      terms: map<Field, Unordered>, action: string, resource: string)
    ensures Grants(WithSids(sts, sids, k), terms, action, resource) <==> Grants(sts, terms, action, resource)
  {
    if sts == [] {
    } else {
      var out := WithSids(sts, sids, k);
      SidIsNoTerm(sts[0], sids(k));
      SidsChangeNothing(sts[1..], sids, k + 1, terms, action, resource);
      assert out[1..] == WithSids(sts[1..], sids, k + 1);
      GrantsSplit(sts, terms, action, resource);
      GrantsSplit(out, terms, action, resource);
    }
  }

  lemma GrantsSplit(sts: seq<Statement>, terms: map<Field, Unordered>, action: string, resource: string)
    requires sts != []
    ensures Grants(sts, terms, action, resource) <==>
              (Terms(sts[0]) == terms && Covers(sts[0], action, resource)) || Grants(sts[1..], terms, action, resource)
  {
    hide Terms, Covers;
    assert forall st :: st in sts <==> st == sts[0] || st in sts[1..];
  }

  /** Some change of the request asks for it. */
  ghost predicate SomeoneAsks(changes: seq<Change>, settings: Settings, terms: map<Field, Unordered>, action: string,
      resource: string) {
    exists c :: c in changes && Asks(c, settings, terms, action, resource)
  }

  lemma GatheredGrantsWhatIsAsked(changes: seq<Change>, settings: Settings, terms: map<Field, Unordered>,
      action: string, resource: string)
    requires GatherAll(NOTHING, changes, settings).Ok?
    ensures Grants(Gathered(changes, settings), terms, action, resource) <==>
      SomeoneAsks(changes, settings, terms, action, resource)
  {
    var sts := Gathered(changes, settings);
    GatherAllIff(NOTHING, changes, settings);
    if Grants(sts, terms, action, resource) {
      var st :| st in sts && Terms(st) == terms && Covers(st, action, resource);
      GatheredMembers(NOTHING, changes, settings, st);
      var c :| c in changes && ComesFrom(st, c, settings);
      StatementsGrantWhatIsAsked(c, settings, terms, action, resource);
    }
    if SomeoneAsks(changes, settings, terms, action, resource) {
      var c :| c in changes && Asks(c, settings, terms, action, resource);
      assert Usable(c, settings);
      UsableIff(c, settings);
      hide Usable;
      StatementsGrantWhatIsAsked(c, settings, terms, action, resource);
      var st :| st in StatementsOf(c, settings).value && Terms(st) == terms && Covers(st, action, resource);
      assert st != map[];
      assert ComesFrom(st, c, settings);
      GatheredMembers(NOTHING, changes, settings, st);
    }
  }

  /** After a change that names a user, none names another or none at all; an empty name is no name. */
  predicate OneUser(changes: seq<Change>) {
    forall i, j :: 0 <= i < j < |changes| && changes[i].user.Some? && changes[i].user.value != "" ==>
      changes[j].user == changes[i].user
  }

  /** Likewise for principals. */
  predicate OnePrincipal(changes: seq<Change>) {
    forall i, j :: 0 <= i < j < |changes| && changes[i].principal.Some? ==>
      changes[j].principal == changes[i].principal
  }

  lemma GatheredIff(changes: seq<Change>, settings: Settings)
    ensures GatherAll(NOTHING, changes, settings).Ok? <==>
              OneUser(changes) && OnePrincipal(changes) && forall c :: c in changes ==> Usable(c, settings)
  {
    GatherAllIff(NOTHING, changes, settings);
    hide GatherAll, Usable;
    var users, principals := Users(changes), Principals(changes);
    assert forall i, j :: 0 <= i < j < |changes| ==>
      ((users[j] == users[i]) <==> (changes[j].user == changes[i].user));
    assert forall i, j :: 0 <= i < j < |changes| ==>
      ((principals[j] == principals[i]) <==> (changes[j].principal == changes[i].principal));
  }

  /** A request that can be compiled: there are changes, all usable, and they name one user and one principal, the last
      of them at the latest. */
  ghost predicate Compilable(changes: seq<Change>, settings: Settings) {
    && changes != [] && (forall c :: c in changes ==> Usable(c, settings))
    && OneUser(changes) && changes[|changes| - 1].user.Some?
    && OnePrincipal(changes) && changes[|changes| - 1].principal.Some?
  }

  /** The compiler is exact end to end. It succeeds exactly on compilable requests. The policy it then proposes covers,
      under given effect, condition and account limits, only what some change asks for; and all of it, unless custom
      statements excluded different things and were merged. */
  lemma CompiledIsExact(
      changes: seq<Change>, settings: Settings, sids: nat -> string,
      terms: map<Field, Unordered>, action: string, resource: string)
    requires forall c :: c in changes ==> CustomIsWellFormed(c)
    requires AllRegular(Gathered(changes, settings))
    ensures var compiled, sts := Compiled(changes, settings, sids), Gathered(changes, settings);
      && (compiled.Ok? <==> Compilable(changes, settings))
      && (compiled.Ok? && Grants(compiled.value, terms, action, resource) ==>
           SomeoneAsks(changes, settings, terms, action, resource))
      && (compiled.Ok? && (ExclusionsKept(sts, true) || forall c :: c in changes ==> CustomIsPositive(c)) ==>
           (SomeoneAsks(changes, settings, terms, action, resource) ==>
             Grants(compiled.value, terms, action, resource)))
  {
    GatherAllIff(NOTHING, changes, settings);
    GatheredIff(changes, settings);
    hide OneNameFrom, OneUser, OnePrincipal, Usable, GatherAll, Minimized, WithSids, Grants, ExclusionsKept, WellFormed;
    if GatherAll(NOTHING, changes, settings).Ok? {
      var sts := Gathered(changes, settings);
      GatheredIsWellFormed(changes, settings);
      MinimizedNeverGrantsMore(sts, true, terms, action, resource);
      if forall c :: c in changes ==> CustomIsPositive(c) { PositiveKeepsExclusions(sts, true); }
      if ExclusionsKept(sts, true) { MinimizedKeepsMeaning(sts, true, terms, action, resource); }
      SidsChangeNothing(Minimized(sts, true).value, sids, 0, terms, action, resource);
      GatheredGrantsWhatIsAsked(changes, settings, terms, action, resource);
    }
  }

  /** Usable changes for one user and one principal still raise if there are none, or if they name neither user nor
      principal in the end. */
  lemma MissingNamesRaise(changes: seq<Change>, settings: Settings, sids: nat -> string)
    requires forall c :: c in changes ==> Usable(c, settings) && CustomIsWellFormed(c)
    requires OneUser(changes) && OnePrincipal(changes)
    ensures var compiled := Compiled(changes, settings, sids);
      if changes == [] || changes[|changes| - 1].user.None? then compiled == Err(AttributeError)
      else if changes[|changes| - 1].principal.None? then compiled == Err(ValidationError)
      else compiled.Ok?
  {
    GatherAllIff(NOTHING, changes, settings);
    GatheredIff(changes, settings);
    hide OneNameFrom, OneUser, OnePrincipal, Usable, GatherAll;
    GatheredIsWellFormed(changes, settings);
    MergingIsAForest(Gathered(changes, settings), true);
  }

  /** An S3 change that names a bucket and no prefix raises. */
  lemma MissingPrefixRaises(c: Change, settings: Settings)
    requires c.kind == Typed("s3") && (exists ag :: Configured(c, settings, ag)) && c.bucketPrefix.None?
    requires c.resourceArn.Some? && AsList(c.resourceArn.value) != []
    ensures StatementsOf(c, settings) == Err(AttributeError)
  {
    ConfiguredIff(c, settings);
  }

  // ---- Sids ----

  lemma {:induction false} SidsAre(sts: seq<Statement>, sids: nat -> string, k: nat, i: nat)
    requires i < |sts|
    ensures var out := WithSids(sts, sids, k);
      |out| == |sts| && out[i] == if HasSome(sts[i], Sid) then sts[i] else sts[i][Sid := Text(sids(k + i))]
  {
    if |sts| > 1 {
      SidsAre(sts[1..], sids, k + 1, if i > 0 then i - 1 else 0);
    } else {
      assert WithSids(sts[1..], sids, k + 1) == [];
    }
  }

  /** Each statement with the Sid made for it. */
  ghost predicate WithNewSids(out: seq<Statement>, sts: seq<Statement>, sids: nat -> string) {
    |out| == |sts| && forall i: nat :: i < |sts| ==> Sid !in sts[i] && out[i] == sts[i][Sid := Text(sids(i))]
  }

  lemma SidsAreNew(sts: seq<Statement>, sids: nat -> string)
    requires forall st :: st in sts ==> Sid !in st
    ensures WithNewSids(WithSids(sts, sids, 0), sts, sids)
  {
    var out := WithSids(sts, sids, 0);
    forall i: nat | i < |sts| ensures |out| == |sts| && Sid !in sts[i] && out[i] == sts[i][Sid := Text(sids(i))] {
      SidsAre(sts, sids, 0, i);
      assert sts[i] in sts;
    }
  }

  /** Every statement of the proposed policy has a Sid made for it, and nothing else added: Sids that came with custom
      statements are dropped. */
  lemma CompiledHasNewSids(changes: seq<Change>, settings: Settings, sids: nat -> string)
    requires Compiled(changes, settings, sids).Ok?
    ensures var minimized := Minimized(Gathered(changes, settings), true);
      minimized.Ok? && WithNewSids(Compiled(changes, settings, sids).value, minimized.value, sids)
  {
    hide Minimized, WithSids, GatherAll, WithNewSids;
    NoSidsLeft(Gathered(changes, settings));
    SidsAreNew(Minimized(Gathered(changes, settings), true).value, sids);
  }

  // ---- The condition on patterns in the caller's terms ----

  /** Every pattern the change brings along or names consists of literals and single stars. */
  ghost predicate PlainChange(c: Change, settings: Settings) {
    if c.kind.CustomIam? then c.policy.Some? ==> AllPlain(c.policy.value)
    else
      && (forall p :: AsksForAction(c, settings, p) ==> PlainPattern(p))
      && (c.resourceArn.Some? ==> forall arn :: arn in AsList(c.resourceArn.value) ==> PlainPattern(arn))
      && (c.bucketPrefix.Some? ==> PlainPattern(c.bucketPrefix.value))
  }

  ghost predicate AllPlain(sts: seq<Statement>) {
    forall st, e, p :: st in sts && e in st && IsElement(e) && p in AsList(st[e]) ==> PlainPattern(p)
  }

  lemma PlainTogether(a: string, b: string)
    requires PlainPattern(a) && PlainPattern(b)
    requires a != "" && b != "" ==> a[|a| - 1] != '*' || b[0] != '*'
    ensures PlainPattern(a + b)
  {
    var ab := a + b;
    forall i | 0 <= i < |ab| - 1 ensures !(ab[i] == '*' && ab[i + 1] == '*') {
      if i + 1 >= |a| && i >= |a| { assert ab[i] == b[i - |a|] && ab[i + 1] == b[i + 1 - |a|]; }
    }
  }

  lemma PlainResources(c: Change, settings: Settings, p: string)
    requires !c.kind.CustomIam? && PlainChange(c, settings) && AsksForResource(c, p)
    ensures PlainPattern(p)
  {
    if c.kind.IsS3() {
      var prefix := c.bucketPrefix.value;
      var arn, full :| arn in AsList(c.resourceArn.value) && IsBucketArn(full, arn) &&
        (p == full || IsUnder(p, full, prefix));
      hide *;
      PlainBucket(full, arn);
      if p != full { PlainUnder(p, full, prefix); }
    }
  }

  lemma PlainBucket(full: string, arn: string)
    requires PlainPattern(arn) && IsBucketArn(full, arn)
    ensures PlainPattern(full)
  {
    PlainTogether("arn:aws:s3:::", arn);
  }

  lemma PlainUnder(p: string, full: string, prefix: string)
    requires PlainPattern(full) && PlainPattern(prefix) && IsUnder(p, full, prefix)
    ensures PlainPattern(p)
  {
    if prefix != "" && prefix[0] == '/' {
      PlainTogether(full, prefix);
    } else {
      PlainTogether(full, "/");
      PlainTogether(full + "/", prefix);
    }
  }

  lemma PlainStatement(st: Statement, c: Change, settings: Settings)
    requires PlainChange(c, settings) && ComesFrom(st, c, settings)
    ensures AllPlain([st])
  {
    if !c.kind.CustomIam? {
      var actions, arns := RequestedActions(c, settings).value, RequestedArns(c).value;
      assert st == GeneratedStatement(c, actions, arns);
      forall p | p in actions ensures PlainPattern(p) { RequestedActionsHold(c, settings, p); }
      forall p | p in arns ensures PlainPattern(p) {
        RequestedArnsHold(c, p);
        PlainResources(c, settings, p);
      }
      assert st[Action] == Entries(SortedSet(actions)) && st[Resource] == Entries(SortedSet(arns));
      forall e, p | e in st && IsElement(e) && p in AsList(st[e]) ensures PlainPattern(p) {
        assert e == Action || e == Resource;
      }
    } else {
      assert forall x :: x in [st] ==> x in c.policy.value;
    }
  }

  /** A plain request is regular, whatever the compiler makes of it on the way. */
  lemma PlainRequestIsRegular(changes: seq<Change>, settings: Settings)
    requires forall c :: c in changes ==> PlainChange(c, settings)
    ensures AllRegular(Gathered(changes, settings))
  {
    var sts := Gathered(changes, settings);
    forall st, e, p | st in sts && e in st && IsElement(e) && p in AsList(st[e]) ensures PlainPattern(p) {
      GatheredMembers(NOTHING, changes, settings, st);
      var c :| c in changes && ComesFrom(st, c, settings);
      PlainStatement(st, c, settings);
      assert st in [st];
    }
    PlainPatternsAreRegular(sts);
  }

  /** Exactness with every condition one on the request itself: on changes written with literals and single stars,
      whose custom statements are well formed and exclude nothing, the compiler succeeds exactly if the request is
      compilable, and its policy then covers exactly what some change asks for. */
  lemma CompiledFromPlainIsExact(
      changes: seq<Change>, settings: Settings, sids: nat -> string,
      terms: map<Field, Unordered>, action: string, resource: string)
    requires forall c :: c in changes ==> CustomIsWellFormed(c) && CustomIsPositive(c) && PlainChange(c, settings)
    ensures var compiled := Compiled(changes, settings, sids);
      && (compiled.Ok? <==> Compilable(changes, settings))
      && (compiled.Ok? ==>
           (Grants(compiled.value, terms, action, resource) <==>
            SomeoneAsks(changes, settings, terms, action, resource)))
  {
    PlainRequestIsRegular(changes, settings);
    CompiledIsExact(changes, settings, sids, terms, action, resource);
  }
}
