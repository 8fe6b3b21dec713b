/** The change compiler as the code runs it: loops that append to lists and settle generators in place. */
module ChangeCompiler {
  import opened Changes
  import opened ChangesMeaning
  import opened Minimization
  import opened Minimizer
  import opened Outcomes
  import opened Statements
  import opened Strings

  function Listed(arn: Option<Value>): Option<Value> {
    if arn.Some? then Some(Entries(AsList(arn.value))) else None
  }

  function Slashed(prefix: Option<string>): Option<string> {
    if prefix.Some? then Some(SlashPrefix(prefix.value)) else None
  }

  /** A change whose ARNs are listed and whose S3 prefix starts with a slash. */
  function Settled(c: Change): Change {
    c.(resourceArn := Listed(c.resourceArn),
       bucketPrefix := if c.kind.IsS3() then Slashed(c.bucketPrefix) else c.bucketPrefix)
  }

  /** How a generator is left once its statement is asked for. The prefix gets its slash in the loop over the ARNs;
      access levels are looked up before the ARN is listed. */
  function Generated(c: Change, settings: Settings): Change {
    if c.kind.CustomIam? || settings.ActionMap(TypeName(c.kind)) == [] then c
    else if c.kind.IsCrud() && (c.actionGroups.None? || c.serviceName.None?) then c
    else
      c.(resourceArn := Listed(c.resourceArn),
         bucketPrefix := if c.kind.IsS3() && c.resourceArn.Some? && AsList(c.resourceArn.value) != []
                         then Slashed(c.bucketPrefix) else c.bucketPrefix)
  }

  /** A statement is accepted before any is refused. */
  predicate TakesAny(sts: seq<Statement>) {
    sts != [] && if sts[0] == map[] then TakesAny(sts[1..]) else Acceptable(sts[0])
  }

  /** With a statement accepted, the ARN is listed where there is one. */
  function Taken(arn: Option<Value>, sts: seq<Statement>): Option<Value> {
    if TakesAny(sts) && arn != Some(Text("")) then Listed(arn) else arn
  }

  /** How a generator is left in the end. */
  function LeftBehind(c: Change, settings: Settings): Change {
    var generated, sts := Generated(c, settings), StatementsOf(c, settings);
    if sts.Ok? then generated.(resourceArn := Taken(generated.resourceArn, sts.value)) else generated
  }

  lemma LeftBehindTwice(c: Change, settings: Settings)
    ensures Settled(LeftBehind(c, settings)) == Settled(c)
    ensures StatementsOf(LeftBehind(c, settings), settings) == StatementsOf(c, settings)
    ensures LeftBehind(LeftBehind(c, settings), settings) == LeftBehind(c, settings)
  {
    SettledAsksTheSame(c, settings);
    SettledAsksTheSame(LeftBehind(c, settings), settings);
    hide StatementsOf;
  }

  lemma {:induction false} SlashedArns(arns: seq<string>, prefix: string)
    ensures BucketArns(arns, SlashPrefix(prefix)) == BucketArns(arns, prefix)
  {
    if arns == [] {
    } else {
      SlashedArns(arns[1..], prefix);
    }
  }

  /** Settling changes neither what a change asks for nor what is settled. */
  lemma SettledAsksTheSame(c: Change, settings: Settings)
    ensures StatementsOf(Settled(c), settings) == StatementsOf(c, settings)
    ensures Settled(Settled(c)) == Settled(c)
  {
    if c.kind.IsS3() && c.resourceArn.Some? && c.bucketPrefix.Some? {
      SlashedArns(AsList(c.resourceArn.value), c.bucketPrefix.value);
    }
  }

  /** A change that was accepted is left with its ARN, if it names one that is not empty, as a list, and for S3 with a
      prefix that starts with a slash; whatever else it has is untouched. */
  lemma LeftBehindIs(c: Change, settings: Settings)
    requires Usable(c, settings) && (c.kind.CustomIam? ==> exists st :: st in c.policy.value && st != map[])
    ensures var left := LeftBehind(c, settings);
      && left.(resourceArn := c.resourceArn, bucketPrefix := c.bucketPrefix) == c
      && left.resourceArn == (match c.resourceArn
                              case Some(Text(arn)) => if arn == "" && c.kind.CustomIam? then c.resourceArn
                                                      else Some(Entries([arn]))
                              case other => other)
      && if c.kind == Typed("s3") then
           left.bucketPrefix.Some? && IsUnder(left.bucketPrefix.value, "", c.bucketPrefix.value)
         else left.bucketPrefix == c.bucketPrefix
  {
    UsableIff(c, settings);
    ConfiguredIff(c, settings);
    if c.kind.Typed? {
      hide Configured, Usable;
      OneStatementIsTaken(c, settings);
      if c.bucketPrefix.Some? { SlashedIs(c.bucketPrefix.value); }
      hide StatementsOf, TakesAny, AsksForAction, NamesPermission, IsUnder;
    } else {
      SomethingIsTaken(StatementsOf(c, settings).value);
      hide TakesAny, Accepted;
    }
  }

  lemma OneStatementIsTaken(c: Change, settings: Settings)
    requires c.kind.Typed? && StatementsOf(c, settings).Ok? && Accepted(StatementsOf(c, settings).value).Ok?
    ensures TakesAny(StatementsOf(c, settings).value)
  {
    var st := StatementsOf(c, settings).value[0];
    GeneratedIsAcceptable(c, RequestedActions(c, settings).value, RequestedArns(c).value);
    assert StatementsOf(c, settings).value == [st];
    hide Accepted, GeneratedStatement;
    SomethingIsTaken([st]);
    assert st in [st];
  }

  lemma SlashedIs(prefix: string)
    ensures IsUnder(SlashPrefix(prefix), "", prefix)
  {
    assert "/" <= prefix <==> prefix != "" && prefix[0] == '/';
    assert "" + prefix == prefix && "" + "/" + prefix == "/" + prefix;
  }

  lemma {:induction false} SomethingIsTaken(sts: seq<Statement>)
    requires Accepted(sts).Ok?
    ensures TakesAny(sts) <==> exists st :: st in sts && st != map[]
  {
    if sts == [] {
    } else {
      assert sts[0] in sts && forall st :: st in sts <==> st == sts[0] || st in sts[1..];
      if sts[0] == map[] { SomethingIsTaken(sts[1..]); } else { assert Acceptable(sts[0]); }
    }
  }

  lemma LeftBehindGathersTheSame(g: Gathering, c: Change, settings: Settings)
    ensures Gather(g, LeftBehind(c, settings), settings) == Gather(g, c, settings)
  {
    LeftBehindTwice(c, settings);
    hide StatementsOf, Accepted, Taken;
  }

  /** A generator met again yields what it yielded, and is left as it was. */
  lemma LeftBehindAgain(g: Gathering, now: Change, before: Change, settings: Settings)
    requires now in {before, LeftBehind(before, settings)}
    ensures Gather(g, now, settings) == Gather(g, before, settings)
    ensures LeftBehind(now, settings) == LeftBehind(before, settings)
  {
    LeftBehindTwice(before, settings);
    LeftBehindGathersTheSame(g, before, settings);
  }

  lemma WholeAndEmpty<T>(xs: seq<T>)
    ensures xs[0..] == xs && xs[|xs|..] == []
  {
  }

  lemma Regroup<T>(a: seq<T>, b: seq<T>, c: seq<T>)
    ensures (a + b) + c == a + (b + c)
  {
  }

  /** The permissions of every group named, in the order of the names. */
  method CollectGroupActions(groups: seq<string>, actionMap: seq<ActionGroup>) returns (actions: seq<string>)
    ensures actions == GroupsActions(groups, actionMap)
  {
    actions := [];
    WholeAndEmpty(groups);
    WholeAndEmpty(actionMap);
    for i := 0 to |groups|
      invariant actions + GroupsActions(groups[i..], actionMap) == GroupsActions(groups, actionMap)
    {
      ghost var before := actions;
      for j := 0 to |actionMap|
        invariant actions + GroupActions(groups[i], actionMap[j..]) == before + GroupActions(groups[i], actionMap)
      {
        assert actionMap[j..][0] == actionMap[j] && actionMap[j..][1..] == actionMap[j + 1..];
        if actionMap[j].name == groups[i] { actions := actions + actionMap[j].permissions; }
      }
      assert actions == before + GroupActions(groups[i], actionMap);
      Regroup(before, GroupActions(groups[i], actionMap), GroupsActions(groups[i + 1..], actionMap));
      assert groups[i..][0] == groups[i] && groups[i..][1..] == groups[i + 1..];
    }
  }

  /** `_get_actions_from_groups`. */
  method GetActionsFromGroups(groups: seq<string>, actionMap: seq<ActionGroup>) returns (r: Result<seq<string>>)
    ensures var actions := GroupsActions(groups, actionMap);
      r == if actions == [] then Err(InvalidRequestParameter) else Ok(actions)
  {
    var actions := CollectGroupActions(groups, actionMap);
    return if actions == [] then Err(InvalidRequestParameter) else Ok(actions);
  }

  /** `_get_policy_sentry_access_level_actions`. */
  method GetAccessLevelActions(service: string, levels: seq<string>, settings: Settings) returns (actions: seq<string>)
    ensures actions == LevelsActions(service, levels, settings)
  {
    actions := [];
    WholeAndEmpty(levels);
    for i := 0 to |levels|
      invariant actions + LevelsActions(service, levels[i..], settings) == LevelsActions(service, levels, settings)
    {
      assert levels[i..][0] == levels[i] && levels[i..][1..] == levels[i + 1..];
      actions := actions + settings.ActionsWithAccessLevel(service, levels[i]);
    }
  }

  function Prepended<T>(xs: seq<T>, r: Result<seq<T>>): Result<seq<T>> {
    if r.Ok? then Ok(xs + r.value) else r
  }

  class ChangeGenerator {
    const request: Change
    var resourceArn: Option<Value>
    var bucketPrefix: Option<string>

    constructor (change: Change)
      ensures View() == change
    {
      request, resourceArn, bucketPrefix := change, change.resourceArn, change.bucketPrefix;
    }

    /** The change as it stands. */
    function View(): Change
      reads this
    {
      request.(resourceArn := resourceArn, bucketPrefix := bucketPrefix)
    }

    /** A single ARN is made a list of one. */
    method ListResourceArn()
      modifies `resourceArn
      ensures resourceArn == Listed(old(resourceArn))
      ensures match old(resourceArn)
              case Some(Text(arn)) => resourceArn == Some(Entries([arn]))
              case other => resourceArn == other
    {
      if resourceArn.Some? && resourceArn.value.Text? {
        resourceArn := Some(Entries([resourceArn.value.text]));
      }
    }

    /** The loop over the bucket ARNs, which also gives the prefix its slash. */
    method BucketArnLoop(arns: seq<string>) returns (r: Result<seq<string>>)
      modifies `bucketPrefix
      ensures r == BucketResources(arns, old(bucketPrefix))
      ensures bucketPrefix == if arns == [] then old(bucketPrefix) else Slashed(old(bucketPrefix))
      ensures r.Err? <==> arns != [] && old(bucketPrefix).None?
      ensures r.Ok? ==>
                |r.value| == 2 * |arns| &&
                forall i :: 0 <= i < |arns| ==>
                  IsBucketArn(r.value[2 * i], arns[i])
                  && IsUnder(r.value[2 * i + 1], r.value[2 * i], old(bucketPrefix).value)
    {
      ghost var prefix := if bucketPrefix.Some? then bucketPrefix.value else "";
      var resourceArns: seq<string> := [];
      WholeAndEmpty(arns);
      for i := 0 to |arns|
        invariant i > 0 ==> old(bucketPrefix).Some?
        invariant resourceArns + BucketArns(arns[i..], prefix) == BucketArns(arns, prefix)
        invariant bucketPrefix == if i == 0 then old(bucketPrefix) else Some(SlashPrefix(prefix))
      {
        var arn := arns[i];
        if !(S3_PREFIX <= arn) { arn := S3_PREFIX + arn; }
        if bucketPrefix.None? { return Err(AttributeError); }
        if !("/" <= bucketPrefix.value) { bucketPrefix := Some("/" + bucketPrefix.value); }
        assert arn == BucketArn(arns[i]) && bucketPrefix == Some(SlashPrefix(prefix));
        assert arns[i..][0] == arns[i] && arns[i..][1..] == arns[i + 1..];
        Regroup(resourceArns, [arn, arn + bucketPrefix.value], BucketArns(arns[i + 1..], prefix));
        resourceArns := resourceArns + [arn, arn + bucketPrefix.value];
      }
      assert resourceArns + [] == resourceArns;
      if arns != [] { BucketArnsAre(arns, prefix, 0); }
      forall i: nat | i < |arns|
        ensures IsBucketArn(BucketArns(arns, prefix)[2 * i], arns[i])
        ensures IsUnder(BucketArns(arns, prefix)[2 * i + 1], BucketArns(arns, prefix)[2 * i], prefix)
      {
        BucketArnsAre(arns, prefix, i);
      }
      return Ok(resourceArns);
    }

    /** `_generate_s3_inline_policy_statement_from_mapping`. */
    method GenerateS3Statement(settings: Settings) returns (r: Result<Statement>)
      requires request.kind.IsS3()
      modifies this
      ensures View() == Generated(old(View()), settings)
      ensures StatementsOf(old(View()), settings) == if r.Ok? then Ok([r.value]) else Err(r.error)
      ensures r.Ok? ==> Resource in r.value
      ensures r.Ok? ==> forall p :: p in AsList(r.value[Resource]) <==> AsksForResource(old(View()), p)
    {
      ghost var before := View();
      var actionMap := settings.ActionMap("s3");
      if actionMap == [] { return Err(MissingConfigurationValue); }
      ListResourceArn();
      if resourceArn.None? { return Err(TypeError); }
      var arns :- BucketArnLoop(AsList(resourceArn.value));
      if request.actionGroups.None? { return Err(TypeError); }
      var actions :- GetActionsFromGroups(request.actionGroups.value, actionMap);
      r := Ok(GeneratedStatement(request, actions + request.extraActions, arns));
      assert RequestedArns(before) == Ok(arns);
      forall p ensures p in arns <==> AsksForResource(before, p) { RequestedArnsHold(before, p); }
      hide AsksForResource, Generated;
      assert r.value[Resource] == Entries(SortedSet(arns));
    }

    /** `_generate_inline_policy_statement_from_mapping`. */
    method GenerateMappedStatement(settings: Settings) returns (r: Result<Statement>)
      requires request.kind.Typed? && !request.kind.IsS3() && !request.kind.IsCrud()
      modifies this
      ensures View() == Generated(old(View()), settings)
      ensures StatementsOf(old(View()), settings) == if r.Ok? then Ok([r.value]) else Err(r.error)
    {
      var actionMap := settings.ActionMap(request.kind.name);
      if actionMap == [] { return Err(MissingConfigurationValue); }
      ListResourceArn();
      if request.actionGroups.None? { return Err(TypeError); }
      var actions :- GetActionsFromGroups(request.actionGroups.value, actionMap);
      if resourceArn.None? { return Err(TypeError); }
      return Ok(GeneratedStatement(request, actions + request.extraActions, AsList(resourceArn.value)));
    }

    /** `_generate_inline_policy_statement_from_policy_sentry`. */
    method GenerateCrudStatement(settings: Settings) returns (r: Result<Statement>)
      requires request.kind.IsCrud()
      modifies this
      ensures View() == Generated(old(View()), settings)
      ensures StatementsOf(old(View()), settings) == if r.Ok? then Ok([r.value]) else Err(r.error)
    {
      var actionMap := settings.ActionMap("crud_lookup");
      if actionMap == [] { return Err(MissingConfigurationValue); }
      if request.actionGroups.None? { return Err(TypeError); }
      var levels := CollectGroupActions(request.actionGroups.value, actionMap);
      if request.serviceName.None? { return Err(AttributeError); }
      var actions := GetAccessLevelActions(request.serviceName.value, levels, settings);
      ListResourceArn();
      if resourceArn.None? { return Err(TypeError); }
      return Ok(GeneratedStatement(request, actions + request.extraActions, AsList(resourceArn.value)));
    }

    /** The statements of the change, by the type of its generator. */
    method GenerateStatements(settings: Settings) returns (r: Result<seq<Statement>>)
      modifies this
      ensures View() == Generated(old(View()), settings)
      ensures r == StatementsOf(old(View()), settings)
    {
      if request.kind.CustomIam? { return if request.policy.Some? then Ok(request.policy.value) else Err(KeyError); }
      var one: Result<Statement>;
      if request.kind.IsS3() {
        one := GenerateS3Statement(settings);
      } else if request.kind.IsCrud() {
        one := GenerateCrudStatement(settings);
      } else {
        one := GenerateMappedStatement(settings);
      }
      if one.Err? { return Err(one.error); }
      return Ok([one.value]);
    }

    /** The checks of the inner loop on the statements of the change; accepting one lists the ARN. */
    method AcceptStatements(sts: seq<Statement>) returns (r: Result<seq<Statement>>)
      modifies `resourceArn
      ensures r == Accepted(sts)
      ensures resourceArn == Taken(old(resourceArn), sts)
    {
      var accepted: seq<Statement> := [];
      WholeAndEmpty(sts);
      assert Accepted(sts).Ok? ==> [] + Accepted(sts).value == Accepted(sts).value;
      for i := 0 to |sts|
        invariant Prepended(accepted, Accepted(sts[i..])) == Accepted(sts)
        invariant if accepted == [] then TakesAny(sts[i..]) == TakesAny(sts) && resourceArn == old(resourceArn)
                  else TakesAny(sts) && resourceArn == Taken(old(resourceArn), sts)
      {
        var st := sts[i];
        assert sts[i..][0] == st && sts[i..][1..] == sts[i + 1..];
        if st != map[] && !Acceptable(st) { return Err(InvalidRequestParameter); }
        if st != map[] && resourceArn != Some(Text("")) { ListResourceArn(); }
        if st != map[] {
          if Accepted(sts[i + 1..]).Ok? { Regroup(accepted, [st], Accepted(sts[i + 1..]).value); }
          accepted := accepted + [st];
        }
      }
      assert accepted + [] == accepted;
      return Ok(accepted);
    }

    /** One turn of the loop over the changes. */
    method TakeTurn(g: Gathering, settings: Settings) returns (r: Result<Gathering>)
      modifies this
      ensures r == Gather(g, old(View()), settings)
      ensures View() == LeftBehind(old(View()), settings) || (r.Err? && View() == old(View()))
    {
      var user, principal := g.user, g.principal;
      if user.None? || user.value == "" { user := request.user; }
      if user != request.user { return Err(InvalidRequestParameter); }
      if principal.None? { principal := request.principal; }
      if principal != request.principal { return Err(InvalidRequestParameter); }
      hide StatementsOf, Accepted, Generated, Taken;
      var sts := GenerateStatements(settings);
      if sts.Err? { return Err(sts.error); }
      var accepted := AcceptStatements(sts.value);
      if accepted.Err? { return Err(accepted.error); }
      return Ok(Gathering(user, principal, g.statements + accepted.value));
    }
  }

  method AttachSids(sts: seq<Statement>, sids: nat -> string) returns (out: seq<Statement>)
    ensures out == WithSids(sts, sids, 0)
  {
    out := [];
    WholeAndEmpty(sts);
    for i := 0 to |sts|
      invariant out + WithSids(sts[i..], sids, i) == WithSids(sts, sids, 0)
    {
      var st := sts[i];
      assert sts[i..][0] == st && sts[i..][1..] == sts[i + 1..];
      out := out + [if Truthy(st, Sid) then st else st[Sid := Text(sids(i))]];
    }
  }

  ghost function Views(changes: seq<ChangeGenerator>): (views: seq<Change>)
    reads changes
    ensures |views| == |changes| && forall i :: 0 <= i < |changes| ==> views[i] == changes[i].View()
  {
    seq(|changes|, i requires 0 <= i < |changes| reads changes => changes[i].View())
  }

  /** `generate_change_model_array`. The same generator may stand in the list more than once. */
  method GenerateChangeModelArray(changes: seq<ChangeGenerator>, settings: Settings, sids: nat -> string)
    returns (r: Result<seq<Statement>>)
    modifies set c | c in changes
    ensures r == Compiled(old(Views(changes)), settings, sids)
    ensures forall c :: c in changes ==> c.View() in {old(c.View()), LeftBehind(old(c.View()), settings)}
    ensures r.Ok? ==> forall c :: c in changes ==> c.View() == LeftBehind(old(c.View()), settings)
  {
    hide LeftBehind, Gather, StatementsOf, Minimized, WithSids;
    ghost var views := Views(changes);
    var g := NOTHING;
    for i := 0 to |changes|
      invariant GatherAll(NOTHING, views, settings) == GatherAll(g, views[i..], settings)
      invariant forall c :: c in changes ==> c.View() in {old(c.View()), LeftBehind(old(c.View()), settings)}
      invariant forall k :: 0 <= k < i ==> changes[k].View() == LeftBehind(views[k], settings)
    {
      var change := changes[i];
      assert views[i..][0] == views[i] && views[i..][1..] == views[i + 1..];
      assert views[i] == old(change.View());
      LeftBehindAgain(g, change.View(), views[i], settings);
      var next := change.TakeTurn(g, settings);
      if next.Err? { return Err(next.error); }
      g := next.value;
    }
    r := Propose(g, sids);
  }

  /** What follows the loop. */
  method Propose(g: Gathering, sids: nat -> string) returns (r: Result<seq<Statement>>)
    ensures r == Proposed(g, sids)
  {
    var list := new Statement[|g.statements|](k requires 0 <= k < |g.statements| => g.statements[k]);
    assert list[..] == g.statements;
    var minimized :- MinimizeIamPolicyStatements(list, true);
    if g.user.None? { return Err(AttributeError); }
    var out := AttachSids(minimized, sids);
    if g.principal.None? { return Err(ValidationError); }
    return Ok(out);
  }
}
