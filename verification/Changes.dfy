/** The change compiler as a function: from self-service change generators to the statements of one policy. */
module Changes {
  import opened Globs
  import opened Minimization
  import opened Outcomes
  import opened Statements
  import opened Strings

  /** Custom statements, or a generator known by the name of its type. */
  datatype Kind = CustomIam | Typed(name: string) {
    predicate IsS3() { this == Typed("s3") }
    predicate IsCrud() { this == Typed("crud_lookup") }
  }

  /** A change generator, with the statements under its policy's `Statement`. A condition is already formatted. Where
      only truth is asked, nothing is the empty value: extra actions, effect, condition and account lists. */
  datatype Change = Change(
    kind: Kind, user: Option<string>, principal: Option<string>,
    resourceArn: Option<Value>, bucketPrefix: Option<string>,
    actionGroups: Option<seq<string>>, extraActions: seq<string>, serviceName: Option<string>,
    effect: string, condition: string,
    includeAccounts: seq<string>, excludeAccounts: seq<string>,
    policy: Option<seq<Statement>>)

  datatype ActionGroup = ActionGroup(name: string, permissions: seq<string>)

  /** `self_service_iam.permissions_map.<type>.action_map`, and policy_sentry's table of actions by access level. */
  datatype Settings = Settings(actionMaps: map<string, seq<ActionGroup>>, sentry: map<(string, string), seq<string>>) {
    function ActionMap(generatorType: string): seq<ActionGroup> {
      if generatorType in actionMaps then actionMaps[generatorType] else []
    }

    function ActionsWithAccessLevel(service: string, level: string): seq<string> {
      if (service, level) in sentry then sentry[(service, level)] else []
    }
  }

  const S3_PREFIX := "arn:aws:s3:::"

  /** The actions one group name stands for. */
  function GroupActions(group: string, actionMap: seq<ActionGroup>): seq<string> {
    if actionMap == [] then []
    else (if actionMap[0].name == group then actionMap[0].permissions else []) + GroupActions(group, actionMap[1..])
  }

  function GroupsActions(groups: seq<string>, actionMap: seq<ActionGroup>): seq<string> {
    if groups == [] then [] else GroupActions(groups[0], actionMap) + GroupsActions(groups[1..], actionMap)
  }

  function LevelsActions(service: string, levels: seq<string>, settings: Settings): seq<string> {
    if levels == [] then []
    else settings.ActionsWithAccessLevel(service, levels[0]) + LevelsActions(service, levels[1..], settings)
  }

  function BucketArn(arn: string): string {
    if S3_PREFIX <= arn then arn else S3_PREFIX + arn
  }

  function SlashPrefix(prefix: string): string {
    if "/" <= prefix then prefix else "/" + prefix
  }

  function BucketArns(arns: seq<string>, prefix: string): seq<string> {
    if arns == [] then []
    else [BucketArn(arns[0]), BucketArn(arns[0]) + SlashPrefix(prefix)] + BucketArns(arns[1..], prefix)
  }

  /** The condition and the account limits, where there are any. */
  function Limits(c: Change): (limits: Statement)
    ensures forall k :: k in limits ==> k.Other?
  {
    (if c.condition != "" then map[Other("Condition") := Text(c.condition)] else map[])
    + (if c.includeAccounts != [] then map[Other("IncludeAccounts") := Entries(c.includeAccounts)] else map[])
    + (if c.excludeAccounts != [] then map[Other("ExcludeAccounts") := Entries(c.excludeAccounts)] else map[])
  }

  /** `_generate_policy_statement` and the account limits. `list(set(xs))` is taken in sorted order: what the
      order is makes no difference after normalisation. */
  function GeneratedStatement(c: Change, actions: seq<string>, resources: seq<string>): Statement {
    map[Action := Entries(SortedSet(actions)), Effect := Text(c.effect), Resource := Entries(SortedSet(resources))]
    + Limits(c)
  }

  function TypeName(k: Kind): string {
    if k.CustomIam? then "custom_iam" else k.name
  }

  /** The actions a generator asks for, group by group, then the extra ones. */
  function RequestedActions(c: Change, settings: Settings): Result<seq<string>> {
    if c.actionGroups.None? then Err(TypeError)
    else
      var grouped := GroupsActions(c.actionGroups.value, settings.ActionMap(TypeName(c.kind)));
      if c.kind.IsCrud() then
        if c.serviceName.None? then Err(AttributeError)
        else Ok(LevelsActions(c.serviceName.value, grouped, settings) + c.extraActions)
      else if grouped == [] then Err(InvalidRequestParameter)
      else Ok(grouped + c.extraActions)
  }

  /** Every bucket twice, the second time with the prefix, which is looked at once there is a bucket. */
  function BucketResources(arns: seq<string>, prefix: Option<string>): Result<seq<string>> {
    if arns == [] then Ok([])
    else if prefix.None? then Err(AttributeError)
    else Ok(BucketArns(arns, prefix.value))
  }

  function RequestedArns(c: Change): Result<seq<string>> {
    if c.resourceArn.None? then Err(TypeError)
    else if c.kind.IsS3() then BucketResources(AsList(c.resourceArn.value), c.bucketPrefix)
    else Ok(AsList(c.resourceArn.value))
  }

  /** The statements of one change. An S3 generator reads its ARNs first, the others their actions. */
  function StatementsOf(c: Change, settings: Settings): Result<seq<Statement>> {
    if c.kind.CustomIam? then if c.policy.Some? then Ok(c.policy.value) else Err(KeyError)
    else if settings.ActionMap(TypeName(c.kind)) == [] then Err(MissingConfigurationValue)
    else if c.kind.IsS3() then
      var arns :- RequestedArns(c);
      var actions :- RequestedActions(c, settings);
      Ok([GeneratedStatement(c, actions, arns)])
    else
      var actions :- RequestedActions(c, settings);
      var arns :- RequestedArns(c);
      Ok([GeneratedStatement(c, actions, arns)])
  }

  /** The check every statement passes: Action or NotAction, Resource or NotResource, and an Effect. */
  predicate Acceptable(st: Statement) {
    && (Truthy(st, Action) || Truthy(st, NotAction))
    && (Truthy(st, Resource) || Truthy(st, NotResource))
    && Truthy(st, Effect)
  }

  /** Empty statements are passed over, unacceptable ones are an error. */
  function Accepted(sts: seq<Statement>): Result<seq<Statement>> {
    if sts == [] then Ok([])
    else if sts[0] == map[] then Accepted(sts[1..])
    else if !Acceptable(sts[0]) then Err(InvalidRequestParameter)
    else
      var rest :- Accepted(sts[1..]);
      Ok([sts[0]] + rest)
  }

  datatype Gathering = Gathering(user: Option<string>, principal: Option<string>, statements: seq<Statement>)

  /** Does a name count as one? An empty user does not; a principal, being an object, always does. */
  predicate Present(name: Option<string>, emptyCounts: bool) {
    name.Some? && (emptyCounts || name.value != "")
  }

  /** The name all are held to, once one is met. */
  function Primary(primary: Option<string>, name: Option<string>, emptyCounts: bool): Option<string> {
    if Present(primary, emptyCounts) then primary else name
  }

  /** One turn of the loop over the changes: one user and one principal per request. */
  function Gather(g: Gathering, c: Change, settings: Settings): Result<Gathering> {
    var user, principal := Primary(g.user, c.user, false), Primary(g.principal, c.principal, true);
    if user != c.user || principal != c.principal then Err(InvalidRequestParameter)
    else
      var sts :- StatementsOf(c, settings);
      var accepted :- Accepted(sts);
      Ok(Gathering(user, principal, g.statements + accepted))
  }

  function GatherAll(g: Gathering, changes: seq<Change>, settings: Settings): Result<Gathering>
    decreases changes
  {
    if changes == [] then Ok(g)
    else
      var next :- Gather(g, changes[0], settings);
      GatherAll(next, changes[1..], settings)
  }

  /** Every statement without a Sid is given the next one of `sids`. */
  function WithSids(sts: seq<Statement>, sids: nat -> string, k: nat): seq<Statement> {
    if sts == [] then []
    else [if Truthy(sts[0], Sid) then sts[0] else sts[0][Sid := Text(sids(k))]] + WithSids(sts[1..], sids, k + 1)
  }

  const NOTHING := Gathering(None, None, [])

  /** What follows the loop: names are made from the user, and the proposed change needs a principal. */
  function Proposed(g: Gathering, sids: nat -> string): Result<seq<Statement>> {
    var minimized :- Minimized(g.statements, true);
    if g.user.None? then Err(AttributeError)
    else if g.principal.None? then Err(ValidationError)
    else Ok(WithSids(minimized, sids, 0))
  }

  /** `generate_change_model_array`: the statements of the policy it proposes. */
  function Compiled(changes: seq<Change>, settings: Settings, sids: nat -> string): Result<seq<Statement>> {
    var g :- GatherAll(NOTHING, changes, settings);
    Proposed(g, sids)
  }

  // ---- What a change asks for, said without the code's lists and helpers ----

  /** The group of actions is configured for the type of the change. */
  ghost predicate Configured(c: Change, settings: Settings, ag: ActionGroup) {
    var name := match c.kind case CustomIam => "custom_iam" case Typed(name) => name;
    name in settings.actionMaps && ag in settings.actionMaps[name]
  }

  /** `p` is a permission of a configured group the change names. */
  ghost predicate NamesPermission(c: Change, settings: Settings, p: string) {
    c.actionGroups.Some? &&
    exists ag :: Configured(c, settings, ag) && ag.name in c.actionGroups.value && p in ag.permissions
  }

  /** `p` is an action of the service at the access level. */
  ghost predicate HasLevel(settings: Settings, service: string, level: string, p: string) {
    (service, level) in settings.sentry && p in settings.sentry[(service, level)]
  }

  /** `p` is an action pattern the change asks for. */
  ghost predicate AsksForAction(c: Change, settings: Settings, p: string) {
    p in c.extraActions ||
    if c.kind == Typed("crud_lookup") then
      c.serviceName.Some? &&
      exists level :: NamesPermission(c, settings, level) && HasLevel(settings, c.serviceName.value, level, p)
    else NamesPermission(c, settings, p)
  }

  /** `full` is the ARN of the bucket given as `arn`: the text itself if it is an ARN, else that text made one. */
  ghost predicate IsBucketArn(full: string, arn: string) {
    "arn:aws:s3:::" <= full && (arn == full || (full == "arn:aws:s3:::" + arn && !("arn:aws:s3:::" <= arn)))
  }

  /** `p` is what lies under the prefix: the ARN, and after one slash the prefix. */
  ghost predicate IsUnder(p: string, full: string, prefix: string) {
    if prefix != "" && prefix[0] == '/' then p == full + prefix else p == full + "/" + prefix
  }

  /** `p` is a resource pattern the change asks for: for S3, the bucket's ARN or what lies under the prefix. */
  ghost predicate AsksForResource(c: Change, p: string) {
    c.resourceArn.Some? &&
    if c.kind == Typed("s3") then
      c.bucketPrefix.Some? &&
      exists arn, full :: arn in AsList(c.resourceArn.value) && IsBucketArn(full, arn) &&
        (p == full || IsUnder(p, full, c.bucketPrefix.value))
    else p in AsList(c.resourceArn.value)
  }

  /** The terms a change states: its effect; its condition, if any; the accounts it includes and excludes, if any. */
  ghost predicate StatesTerms(c: Change, terms: map<Field, Unordered>) {
    && Effect in terms && terms[Effect] == Scalar(c.effect)
    && (Other("Condition") in terms <==> c.condition != "")
    && (Other("Condition") in terms ==> terms[Other("Condition")] == Scalar(c.condition))
    && (Other("IncludeAccounts") in terms <==> c.includeAccounts != [])
    && (Other("IncludeAccounts") in terms ==>
      terms[Other("IncludeAccounts")] == Members(set x | x in c.includeAccounts))
    && (Other("ExcludeAccounts") in terms <==> c.excludeAccounts != [])
    && (Other("ExcludeAccounts") in terms ==>
      terms[Other("ExcludeAccounts")] == Members(set x | x in c.excludeAccounts))
    && forall k :: k in terms ==> k in {Effect, Other("Condition"), Other("IncludeAccounts"), Other("ExcludeAccounts")}
  }

  /** The change asks that the request be covered under the terms. */
  ghost predicate Asks(c: Change, settings: Settings, terms: map<Field, Unordered>, action: string, resource: string) {
    if c.kind.CustomIam? then c.policy.Some? && Grants(c.policy.value, terms, action, resource)
    else
      && StatesTerms(c, terms)
      && (exists p :: AsksForAction(c, settings, p) && IamMatch(Lower(action), Lower(p)))
      && (exists p :: AsksForResource(c, p) && IamMatch(resource, p))
  }

  // ---- The lists hold what is asked for ----

  lemma {:induction false} GroupActionsHold(group: string, actionMap: seq<ActionGroup>, p: string)
    ensures p in GroupActions(group, actionMap) <==>
              exists ag :: ag in actionMap && ag.name == group && p in ag.permissions
  {
    if actionMap == [] {
    } else {
      GroupActionsHold(group, actionMap[1..], p);
      assert forall ag :: ag in actionMap <==> ag == actionMap[0] || ag in actionMap[1..];
    }
  }

  lemma {:induction false} GroupsActionsHold(groups: seq<string>, actionMap: seq<ActionGroup>, p: string)
    ensures p in GroupsActions(groups, actionMap) <==>
              exists ag :: ag in actionMap && ag.name in groups && p in ag.permissions
  {
    if groups == [] {
    } else {
      GroupActionsHold(groups[0], actionMap, p);
      GroupsActionsHold(groups[1..], actionMap, p);
      assert forall group :: group in groups <==> group == groups[0] || group in groups[1..];
    }
  }

  lemma {:induction false} LevelsActionsHold(service: string, levels: seq<string>, settings: Settings, p: string)
    ensures p in LevelsActions(service, levels, settings) <==>
              exists level :: level in levels && HasLevel(settings, service, level, p)
  {
    if levels == [] {
    } else {
      LevelsActionsHold(service, levels[1..], settings, p);
      assert p in settings.ActionsWithAccessLevel(service, levels[0]) <==> HasLevel(settings, service, levels[0], p);
      hide HasLevel;
      assert forall level :: level in levels <==> level == levels[0] || level in levels[1..];
    }
  }

  lemma BucketArnIs(arn: string, prefix: string)
    ensures forall full :: IsBucketArn(full, arn) <==> full == BucketArn(arn)
    ensures forall p :: IsUnder(p, BucketArn(arn), prefix) <==> p == BucketArn(arn) + SlashPrefix(prefix)
  {
    assert "/" <= prefix <==> prefix != "" && prefix[0] == '/';
    assert BucketArn(arn) + ("/" + prefix) == BucketArn(arn) + "/" + prefix;
  }

  /** The ARNs of an S3 change, in order: for each bucket its ARN, and then what lies under the prefix. */
  lemma {:induction false} BucketArnsAre(arns: seq<string>, prefix: string, i: nat)
    requires i < |arns|
    ensures |BucketArns(arns, prefix)| == 2 * |arns|
    ensures var out := BucketArns(arns, prefix);
      IsBucketArn(out[2 * i], arns[i]) && IsUnder(out[2 * i + 1], out[2 * i], prefix)
  {
    BucketArnIs(arns[0], prefix);
    if |arns| > 1 {
      BucketArnsAre(arns[1..], prefix, if i > 0 then i - 1 else 0);
    } else {
      assert BucketArns(arns[1..], prefix) == [];
    }
  }

  lemma {:induction false} BucketArnsHold(arns: seq<string>, prefix: string, p: string)
    ensures p in BucketArns(arns, prefix) <==>
              exists arn, full :: arn in arns && IsBucketArn(full, arn) && (p == full || IsUnder(p, full, prefix))
  {
    if arns == [] {
    } else {
      BucketArnsHold(arns[1..], prefix, p);
      BucketArnIs(arns[0], prefix);
      hide IsBucketArn, IsUnder, BucketArn, SlashPrefix;
      assert IsBucketArn(BucketArn(arns[0]), arns[0]);
      assert forall arn :: arn in arns <==> arn == arns[0] || arn in arns[1..];
    }
  }

  lemma GroupedIsNamed(c: Change, settings: Settings, p: string)
    requires c.actionGroups.Some?
    ensures p in GroupsActions(c.actionGroups.value, settings.ActionMap(TypeName(c.kind))) <==>
              NamesPermission(c, settings, p)
  {
    GroupsActionsHold(c.actionGroups.value, settings.ActionMap(TypeName(c.kind)), p);
    assert forall ag :: Configured(c, settings, ag) <==> ag in settings.ActionMap(TypeName(c.kind));
  }

  lemma RequestedActionsHold(c: Change, settings: Settings, p: string)
    requires RequestedActions(c, settings).Ok?
    ensures p in RequestedActions(c, settings).value <==> AsksForAction(c, settings, p)
  {
    var grouped := GroupsActions(c.actionGroups.value, settings.ActionMap(TypeName(c.kind)));
    forall q ensures q in grouped <==> NamesPermission(c, settings, q) { GroupedIsNamed(c, settings, q); }
    if c.kind.IsCrud() { LevelsActionsHold(c.serviceName.value, grouped, settings, p); }
  }

  lemma RequestedArnsHold(c: Change, p: string)
    requires RequestedArns(c).Ok?
    ensures p in RequestedArns(c).value <==> AsksForResource(c, p)
  {
    if c.kind.IsS3() && c.bucketPrefix.Some? {
      BucketArnsHold(AsList(c.resourceArn.value), c.bucketPrefix.value, p);
    }
  }

  /** A bucket given by its bare name, and a prefix without a slash: the bucket and the folder are asked for, and
      nothing else. */
  lemma BareBucketAndPrefix(c: Change, p: string)
    requires c.kind == Typed("s3") && c.bucketPrefix == Some("team/*") && c.resourceArn == Some(Text("data"))
    ensures RequestedArns(c) == Ok(["arn:aws:s3:::data", "arn:aws:s3:::data/team/*"])
    ensures AsksForResource(c, p) <==> p == "arn:aws:s3:::data" || p == "arn:aws:s3:::data/team/*"
  {
    BareBucketArns();
    RequestedArnsHold(c, p);
  }

  lemma BareBucketArns()
    ensures BucketArns(["data"], "team/*") == ["arn:aws:s3:::data", "arn:aws:s3:::data/team/*"]
  {
    assert "data"[0] != S3_PREFIX[0] && "team/*"[0] != "/"[0];
    assert S3_PREFIX + "data" == "arn:aws:s3:::data" && "/" + "team/*" == "/team/*";
    assert "arn:aws:s3:::data" + "/team/*" == "arn:aws:s3:::data/team/*";
    assert ["data"][1..] == [] && BucketArns([], "team/*") == [];
  }
}
