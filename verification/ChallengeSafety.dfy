/** Safety of the challenge protocol over whole runs, read off the log of what happened. */
module ChallengeSafety {
  import opened Challenges
  import opened Outcomes

  /** Where a token stands after a log: the events that made it, showed its nonce, and last approved it. */
  datatype Trail = Unknown | Live(made: nat, seen: Option<nat>, agreed: Option<nat>) | Gone

  function Advance(past: Trail, e: Event, k: nat, token: string): Trail {
    match e
    case Generated(t, _, _, _) => if t == token then Live(k, None, None) else past
    case Visited(t, _, _, _) => if t == token && past.Live? then past.(seen := Some(k)) else past
    case Approved(t, _, _, _, _) => if t == token && past.Live? then past.(agreed := Some(k)) else past
    case Issued(t, _, _, _, _) => if t == token then Gone else past
    case Removed(ts) => if token in ts then Gone else past
  }

  function Track(log: seq<Event>, token: string): Trail {
    if log == [] then Unknown
    else Advance(Track(log[..|log| - 1], token), log[|log| - 1], |log| - 1, token)
  }

  /** The trail of `token` points at events of the right kind about `token`, in the right order. */
  ghost predicate Grounded(log: seq<Event>, token: string) {
    match Track(log, token)
    case Live(m, s, a) =>
      && m < |log| && log[m].Generated? && log[m].token == token
      && (s.Some? ==> m < s.value < |log| && log[s.value].Visited? && log[s.value].token == token)
      && (a.Some? ==> s.Some? && s.value < a.value < |log| && log[a.value].Approved? && log[a.value].token == token)
    case _ => true
  }

  /** When an event may follow a log: the conditions under which the handlers act. */
  ghost predicate Lawful(settings: Settings, log: seq<Event>, e: Event) {
    match e
    case Generated(t, _, _, _) => Track(log, t) == Unknown
    case Visited(t, user, ip, _) =>
      Grounded(log, t) &&
      (match Track(log, t)
       case Live(m, None, None) => user == log[m].user && (settings.ipMustMatch ==> ip == log[m].ip)
       case _ => false)
    case Approved(t, user, ip, presented, _) =>
      Grounded(log, t) &&
      (match Track(log, t)
       case Live(m, Some(s), _) =>
         user == log[m].user && presented == log[s].nonce && (settings.ipMustMatch ==> ip == log[m].ip)
       case _ => false)
    case Issued(t, user, groups, ip, now) =>
      Grounded(log, t) &&
      (match Track(log, t)
       case Live(m, Some(s), Some(a)) =>
         user == log[m].user && groups == log[a].groups && ip == log[m].ip && now <= log[m].ttl
       case _ => false)
    case Removed(ts) => forall t :: t in ts ==> Track(log, t).Live?
  }

  ghost predicate AllLawful(settings: Settings, log: seq<Event>) {
    forall k :: 0 <= k < |log| ==> Lawful(settings, log[..k], log[k])
  }

  /** The challenge the log says is stored. */
  ghost function Recalled(log: seq<Event>, token: string): Challenge
    requires Track(log, token).Live? && Grounded(log, token)
  {
    var Live(m, s, a) := Track(log, token);
    Challenge(log[m].ttl, log[m].ip, if a.Some? then Success else Pending, log[m].user,
              s.Some?, if s.Some? then Some(log[s.value].nonce) else None, if a.Some? then log[a.value].groups else [])
  }

  /** The hash holds exactly the live tokens, each as the log recalls it. */
  ghost predicate Agrees(w: World, token: string) {
    && Grounded(w.log, token)
    && (token in w.store <==> Track(w.log, token).Live?)
    && (token in w.store ==> w.store[token] == Recalled(w.log, token))
  }

  ghost predicate Consistent(settings: Settings, w: World) {
    AllLawful(settings, w.log) && forall token :: Agrees(w, token)
  }

  lemma AppendLawful(settings: Settings, log: seq<Event>, e: Event)
    requires AllLawful(settings, log) && Lawful(settings, log, e)
    ensures AllLawful(settings, log + [e])
  {
    var next := log + [e];
    assert next[..|log|] == log;
    forall k | 0 <= k < |next| ensures Lawful(settings, next[..k], next[k]) {
      if k < |log| { assert next[..k] == log[..k]; }
    }
  }

  lemma AppendTrack(log: seq<Event>, e: Event, token: string)
    ensures Track(log + [e], token) == Advance(Track(log, token), e, |log|, token)
  {
    assert (log + [e])[..|log|] == log;
  }

  /** An event concerns `token`. */
  predicate About(e: Event, token: string) {
    if e.Removed? then token in e.tokens else e.token == token
  }

  /** The effect of an event on the hash. */
  ghost predicate Effects(e: Event, store: Store, next: Store) {
    match e
    case Generated(t, user, ip, ttl) => next == store[t := Challenge(ttl, ip, Pending, user, false, None, [])]
    case Visited(t, _, _, nonce) => t in store && next == store[t := store[t].(visited := true, nonce := Some(nonce))]
    case Approved(t, _, _, _, groups) =>
      t in store && next == store[t := store[t].(status := Success, groups := groups)]
    case Issued(t, _, _, _, _) => next == store - {t}
    case Removed(ts) => next == store - ts
  }

  /** An event about other tokens leaves a token where it was. */
  lemma OtherTokensStay(w: World, e: Event, next: Store, token: string)
    requires Agrees(w, token) && Effects(e, w.store, next) && !About(e, token)
    ensures Agrees(World(next, w.log + [e]), token)
  {
    AppendTrack(w.log, e, token);
    assert Track(w.log + [e], token) == Track(w.log, token);
    assert token in next <==> token in w.store;
    if Track(w.log, token).Live? { assert Recalled(w.log + [e], token) == Recalled(w.log, token); }
  }

  lemma ItsTokenFollows(settings: Settings, w: World, e: Event, next: Store, token: string)
    requires Agrees(w, token) && Lawful(settings, w.log, e) && Effects(e, w.store, next) && About(e, token)
    ensures Agrees(World(next, w.log + [e]), token)
  {
    AppendTrack(w.log, e, token);
  }

  /** Doing to the hash what a lawful event says keeps the agreement of log and hash. */
  lemma EventKeeps(settings: Settings, w: World, e: Event, next: Store)
    requires Consistent(settings, w) && Lawful(settings, w.log, e) && Effects(e, w.store, next)
    ensures Consistent(settings, World(next, w.log + [e]))
  {
    AppendLawful(settings, w.log, e);
    forall token ensures Agrees(World(next, w.log + [e]), token) {
      assert Agrees(w, token);
      if About(e, token) { ItsTokenFollows(settings, w, e, next, token); } else { OtherTokensStay(w, e, next, token); }
    }
  }

  lemma PurgeKeeps(settings: Settings, w: World, now: int)
    requires Consistent(settings, w)
    ensures Consistent(settings, Purged(w, now))
  {
    var expired := ExpiredTokens(w.store, now);
    forall t | t in expired ensures Track(w.log, t).Live? { assert Agrees(w, t); }
    if expired != {} { EventKeeps(settings, w, Removed(expired), w.store - expired); }
  }

  /** A token not yet drawn. */
  predicate NeverDrawn(log: seq<Event>, token: string) {
    forall e :: e in log && e.Generated? ==> e.token != token
  }

  lemma {:induction false} NeverDrawnIsUnknown(settings: Settings, log: seq<Event>, token: string)
    requires AllLawful(settings, log) && NeverDrawn(log, token)
    ensures Track(log, token) == Unknown
  {
    if log == [] {
    } else {
      var past, e := log[..|log| - 1], log[|log| - 1];
      assert forall k :: 0 <= k < |past| ==> past[..k] == log[..k] && past[k] == log[k];
      assert Lawful(settings, past, e);
      NeverDrawnIsUnknown(settings, past, token);
      assert e in log;
    }
  }

  predicate FreshDraw(w: World, req: Request) {
    req.Generate? ==> NeverDrawn(w.log, req.token)
  }

  lemma FoundAgrees(settings: Settings, w: World, token: string, user: string, now: int)
    requires Consistent(settings, w) && Retrieved(w.store, token, user, now).Found?
    ensures Agrees(w, token) && token in w.store && w.store[token].user == user
  {
    assert Agrees(w, token);
  }

  /** Every handler call keeps log and hash in agreement. */
  lemma StepKeeps(settings: Settings, w: World, req: Request)
    requires Consistent(settings, w) && FreshDraw(w, req)
    ensures Consistent(settings, Step(settings, w, req).0)
  {
    if settings.enabled {
      match req
      case Generate(token, user, ip, now) =>
        NeverDrawnIsUnknown(settings, w.log, token);
        EventKeeps(settings, w, Generated(token, user, ip, now + TTL_SECONDS), Step(settings, w, req).0.store);
      case View(token, user, ip, nonce, purgedAt, now) =>
        PurgeKeeps(settings, w, purgedAt);
        ViewKeeps(settings, w, req);
      case Approve(token, user, groups, ip, presented, purgedAt, now) =>
        PurgeKeeps(settings, w, purgedAt);
        ApproveKeeps(settings, w, req);
      case Poll(token, ip, now) =>
        PollKeeps(settings, w, req);
    }
  }

  lemma ViewKeeps(settings: Settings, w: World, req: Request)
    requires req.View? && settings.enabled && Consistent(settings, w) && Consistent(settings, Purged(w, req.purgedAt))
    ensures Consistent(settings, Step(settings, w, req).0)
  {
    var p := Purged(w, req.purgedAt);
    var n := Step(settings, w, req).0;
    if n != w && n != p {
      FoundAgrees(settings, p, req.token, req.user, req.now);
      EventKeeps(settings, p, Visited(req.token, req.user, req.ip, req.nonce), n.store);
    }
  }

  lemma ApproveKeeps(settings: Settings, w: World, req: Request)
    requires req.Approve? && settings.enabled && Consistent(settings, w)
      && Consistent(settings, Purged(w, req.purgedAt))
    ensures Consistent(settings, Step(settings, w, req).0)
  {
    var p := Purged(w, req.purgedAt);
    var n := Step(settings, w, req).0;
    if n != w && n != p {
      FoundAgrees(settings, p, req.token, req.user, req.now);
      var c := p.store[req.token];
      assert c.(status := Success, user := req.user, groups := req.groups) ==
        c.(status := Success, groups := req.groups);
      EventKeeps(settings, p, Approved(req.token, req.user, req.ip, c.nonce.value, req.groups), n.store);
    }
  }

  lemma PollKeeps(settings: Settings, w: World, req: Request)
    requires req.Poll? && settings.enabled && Consistent(settings, w)
    ensures Consistent(settings, Step(settings, w, req).0)
  {
    assert Agrees(w, req.token);
    if req.token in w.store {
      var c := w.store[req.token];
      if c.ttl < req.now {
        EventKeeps(settings, w, Removed({req.token}), w.store - {req.token});
      } else if req.ip == c.ip && c.status.Success? {
        EventKeeps(settings, w, Issued(req.token, c.user, c.groups, req.ip, req.now), w.store - {req.token});
      }
    }
  }

  // ---- Runs ----

  function Run(settings: Settings, reqs: seq<Request>): World {
    if reqs == [] then World(map[], [])
    else Step(settings, Run(settings, reqs[..|reqs| - 1]), reqs[|reqs| - 1]).0
  }

  /** Tokens are never drawn twice. */
  ghost predicate FreshRun(settings: Settings, reqs: seq<Request>) {
    forall k :: 0 <= k < |reqs| ==> FreshDraw(Run(settings, reqs[..k]), reqs[k])
  }

  lemma {:induction false} RunIsConsistent(settings: Settings, reqs: seq<Request>)
    requires FreshRun(settings, reqs)
    ensures Consistent(settings, Run(settings, reqs))
  {
    if reqs == [] {
      forall token ensures Agrees(World(map[], []), token) {}
    } else {
      var past := reqs[..|reqs| - 1];
      forall k | 0 <= k < |past| ensures FreshDraw(Run(settings, past[..k]), past[k]) {
        assert past[..k] == reqs[..k];
      }
      RunIsConsistent(settings, past);
      StepKeeps(settings, Run(settings, past), reqs[|reqs| - 1]);
    }
  }

  predicate Ends(e: Event) {
    e.Issued? || e.Removed?
  }

  /** What the trail of `token` says of the whole log: nothing concerned it; or something ended it; or nothing
      but its making, its one showing, and approvals up to the last concerned it. */
  ghost predicate Complete(log: seq<Event>, token: string) {
    match Track(log, token)
    case Unknown => forall k :: 0 <= k < |log| ==> !About(log[k], token)
    case Gone => exists k :: 0 <= k < |log| && About(log[k], token) && Ends(log[k])
    case Live(m, s, a) =>
      forall k :: 0 <= k < |log| && About(log[k], token) ==>
        k == m || Some(k) == s || (log[k].Approved? && a.Some? && k <= a.value)
  }

  lemma LastStep(settings: Settings, log: seq<Event>, k: nat)
    requires AllLawful(settings, log) && 0 < k <= |log|
    ensures log[..k] == log[..k - 1] + [log[k - 1]]
    ensures AllLawful(settings, log[..k - 1]) && Lawful(settings, log[..k - 1], log[k - 1])
  {
    PrefixLawful(settings, log, k - 1);
  }

  lemma CompleteStep(settings: Settings, log: seq<Event>, e: Event, token: string)
    requires Grounded(log, token) && Complete(log, token) && Lawful(settings, log, e)
    ensures Grounded(log + [e], token) && Complete(log + [e], token)
  {
    var next := log + [e];
    AppendTrack(log, e, token);
    if !About(e, token) {
      assert Track(next, token) == Track(log, token);
      if Track(log, token) == Gone {
        var k :| 0 <= k < |log| && About(log[k], token) && Ends(log[k]);
        assert next[k] == log[k];
      }
    } else if Ends(e) {
      assert About(next[|log|], token) && Ends(next[|log|]);
    }
  }

  lemma {:induction false} TrailIsComplete(settings: Settings, log: seq<Event>, k: nat, token: string)
    requires AllLawful(settings, log) && k <= |log|
    ensures Grounded(log[..k], token) && Complete(log[..k], token)
  {
    if k == 0 {
    } else {
      LastStep(settings, log, k);
      TrailIsComplete(settings, log, k - 1, token);
      CompleteStep(settings, log[..k - 1], log[k - 1], token);
    }
  }

  lemma PrefixLawful(settings: Settings, log: seq<Event>, k: nat)
    requires AllLawful(settings, log) && k <= |log|
    ensures AllLawful(settings, log[..k])
  {
    assert forall i :: 0 <= i < k ==> log[..k][..i] == log[..i];
  }

  /** Once a token is gone, no event ever concerns it again. */
  lemma {:induction false} GoneForGood(settings: Settings, log: seq<Event>, token: string, k: nat, n: nat)
    requires AllLawful(settings, log) && k <= n <= |log| && Track(log[..k], token) == Gone
    ensures Track(log[..n], token) == Gone
    ensures forall j :: k <= j < n ==> !About(log[j], token)
  {
    hide Lawful;
    if k >= n {
    } else {
      LastStep(settings, log, n);
      GoneForGood(settings, log, token, k, n - 1);
      GoneStep(settings, log[..n - 1], log[n - 1], token);
    }
  }

  lemma GoneStep(settings: Settings, log: seq<Event>, e: Event, token: string)
    requires Track(log, token) == Gone && Lawful(settings, log, e)
    ensures !About(e, token) && Track(log + [e], token) == Gone
  {
    AppendTrack(log, e, token);
  }

  /** The showing and the approval behind a trail met the handlers' conditions. */
  ghost predicate Witnessed(settings: Settings, log: seq<Event>, token: string) {
    Grounded(log, token) &&
    match Track(log, token)
    case Live(m, s, a) =>
      && (s.Some? ==> log[s.value].user == log[m].user && (settings.ipMustMatch ==> log[s.value].ip == log[m].ip))
      && (a.Some? ==>
           (log[a.value].user == log[m].user && log[a.value].presented == log[s.value].nonce
            && (settings.ipMustMatch ==> log[a.value].ip == log[m].ip)))
    case _ => true
  }

  lemma WitnessedStep(settings: Settings, log: seq<Event>, e: Event, token: string)
    requires Witnessed(settings, log, token) && Lawful(settings, log, e)
    ensures Witnessed(settings, log + [e], token)
  {
    AppendTrack(log, e, token);
    if !About(e, token) { assert Track(log + [e], token) == Track(log, token); }
  }

  lemma {:induction false} TrailIsWitnessed(settings: Settings, log: seq<Event>, k: nat, token: string)
    requires AllLawful(settings, log) && k <= |log|
    ensures Witnessed(settings, log[..k], token)
  {
    if k == 0 {
    } else {
      LastStep(settings, log, k);
      TrailIsWitnessed(settings, log, k - 1, token);
      WitnessedStep(settings, log[..k - 1], log[k - 1], token);
    }
  }

  /** Every JWT issued in a run has its full history: the token was made for that user and that IP, that user
      was then shown a nonce, that user then presented that very nonce, and the poll came from the creating IP
      within the time to live. Nothing else ever concerned the token but earlier approvals by the same user: its groups
      are those of the last one. */
  lemma {:induction false} IssuedHasFullHistory(settings: Settings, reqs: seq<Request>, k: nat)
      returns (m: nat, s: nat, a: nat)
    requires FreshRun(settings, reqs)
    requires k < |Run(settings, reqs).log| && Run(settings, reqs).log[k].Issued?
    ensures var log := Run(settings, reqs).log; var jwt := log[k];
      && m < s < a < k
      && log[m].Generated? && log[m].token == jwt.token && log[m].user == jwt.user && log[m].ip == jwt.ip
        && jwt.now <= log[m].ttl
      && log[s].Visited? && log[s].token == jwt.token && log[s].user == jwt.user
      && log[a].Approved? && log[a].token == jwt.token && log[a].user == jwt.user
      && log[a].presented == log[s].nonce && log[a].groups == jwt.groups
      && (settings.ipMustMatch ==> log[s].ip == log[a].ip == jwt.ip)
      && (forall j :: 0 <= j < k && About(log[j], jwt.token) ==> j == m || j == s || (j <= a && log[j].Approved?))
      && (forall j :: k < j < |log| ==> !About(log[j], jwt.token))
  {
    var log := Run(settings, reqs).log;
    var jwt, past := log[k], log[..k];
    RunIsConsistent(settings, reqs);
    LastStep(settings, log, k + 1);
    TrailIsComplete(settings, log, k, jwt.token);
    TrailIsWitnessed(settings, log, k, jwt.token);
    var trail := Track(past, jwt.token);
    m, s, a := trail.made, trail.seen.value, trail.agreed.value;
    forall j | 0 <= j < k && About(log[j], jwt.token) ensures j == m || j == s || (j <= a && log[j].Approved?) {
      assert About(past[j], jwt.token);
    }
    EndedForGood(settings, log, k, jwt.token);
  }

  lemma {:induction false} EndedForGood(settings: Settings, log: seq<Event>, k: nat, token: string)
    requires AllLawful(settings, log) && k < |log| && About(log[k], token) && Ends(log[k])
    ensures Track(log, token) == Gone
    ensures forall j :: k < j < |log| ==> !About(log[j], token)
  {
    LastStep(settings, log, k + 1);
    AppendTrack(log[..k], log[k], token);
    GoneForGood(settings, log, token, k + 1, |log|);
    assert log[..|log|] == log;
  }

  /** A token yields at most one JWT in a whole run. */
  lemma {:induction false} AtMostOneJwt(settings: Settings, reqs: seq<Request>, j: nat, k: nat)
    requires FreshRun(settings, reqs)
    requires j < |Run(settings, reqs).log| && k < |Run(settings, reqs).log|
    requires Run(settings, reqs).log[j].Issued? && Run(settings, reqs).log[k].Issued?
    requires Run(settings, reqs).log[j].token == Run(settings, reqs).log[k].token
    ensures j == k
  {
    var _, _, _ := IssuedHasFullHistory(settings, reqs, j);
    var _, _, _ := IssuedHasFullHistory(settings, reqs, k);
  }

  /** A token consumed or removed never comes back. */
  lemma {:induction false} ConsumedNeverReappears(settings: Settings, reqs: seq<Request>, k: nat, token: string)
    requires FreshRun(settings, reqs)
    requires var log := Run(settings, reqs).log; k < |log| && About(log[k], token) && Ends(log[k])
    ensures token !in Run(settings, reqs).store
    ensures forall j :: k < j < |Run(settings, reqs).log| ==> !About(Run(settings, reqs).log[j], token)
  {
    var w := Run(settings, reqs);
    RunIsConsistent(settings, reqs);
    EndedForGood(settings, w.log, k, token);
    assert Agrees(w, token);
  }

  lemma PollOutcome(settings: Settings, w: World, token: string, ip: string, now: int)
    requires Agrees(w, token)
    ensures Step(settings, w, Poll(token, ip, now)).1.Jwt? <==>
              && settings.enabled
              && Track(w.log, token).Live? && Track(w.log, token).agreed.Some?
              && ip == w.log[Track(w.log, token).made].ip && now <= w.log[Track(w.log, token).made].ttl
  {
  }

  ghost predicate MadeFrom(log: seq<Event>, token: string, ip: string, now: int) {
    exists m :: 0 <= m < |log| && log[m].Generated? && log[m].token == token && log[m].ip == ip && now <= log[m].ttl
  }

  ghost predicate SomeApproval(log: seq<Event>, token: string) {
    exists a :: 0 <= a < |log| && log[a].Approved? && log[a].token == token
  }

  ghost predicate NeverEnded(log: seq<Event>, token: string) {
    forall k :: 0 <= k < |log| && About(log[k], token) ==> !Ends(log[k])
  }

  lemma TrailMeans(log: seq<Event>, token: string, ip: string, now: int)
    requires Grounded(log, token) && Complete(log, token)
    ensures MadeFrom(log, token, ip, now) && SomeApproval(log, token) && NeverEnded(log, token) <==>
              && Track(log, token).Live? && Track(log, token).agreed.Some?
              && ip == log[Track(log, token).made].ip && now <= log[Track(log, token).made].ttl
  {
    assert forall k :: 0 <= k < |log| && (log[k].Generated? || log[k].Approved?) && log[k].token == token ==>
      About(log[k], token);
  }

  /** A poll yields a JWT exactly when the token was made from that IP and has not outlived its time, some
      approval was given, and the token was neither consumed nor removed. */
  lemma {:induction false} PollIssuesIff(settings: Settings, reqs: seq<Request>, token: string, ip: string, now: int)
    requires FreshRun(settings, reqs)
    ensures var log := Run(settings, reqs).log;
      Step(settings, Run(settings, reqs), Poll(token, ip, now)).1.Jwt? <==>
        settings.enabled && MadeFrom(log, token, ip, now) && SomeApproval(log, token) && NeverEnded(log, token)
  {
    var w := Run(settings, reqs);
    RunIsConsistent(settings, reqs);
    TrailIsComplete(settings, w.log, |w.log|, token);
    assert w.log[..|w.log|] == w.log;
    assert Agrees(w, token);
    hide Complete, Lawful, AllLawful, Step, Grounded, MadeFrom, SomeApproval, NeverEnded;
    PollOutcome(settings, w, token, ip, now);
    TrailMeans(w.log, token, ip, now);
  }
}
