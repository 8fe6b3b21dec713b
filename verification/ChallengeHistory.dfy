/** The login protocol as its callers see it: when each handler answers what, said in terms of the calls made before
    and the answers they got, and nothing of the hash or the log. */
module ChallengeHistory {
  import opened Challenges
  import opened ChallengeSafety
  import opened Outcomes

  /** What the `k`-th call of a run was answered. */
  function Answer(settings: Settings, calls: seq<Request>, k: nat): Response
    requires k < |calls|
  {
    Step(settings, Run(settings, calls[..k]), calls[k]).1
  }

  /** What a further call is answered. */
  function Next(settings: Settings, calls: seq<Request>, call: Request): Response {
    Step(settings, Run(settings, calls), call).1
  }

  /** Call `g` made the token. */
  predicate Makes(settings: Settings, calls: seq<Request>, g: nat, token: string) {
    settings.enabled && g < |calls| && calls[g].Generate? && calls[g].token == token
  }

  /** The last second of a token's life: two minutes after its making. */
  function LastSecond(calls: seq<Request>, g: nat): int
    requires g < |calls|
  {
    calls[g].now + 120
  }

  /** Call `k` was shown the token's nonce. */
  predicate Shows(settings: Settings, calls: seq<Request>, k: nat, token: string) {
    k < |calls| && calls[k].View? && calls[k].token == token && Answer(settings, calls, k).ShowNonce?
  }

  /** Call `k` approved the token. */
  predicate Approves(settings: Settings, calls: seq<Request>, k: nat, token: string) {
    k < |calls| && calls[k].Approve? && calls[k].token == token && Answer(settings, calls, k).ApprovalNoted?
  }

  /** Call `k` was given a JWT for the token. */
  predicate Yields(settings: Settings, calls: seq<Request>, k: nat, token: string) {
    k < |calls| && calls[k].Poll? && calls[k].token == token && Answer(settings, calls, k).Jwt?
  }

  /** The call finds the token too old: a purge finds every such token, a poll its own. */
  predicate Outlives(call: Request, token: string, last: int) {
    match call
    case Generate(_, _, _, _) => false
    case View(_, _, _, _, purgedAt, _) => last < purgedAt
    case Approve(_, _, _, _, _, purgedAt, _) => last < purgedAt
    case Poll(t, _, now) => t == token && last < now
  }

  /** Call `g` made the token, and none since found it too old or was given a JWT for it. */
  ghost predicate Stands(settings: Settings, calls: seq<Request>, g: nat, token: string) {
    Makes(settings, calls, g, token) &&
    forall k: nat :: g < k < |calls| ==>
      !Outlives(calls[k], token, LastSecond(calls, g)) && !Yields(settings, calls, k, token)
  }

  /** Tokens are never drawn twice. */
  ghost predicate DrawnOnce(calls: seq<Request>) {
    forall i, j :: 0 <= i < j < |calls| && calls[i].Generate? && calls[j].Generate? ==> calls[i].token != calls[j].token
  }

  ghost predicate Shown(settings: Settings, calls: seq<Request>, g: nat, token: string) {
    exists k: nat :: g < k && Shows(settings, calls, k, token)
  }

  ghost predicate Approved(settings: Settings, calls: seq<Request>, g: nat, token: string) {
    exists k: nat :: g < k && Approves(settings, calls, k, token)
  }

  /** Call `a` is the last to approve the token. */
  ghost predicate LastApproves(settings: Settings, calls: seq<Request>, a: nat, token: string) {
    Approves(settings, calls, a, token) && forall k: nat :: a < k ==> !Approves(settings, calls, k, token)
  }

  // ---- What is stored, in terms of the calls ----

  /** The stored challenge is what the calls since its making have made of it. */
  ghost predicate AsCalled(settings: Settings, calls: seq<Request>, g: nat, token: string, c: Challenge)
    requires g < |calls| && calls[g].Generate?
  {
    && c.ttl == LastSecond(calls, g) && c.ip == calls[g].ip && c.user == calls[g].user
    && (c.visited <==> Shown(settings, calls, g, token)) && (c.nonce.Some? <==> c.visited)
    && (forall k: nat :: g < k && Shows(settings, calls, k, token) ==>
          c.nonce == Some(Answer(settings, calls, k).nonce))
    && (c.status.Success? <==> Approved(settings, calls, g, token))
    && (forall a: nat :: g < a && LastApproves(settings, calls, a, token) ==> c.groups == calls[a].groups)
  }

  /** A token is stored exactly if it stands, and then as the calls have made it. */
  ghost predicate Reflects(settings: Settings, calls: seq<Request>, token: string) {
    var store := Run(settings, calls).store;
    && (token in store <==> exists g: nat :: Stands(settings, calls, g, token))
    && forall g: nat :: Stands(settings, calls, g, token) ==> AsCalled(settings, calls, g, token, store[token])
  }

  /** The call made the token; was shown its nonce; approved it; was given a JWT for it. */
  predicate MadeBy(settings: Settings, call: Request, token: string) {
    settings.enabled && call.Generate? && call.token == token
  }

  predicate ShownTo(call: Request, r: Response, token: string) { call.View? && call.token == token && r.ShowNonce? }
  predicate ApprovedBy(call: Request, r: Response, token: string) {
    call.Approve? && call.token == token && r.ApprovalNoted?
  }
  predicate GivenTo(call: Request, r: Response, token: string) { call.Poll? && call.token == token && r.Jwt? }

  /** The entry of a token that stays, after a call. */
  function Called(call: Request, r: Response, token: string, c: Challenge): Challenge {
    if ShownTo(call, r, token) then c.(visited := true, nonce := Some(r.nonce))
    else if ApprovedBy(call, r, token) then c.(status := Success, groups := call.groups)
    else c
  }

  /** A purge takes away exactly the tokens whose time ended before it, and changes no other. */
  lemma PurgeIs(w: World, now: int, token: string)
    ensures var p := Purged(w, now).store;
      && (token in p <==> token in w.store && now <= w.store[token].ttl)
      && (token in p ==> p[token] == w.store[token])
  {
    assert token in ExpiredTokens(w.store, now) <==> token in w.store && w.store[token].ttl < now;
  }

  /** What one call does to the entry of one token. */
  lemma StepOn(settings: Settings, w: World, call: Request, token: string)
    ensures var (n, r) := Step(settings, w, call);
      && (ShownTo(call, r, token) || ApprovedBy(call, r, token) || GivenTo(call, r, token) ==>
           settings.enabled && token in w.store && !Outlives(call, token, w.store[token].ttl))
      && (ShownTo(call, r, token) ==> token in w.store && !w.store[token].visited)
      && if MadeBy(settings, call, token) then
           n.store == w.store[token := Challenge(call.now + 120, call.ip, Pending, call.user, false, None, [])]
         else if token !in w.store then token !in n.store
         else if settings.enabled && (Outlives(call, token, w.store[token].ttl) || GivenTo(call, r, token)) then
           token !in n.store
         else token in n.store && n.store[token] == Called(call, r, token, w.store[token])
  {
    if call.View? || call.Approve? { PurgeIs(w, call.purgedAt, token); }
    if call.View? || call.Approve? { PurgeIs(w, call.purgedAt, call.token); }
    hide ExpiredTokens, Purged;
  }

  lemma RunStep(settings: Settings, calls: seq<Request>, call: Request)
    ensures Run(settings, calls + [call]) == Step(settings, Run(settings, calls), call).0
    ensures Answer(settings, calls + [call], |calls|) == Next(settings, calls, call)
    ensures forall k: nat :: k < |calls| ==> Answer(settings, calls + [call], k) == Answer(settings, calls, k)
  {
    var all := calls + [call];
    assert all[..|all| - 1] == calls && all[|all| - 1] == call && all[..|calls|] == calls;
    forall k: nat | k < |calls| ensures Answer(settings, all, k) == Answer(settings, calls, k) {
      assert all[..k] == calls[..k] && all[k] == calls[k];
    }
  }

  /** How the further call adds to what was made, shown, approved and given. */
  lemma HistoryGrows(settings: Settings, calls: seq<Request>, call: Request, k: nat, token: string)
    ensures var all, r := calls + [call], Next(settings, calls, call);
      var last := k == |calls|;
      && (Shows(settings, all, k, token) <==> Shows(settings, calls, k, token) || (last && ShownTo(call, r, token)))
      && (Approves(settings, all, k, token) <==>
           Approves(settings, calls, k, token) || (last && ApprovedBy(call, r, token)))
      && (Yields(settings, all, k, token) <==> Yields(settings, calls, k, token) || (last && GivenTo(call, r, token)))
      && (Makes(settings, all, k, token) <==>
           Makes(settings, calls, k, token) || (last && MadeBy(settings, call, token)))
  {
    RunStep(settings, calls, call);
    hide Run, Step;
  }

  lemma StandsAfter(settings: Settings, calls: seq<Request>, call: Request, g: nat, token: string)
    ensures var all, r := calls + [call], Next(settings, calls, call);
      Stands(settings, all, g, token) <==>
        if g == |calls| then MadeBy(settings, call, token)
        else
          && Stands(settings, calls, g, token)
          && !Outlives(call, token, LastSecond(calls, g)) && !GivenTo(call, r, token)
  {
    var all := calls + [call];
    forall k: nat { HistoryGrows(settings, calls, call, k, token); }
    hide Run, Step;
    assert all[|calls|] == call && forall k: nat :: k < |calls| ==> all[k] == calls[k];
    if g < |calls| {
      assert LastSecond(all, g) == LastSecond(calls, g);
      hide LastSecond, Outlives, Next, Answer, GivenTo;
      if Stands(settings, all, g, token) {
        assert !Outlives(all[|calls|], token, LastSecond(all, g)) && !Yields(settings, all, |calls|, token);
      }
    }
  }

  lemma OneMaking(settings: Settings, calls: seq<Request>, g: nat, h: nat, token: string)
    requires DrawnOnce(calls) && Makes(settings, calls, g, token) && Makes(settings, calls, h, token)
    ensures g == h
  {
  }

  lemma NotYet(settings: Settings, calls: seq<Request>, token: string)
    ensures forall k: nat :: Shows(settings, calls, k, token) ==> k < |calls|
    ensures forall k: nat :: Approves(settings, calls, k, token) ==> k < |calls|
  {
  }

  /** Whether the token has been shown and approved, after the further call. */
  lemma MarksGrow(settings: Settings, calls: seq<Request>, call: Request, g: nat, token: string)
    requires g < |calls|
    ensures var all, r := calls + [call], Next(settings, calls, call);
      && (Shown(settings, all, g, token) <==> Shown(settings, calls, g, token) || ShownTo(call, r, token))
      && (Approved(settings, all, g, token) <==> Approved(settings, calls, g, token) || ApprovedBy(call, r, token))
      && forall a: nat :: LastApproves(settings, all, a, token) <==>
           if ApprovedBy(call, r, token) then a == |calls| else LastApproves(settings, calls, a, token)
  {
    var all, r := calls + [call], Next(settings, calls, call);
    forall k: nat { HistoryGrows(settings, calls, call, k, token); }
    NotYet(settings, calls, token);
    NotYet(settings, all, token);
    assert Shows(settings, all, |calls|, token) <==> ShownTo(call, r, token);
    assert Approves(settings, all, |calls|, token) <==> ApprovedBy(call, r, token);
    hide Next, Shows, Approves, Makes, Yields, ShownTo, ApprovedBy, MadeBy, GivenTo;
    forall a: nat ensures LastApproves(settings, all, a, token) <==>
      if ApprovedBy(call, r, token) then a == |calls| else LastApproves(settings, calls, a, token)
    {
    }
  }

  /** The entry of a token that stands on changes as the further call says. */
  lemma CalledOn(settings: Settings, calls: seq<Request>, call: Request, g: nat, token: string, c: Challenge)
    requires g < |calls| && calls[g].Generate? && AsCalled(settings, calls, g, token, c)
    requires ShownTo(call, Next(settings, calls, call), token) ==> !c.visited
    ensures AsCalled(settings, calls + [call], g, token, Called(call, Next(settings, calls, call), token, c))
  {
    var all := calls + [call];
    MarksGrow(settings, calls, call, g, token);
    RunStep(settings, calls, call);
    forall k: nat { HistoryGrows(settings, calls, call, k, token); }
    NotYet(settings, calls, token);
    assert LastSecond(all, g) == LastSecond(calls, g) && all[|calls|] == call;
    assert forall k: nat :: k < |calls| ==> all[k] == calls[k];
    hide Next, Shows, Approves, Answer, Makes, Yields, MadeBy, GivenTo, LastSecond, Approved;
  }

  /** A token just made has not been shown, approved or given. */
  lemma MadeIsNew(settings: Settings, calls: seq<Request>, call: Request, token: string)
    requires MadeBy(settings, call, token)
    ensures AsCalled(settings, calls + [call], |calls|, token,
      Challenge(call.now + 120, call.ip, Pending, call.user, false, None, []))
  {
    var all := calls + [call];
    assert all[|calls|] == call;
    assert forall k: nat :: |calls| < k ==> !Shows(settings, all, k, token) && !Approves(settings, all, k, token);
  }

  lemma DrawnOnceBefore(calls: seq<Request>, call: Request)
    requires DrawnOnce(calls + [call])
    ensures DrawnOnce(calls)
    ensures call.Generate? ==> forall g :: 0 <= g < |calls| && calls[g].Generate? ==> calls[g].token != call.token
  {
    var all := calls + [call];
    assert all[|calls|] == call && forall g :: 0 <= g < |calls| ==> all[g] == calls[g];
  }

  lemma ReflectsAfter(settings: Settings, calls: seq<Request>, call: Request, token: string)
    requires DrawnOnce(calls + [call]) && Reflects(settings, calls, token)
    ensures Reflects(settings, calls + [call], token)
  {
    var all, w, r := calls + [call], Run(settings, calls), Next(settings, calls, call);
    DrawnOnceBefore(calls, call);
    RunStep(settings, calls, call);
    StepOn(settings, w, call, token);
    forall g: nat { StandsAfter(settings, calls, call, g, token); }
    assert forall g: nat :: Stands(settings, calls, g, token) ==> g < |calls| && Makes(settings, calls, g, token);
    assert forall g: nat :: Stands(settings, all, g, token) ==> Makes(settings, all, g, token);
    assert forall g: nat :: g < |calls| ==> all[g] == calls[g];
    hide Run, Step, Outlives, AsCalled;
    if MadeBy(settings, call, token) {
      MadeIsNew(settings, calls, call, token);
      assert Stands(settings, all, |calls|, token);
      forall g: nat | Stands(settings, all, g, token) ensures g == |calls| {
        assert Makes(settings, all, |calls|, token);
        OneMaking(settings, all, g, |calls|, token);
      }
    } else {
      forall g: nat | Stands(settings, calls, g, token)
        ensures Stands(settings, all, g, token) <==> token in Run(settings, all).store
        ensures token in Run(settings, all).store ==>
                  AsCalled(settings, all, g, token, Run(settings, all).store[token])
      {
        assert AsCalled(settings, calls, g, token, w.store[token]);
        StoredTtl(settings, calls, g, token, w.store[token]);
        CalledOn(settings, calls, call, g, token, w.store[token]);
      }
    }
  }

  lemma StoredTtl(settings: Settings, calls: seq<Request>, g: nat, token: string, c: Challenge)
    requires g < |calls| && calls[g].Generate? && AsCalled(settings, calls, g, token, c)
    ensures c.ttl == LastSecond(calls, g)
  {
  }

  /** At every point of a run in which tokens are drawn fresh: a token is stored exactly if it was made and since
      then no call found it too old or was given a JWT for it, and its entry says what the calls did. */
  lemma {:induction false} RunReflectsCalls(settings: Settings, calls: seq<Request>, token: string)
    requires DrawnOnce(calls)
    ensures Reflects(settings, calls, token)
  {
    if calls == [] {
    } else {
      var past, call := calls[..|calls| - 1], calls[|calls| - 1];
      assert calls == past + [call];
      DrawnOnceBefore(past, call);
      RunReflectsCalls(settings, past, token);
      ReflectsAfter(settings, past, call, token);
    }
  }

  // ---- When which answer is given ----

  /** The token stands, was made for that user, and lives at both times. */
  ghost predicate LivesFor(settings: Settings, calls: seq<Request>, g: nat, token: string, user: string, purgedAt: int,
      now: int)
  {
    Stands(settings, calls, g, token) && calls[g].user == user
    && purgedAt <= LastSecond(calls, g) && now <= LastSecond(calls, g)
  }

  /** The nonce is shown exactly to the user the token was made for, in its two minutes, from the IP it was made from
      where that is asked, and if it was not shown before. */
  lemma ViewShowsIff(settings: Settings, calls: seq<Request>, view: Request)
    requires DrawnOnce(calls) && view.View?
    ensures var r := Next(settings, calls, view);
      && (r.ShowNonce? ==> r == ShowNonce(view.nonce))
      && (r.ShowNonce? <==>
           exists g: nat ::
             && LivesFor(settings, calls, g, view.token, view.user, view.purgedAt, view.now)
             && (settings.ipMustMatch ==> view.ip == calls[g].ip) && !Shown(settings, calls, g, view.token))
  {
    var w, token := Run(settings, calls), view.token;
    RunReflectsCalls(settings, calls, token);
    PurgeIs(w, view.purgedAt, token);
    forall g: nat | Stands(settings, calls, g, token) ensures settings.enabled && token in w.store {
      assert Makes(settings, calls, g, token);
    }
    hide Purged, Run, Stands, Shown, Approved;
    if settings.enabled && token in w.store {
      var g: nat :| Stands(settings, calls, g, token);
      assert AsCalled(settings, calls, g, token, w.store[token]);
    }
  }

  /** An approval is taken exactly from that user, in the token's two minutes, from the IP it was made from where that
      is asked, and with the nonce that was shown. */
  lemma ApproveNotesIff(settings: Settings, calls: seq<Request>, approve: Request)
    requires DrawnOnce(calls) && approve.Approve?
    ensures Next(settings, calls, approve).ApprovalNoted? <==>
              exists g: nat, k: nat ::
                && LivesFor(settings, calls, g, approve.token, approve.user, approve.purgedAt, approve.now)
                && (settings.ipMustMatch ==> approve.ip == calls[g].ip)
                && g < k && Shows(settings, calls, k, approve.token)
                && approve.presented == Some(Answer(settings, calls, k).nonce)
  {
    var w, token := Run(settings, calls), approve.token;
    RunReflectsCalls(settings, calls, token);
    PurgeIs(w, approve.purgedAt, token);
    forall g: nat | Stands(settings, calls, g, token) ensures settings.enabled && token in w.store {
      assert Makes(settings, calls, g, token);
    }
    hide Purged, Run, Stands, Approved, Shows, Answer, LastSecond;
    assert Next(settings, calls, approve).ApprovalNoted? <==>
      && settings.enabled && token in w.store && approve.purgedAt <= w.store[token].ttl
      && approve.now <= w.store[token].ttl && approve.user == w.store[token].user && w.store[token].nonce.Some?
      && approve.presented == w.store[token].nonce && (settings.ipMustMatch ==> approve.ip == w.store[token].ip);
    hide Next;
    if settings.enabled && token in w.store {
      var g: nat :| Stands(settings, calls, g, token);
      assert AsCalled(settings, calls, g, token, w.store[token]);
      if Shown(settings, calls, g, token) {
        var k: nat :| g < k && Shows(settings, calls, k, token);
        assert w.store[token].nonce == Some(Answer(settings, calls, k).nonce);
      }
    }
  }

  /** A token made, neither given nor found too old since, nor by the purge of this call. */
  ghost predicate Remains(settings: Settings, calls: seq<Request>, g: nat, token: string, purgedAt: int) {
    Stands(settings, calls, g, token) && purgedAt <= LastSecond(calls, g)
  }

  /** What a view is answered: that there is nothing to find, or why the token is refused, in the order of the checks,
      or the nonce. */
  lemma ViewIsAnswered(settings: Settings, calls: seq<Request>, view: Request, g: nat)
    requires DrawnOnce(calls) && view.View?
    ensures var r := Next(settings, calls, view);
      && (!settings.enabled ==> r == Disabled)
      && (settings.enabled && (forall h: nat :: !Remains(settings, calls, h, view.token, view.purgedAt)) ==>
           r == NotFound || (r == NoChallenges && forall h: nat, t :: !Stands(settings, calls, h, t)))
      && (Remains(settings, calls, g, view.token, view.purgedAt) ==>
           r == if LastSecond(calls, g) < view.now then Expired
                else if calls[g].user != view.user then WrongUser
                else if Shown(settings, calls, g, view.token) then AlreadyViewed
                else if settings.ipMustMatch && calls[g].ip != view.ip then WrongIp
                else ShowNonce(view.nonce))
  {
    var w, token := Run(settings, calls), view.token;
    RunReflectsCalls(settings, calls, token);
    PurgeIs(w, view.purgedAt, token);
    forall h: nat, t | Stands(settings, calls, h, t) ensures settings.enabled && t in w.store {
      RunReflectsCalls(settings, calls, t);
      assert Makes(settings, calls, h, t);
    }
    hide Purged, Run, Stands, Shown, Approved;
    if settings.enabled && token in w.store {
      var h: nat :| Stands(settings, calls, h, token);
      assert AsCalled(settings, calls, h, token, w.store[token]);
      assert view.purgedAt <= w.store[token].ttl ==> Remains(settings, calls, h, token, view.purgedAt);
    }
  }

  /** What an approval is answered. */
  lemma ApproveIsAnswered(settings: Settings, calls: seq<Request>, approve: Request, g: nat)
    requires DrawnOnce(calls) && approve.Approve?
    ensures var r, token := Next(settings, calls, approve), approve.token;
      && (!settings.enabled ==> r == Disabled)
      && (settings.enabled && (forall h: nat :: !Remains(settings, calls, h, token, approve.purgedAt)) ==>
           r == NotFound || (r == NoChallenges && forall h: nat, t :: !Stands(settings, calls, h, t)))
      && (Remains(settings, calls, g, token, approve.purgedAt) ==>
           if LastSecond(calls, g) < approve.now || calls[g].user != approve.user then r == NotFound
           else if !Shown(settings, calls, g, token) then r == NonceMissing
           else if exists k: nat :: g < k && Shows(settings, calls, k, token)
                                    && approve.presented != Some(Answer(settings, calls, k).nonce) then r == WrongNonce
           else r == if settings.ipMustMatch && calls[g].ip != approve.ip then WrongIp else ApprovalNoted)
  {
    var w, token := Run(settings, calls), approve.token;
    RunReflectsCalls(settings, calls, token);
    PurgeIs(w, approve.purgedAt, token);
    forall h: nat, t | Stands(settings, calls, h, t) ensures settings.enabled && t in w.store {
      RunReflectsCalls(settings, calls, t);
      assert Makes(settings, calls, h, t);
    }
    hide Purged, Run, Stands, Approved;
    if settings.enabled && token in w.store {
      var h: nat :| Stands(settings, calls, h, token);
      assert AsCalled(settings, calls, h, token, w.store[token]);
      assert approve.purgedAt <= w.store[token].ttl ==> Remains(settings, calls, h, token, approve.purgedAt);
      if g < |calls| && Shown(settings, calls, g, token) {
        var k: nat :| g < k && Shows(settings, calls, k, token);
      }
    }
  }

  /** What a poll is answered. */
  lemma PollIsAnswered(settings: Settings, calls: seq<Request>, poll: Request, g: nat)
    requires DrawnOnce(calls) && poll.Poll?
    ensures var r, token := Next(settings, calls, poll), poll.token;
      && (!settings.enabled ==> r == Disabled)
      && (settings.enabled ==> (r == NotFound <==> forall h: nat :: !Stands(settings, calls, h, token)))
      && (Stands(settings, calls, g, token) ==>
           if LastSecond(calls, g) < poll.now then r == Expired
           else if calls[g].ip != poll.ip then r == WrongIp
           else if Approved(settings, calls, g, token) then r.Jwt?
           else r == Waiting(Pending))
  {
    var w, token := Run(settings, calls), poll.token;
    RunReflectsCalls(settings, calls, token);
    forall h: nat | Stands(settings, calls, h, token) ensures settings.enabled && token in w.store {
      assert Makes(settings, calls, h, token);
    }
    hide Run, Stands, Shown, Approved;
    if Stands(settings, calls, g, token) { assert AsCalled(settings, calls, g, token, w.store[token]); }
  }

  lemma {:induction false} SomeLastApproval(settings: Settings, calls: seq<Request>, k: nat, token: string)
      returns (a: nat)
    requires Approves(settings, calls, k, token)
    ensures k <= a && LastApproves(settings, calls, a, token)
    decreases |calls| - k
  {
    if j: nat :| k < j && Approves(settings, calls, j, token) {
      a := SomeLastApproval(settings, calls, j, token);
    } else {
      a := k;
    }
  }

  /** A poll is given a JWT exactly from the IP the token was made from, in its two minutes, after an approval, and if
      none was given before; for the user it was made for, with the groups of the last approval. */
  lemma PollYieldsIff(settings: Settings, calls: seq<Request>, poll: Request, user: string, groups: seq<string>)
    requires DrawnOnce(calls) && poll.Poll?
    ensures Next(settings, calls, poll) == Jwt(user, groups) <==>
              exists g: nat, a: nat ::
                && LivesFor(settings, calls, g, poll.token, user, poll.now, poll.now) && poll.ip == calls[g].ip
                && g < a && LastApproves(settings, calls, a, poll.token) && groups == calls[a].groups
  {
    var w, token := Run(settings, calls), poll.token;
    RunReflectsCalls(settings, calls, token);
    forall g: nat | Stands(settings, calls, g, token) ensures settings.enabled && token in w.store {
      assert Makes(settings, calls, g, token);
    }
    hide Run, Stands, Shown, Shows;
    if settings.enabled && token in w.store {
      var g: nat :| Stands(settings, calls, g, token);
      assert AsCalled(settings, calls, g, token, w.store[token]);
      if Approved(settings, calls, g, token) {
        var k: nat :| g < k && Approves(settings, calls, k, token);
        var a := SomeLastApproval(settings, calls, k, token);
        assert w.store[token].groups == calls[a].groups;
      }
    }
  }

  /** Every login that keeps to the rules succeeds: made, shown to its user, approved with the nonce shown and polled
      for, all from one IP and within two minutes, it ends in a JWT for that user with these groups. */
  lemma LoginSucceeds(settings: Settings, token: string, user: string, ip: string, nonce: string, groups: seq<string>,
      made: int, seen: int, agreed: int, polled: int)
    requires settings.enabled && seen <= made + 120 && agreed <= made + 120 && polled <= made + 120
    ensures var calls := [Generate(token, user, ip, made), View(token, user, ip, nonce, seen, seen),
                          Approve(token, user, groups, ip, Some(nonce), agreed, agreed)];
      && Answer(settings, calls, 0) == Created(token) && Answer(settings, calls, 1) == ShowNonce(nonce)
      && Answer(settings, calls, 2) == ApprovalNoted
      && Next(settings, calls, Poll(token, ip, polled)) == Jwt(user, groups)
  {
    var g, v, a := Generate(token, user, ip, made), View(token, user, ip, nonce, seen, seen),
                   Approve(token, user, groups, ip, Some(nonce), agreed, agreed);
    ThreeCalls(settings, g, v, a);
    var c := Challenge(made + 120, ip, Pending, user, false, None, []);
    assert Run(settings, []) == World(map[], []);
    var w := Run(settings, [g]);
    assert w.store[token] == c && Next(settings, [], g) == Created(token);
    hide Run, Step;
    ViewOf(settings, w, v, c);
    ApproveOf(settings, Run(settings, [g, v]), a, c.(visited := true, nonce := Some(nonce)));
    PollOf(settings, Run(settings, [g, v, a]), Poll(token, ip, polled),
           Challenge(made + 120, ip, Success, user, true, Some(nonce), groups));
  }

  lemma ThreeCalls(settings: Settings, a: Request, b: Request, c: Request)
    ensures var calls := [a, b, c];
      && Run(settings, [a]) == Step(settings, Run(settings, []), a).0
      && Run(settings, [a, b]) == Step(settings, Run(settings, [a]), b).0
      && Run(settings, calls) == Step(settings, Run(settings, [a, b]), c).0
      && Answer(settings, calls, 0) == Next(settings, [], a) && Answer(settings, calls, 1) == Next(settings, [a], b)
      && Answer(settings, calls, 2) == Next(settings, [a, b], c)
  {
    RunStep(settings, [], a);
    RunStep(settings, [a], b);
    RunStep(settings, [a, b], c);
    hide Run, Step;
    assert [] + [a] == [a] && [a] + [b] == [a, b] && [a, b] + [c] == [a, b, c];
  }

  lemma ViewOf(settings: Settings, w: World, view: Request, c: Challenge)
    requires settings.enabled && view.View? && view.token in w.store && w.store[view.token] == c
    requires c.user == view.user && c.ip == view.ip && view.purgedAt <= c.ttl && view.now <= c.ttl && !c.visited
    ensures var (n, r) := Step(settings, w, view);
      && r == ShowNonce(view.nonce) && view.token in n.store
      && n.store[view.token] == c.(visited := true, nonce := Some(view.nonce))
  {
    PurgeIs(w, view.purgedAt, view.token);
    hide Purged;
  }

  lemma ApproveOf(settings: Settings, w: World, approve: Request, c: Challenge)
    requires settings.enabled && approve.Approve? && approve.token in w.store && w.store[approve.token] == c
    requires c.user == approve.user && c.ip == approve.ip && approve.purgedAt <= c.ttl && approve.now <= c.ttl
    requires c.nonce.Some? && approve.presented == c.nonce
    ensures var (n, r) := Step(settings, w, approve);
      && r == ApprovalNoted && approve.token in n.store
      && n.store[approve.token] == c.(status := Success, groups := approve.groups)
  {
    PurgeIs(w, approve.purgedAt, approve.token);
    hide Purged;
  }

  lemma PollOf(settings: Settings, w: World, poll: Request, c: Challenge)
    requires settings.enabled && poll.Poll? && poll.token in w.store && w.store[poll.token] == c
    requires c.ip == poll.ip && poll.now <= c.ttl && c.status.Success?
    ensures Step(settings, w, poll).1 == Jwt(c.user, c.groups)
  {
  }

  // ---- The log keeps to the answers ----

  /** What the log notes of an answer. */
  function Deed(call: Request, r: Response): Option<Event> {
    match (call, r)
    case (Generate(token, user, ip, now), Created(_)) => Some(Generated(token, user, ip, now + 120))
    case (View(token, user, ip, _, _, _), ShowNonce(nonce)) => Some(Visited(token, user, ip, nonce))
    case (Approve(token, user, groups, ip, Some(presented), _, _), ApprovalNoted) =>
      Some(Event.Approved(token, user, ip, presented, groups))
    case (Poll(token, ip, now), Jwt(user, groups)) => Some(Issued(token, user, groups, ip, now))
    case _ => None
  }

  /** What the log notes of tokens taken away for their age. */
  function Takings(before: Store, after: Store): seq<Event> {
    var gone := before.Keys - after.Keys;
    if gone == {} then [] else [Removed(gone)]
  }

  lemma PurgeLog(w: World, now: int)
    ensures var p := Purged(w, now); p.log == w.log + Takings(w.store, p.store)
  {
    var p := Purged(w, now);
    forall t ensures t in ExpiredTokens(w.store, now) <==> t in w.store.Keys - p.store.Keys { PurgeIs(w, now, t); }
    assert ExpiredTokens(w.store, now) == w.store.Keys - p.store.Keys;
    assert w.log + [] == w.log;
  }

  /** The log gains what is to be noted of the answer, and before that what was taken away for its age. */
  lemma LogKeepsToAnswers(settings: Settings, w: World, call: Request)
    ensures var (n, r) := Step(settings, w, call);
      n.log == w.log + (if GivenTo(call, r, call.token) then [] else Takings(w.store, n.store))
                     + (if Deed(call, r).Some? then [Deed(call, r).value] else [])
  {
    var (n, r) := Step(settings, w, call);
    assert forall log: seq<Event> :: log + [] == log;
    if call.View? || call.Approve? {
      var p := Purged(w, call.purgedAt);
      PurgeLog(w, call.purgedAt);
      hide Purged;
      if n != w { assert n.store.Keys == p.store.Keys; }
    } else {
      assert call.Poll? && n != w ==> w.store.Keys - n.store.Keys == {call.token};
    }
  }

  lemma {:induction false} LoggedWasCalled(settings: Settings, calls: seq<Request>, e: Event)
    requires e in Run(settings, calls).log && e.Generated?
    ensures exists g: nat :: Makes(settings, calls, g, e.token)
  {
    if calls == [] {
    } else {
      var past, call := calls[..|calls| - 1], calls[|calls| - 1];
      assert calls == past + [call];
      RunStep(settings, past, call);
      LogKeepsToAnswers(settings, Run(settings, past), call);
      if e in Run(settings, past).log {
        LoggedWasCalled(settings, past, e);
        var g: nat :| Makes(settings, past, g, e.token);
        assert Makes(settings, calls, g, e.token);
      } else {
        assert Makes(settings, calls, |past|, e.token);
      }
    }
  }

  /** So where no token is drawn twice, all that is proved of the log holds. */
  lemma DrawnOnceIsFresh(settings: Settings, calls: seq<Request>)
    requires DrawnOnce(calls)
    ensures FreshRun(settings, calls)
  {
    forall k | 0 <= k < |calls| ensures FreshDraw(Run(settings, calls[..k]), calls[k]) {
      forall e | e in Run(settings, calls[..k]).log && e.Generated? && calls[k].Generate?
        ensures e.token != calls[k].token
      {
        LoggedWasCalled(settings, calls[..k], e);
      }
    }
  }
}
