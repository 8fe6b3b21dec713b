/** The challenge-token login protocol: one shared hash of challenges, four handlers, each taken as one atomic
    step. Tokens and nonces are drawn by the caller, and the clock is read by the caller. */
module Challenges {
  import opened Outcomes

  datatype Status = Pending | Success

  /** A stored challenge. `visited` and `nonce` appear with the first view, `groups` with an approval. */
  datatype Challenge = Challenge(ttl: int, ip: string, status: Status, user: string,
                                 visited: bool, nonce: Option<string>, groups: seq<string>)

  type Store = map<string, Challenge>

  const TTL_SECONDS := 120

  datatype Settings = Settings(enabled: bool, ipMustMatch: bool)

  datatype Request =
    | Generate(token: string, user: string, ip: string, now: int)
    | View(token: string, user: string, ip: string, nonce: string, purgedAt: int, now: int)
    | Approve(token: string, user: string, groups: seq<string>, ip: string, presented: Option<string>, purgedAt: int,
      now: int)
    | Poll(token: string, ip: string, now: int)

  datatype Response =
    | Disabled | Created(token: string) | NoChallenges | NotFound | Expired | WrongUser | AlreadyViewed | WrongIp
    | ShowNonce(nonce: string) | NonceMissing | WrongNonce | ApprovalNoted
    | Waiting(status: Status) | Jwt(user: string, groups: seq<string>)

  /** What happened, as the log of a run records it. */
  datatype Event =
    | Generated(token: string, user: string, ip: string, ttl: int)
    | Visited(token: string, user: string, ip: string, nonce: string)
    | Approved(token: string, user: string, ip: string, presented: string, groups: seq<string>)
    | Issued(token: string, user: string, groups: seq<string>, ip: string, now: int)
    | Removed(tokens: set<string>)

  datatype World = World(store: Store, log: seq<Event>)

  function ExpiredTokens(store: Store, now: int): set<string> {
    set t | t in store && store[t].ttl < now
  }

  /** `delete_expired_challenges`. */
  function Purged(w: World, now: int): World {
    var expired := ExpiredTokens(w.store, now);
    if expired == {} then w else World(w.store - expired, w.log + [Removed(expired)])
  }

  /** `retrieve_user_challenge`. */
  function Retrieved(store: Store, token: string, user: string, now: int): (r: Outcome)
    ensures r.Found? ==> token in store && r.challenge == store[token]
  {
    if token !in store then Refused(NotFound)
    else if store[token].ttl < now then Refused(Expired)
    else if user != store[token].user then Refused(WrongUser)
    else Found(store[token])
  }

  datatype Outcome = Found(challenge: Challenge) | Refused(response: Response)

  /** One handler call, as a function of the state and the request. */
  function Step(settings: Settings, w: World, req: Request): (World, Response) {
    if !settings.enabled then (w, Disabled)
    else
      match req
      case Generate(token, user, ip, now) =>
        (World(w.store[token := Challenge(now + TTL_SECONDS, ip, Pending, user, false, None, [])],
               w.log + [Generated(token, user, ip, now + TTL_SECONDS)]), Created(token))
      case View(token, user, ip, nonce, purgedAt, now) =>
        if w.store == map[] then (w, NoChallenges)
        else
          var p := Purged(w, purgedAt);
          (match Retrieved(p.store, token, user, now)
           case Refused(response) => (p, response)
           case Found(c) =>
             if c.visited then (p, AlreadyViewed)
             else if settings.ipMustMatch && ip != c.ip then (p, WrongIp)
             else (World(p.store[token := c.(visited := true, nonce := Some(nonce))],
                         p.log + [Visited(token, user, ip, nonce)]),
                   ShowNonce(nonce)))
      case Approve(token, user, groups, ip, presented, purgedAt, now) =>
        if w.store == map[] then (w, NoChallenges)
        else
          var p := Purged(w, purgedAt);
          (match Retrieved(p.store, token, user, now)
           case Refused(response) => (p, NotFound)
           case Found(c) =>
             if c.nonce.None? then (p, NonceMissing)
             else if presented != c.nonce then (p, WrongNonce)
             else if settings.ipMustMatch && ip != c.ip then (p, WrongIp)
             else (World(p.store[token := c.(status := Success, user := user, groups := groups)],
                         p.log + [Approved(token, user, ip, c.nonce.value, groups)]), ApprovalNoted))
      case Poll(token, ip, now) =>
        if token !in w.store then (w, NotFound)
        else
          var c := w.store[token];
          if c.ttl < now then (World(w.store - {token}, w.log + [Removed({token})]), Expired)
          else if ip != c.ip then (w, WrongIp)
          else if c.status.Success? then
            (World(w.store - {token}, w.log + [Issued(token, c.user, c.groups, ip, now)]), Jwt(c.user, c.groups))
          else (w, Waiting(c.status))
  }

  /** The hash and the handlers that share it. */
  class ChallengeService {
    var challenges: Store
    const settings: Settings
    ghost var log: seq<Event>

    constructor (settings: Settings)
      ensures this.settings == settings && World(challenges, log) == World(map[], [])
    {
      this.settings, challenges, log := settings, map[], [];
    }

    ghost function State(): World
      reads this
    {
      World(challenges, log)
    }

    method DeleteExpiredChallenges(now: int)
      modifies this
      ensures State() == Purged(old(State()), now)
      ensures forall t :: t in challenges <==> t in old(challenges) && now <= old(challenges)[t].ttl
      ensures forall t :: t in challenges ==> challenges[t] == old(challenges)[t]
    {
      var rest, expired := challenges.Keys, {};
      while rest != {}
        invariant rest <= challenges.Keys && expired == ExpiredTokens(challenges, now) - rest
        decreases rest
      {
        var token :| token in rest;
        if challenges[token].ttl < now { expired := expired + {token}; }
        rest := rest - {token};
      }
      assert expired == ExpiredTokens(challenges, now);
      if expired != {} {
        challenges, log := challenges - expired, log + [Removed(expired)];
      }
    }

    method RetrieveUserChallenge(token: string, user: string, now: int) returns (r: Outcome)
      ensures r == Retrieved(challenges, token, user, now)
      ensures r.Found? <==>
                token in challenges && now <= challenges[token].ttl && user == challenges[token].user
    {
      if token !in challenges { return Refused(NotFound); }
      var challenge := challenges[token];
      if challenge.ttl < now { return Refused(Expired); }
      if user != challenge.user { return Refused(WrongUser); }
      return Found(challenge);
    }

    /** `ChallengeGeneratorHandler.get`. */
    method GenerateChallenge(token: string, user: string, ip: string, now: int) returns (r: Response)
      modifies this
      ensures (State(), r) == Step(settings, old(State()), Generate(token, user, ip, now))
    {
      if !settings.enabled { return Disabled; }
      var entry := Challenge(now + TTL_SECONDS, ip, Pending, user, false, None, []);
      challenges, log := challenges[token := entry], log + [Generated(token, user, ip, entry.ttl)];
      return Created(token);
    }

    /** `ChallengeValidatorHandler.get`. */
    method ViewChallenge(token: string, user: string, ip: string, nonce: string, purgedAt: int, now: int)
        returns (r: Response)
      modifies this
      ensures (State(), r) == Step(settings, old(State()), View(token, user, ip, nonce, purgedAt, now))
    {
      if !settings.enabled { return Disabled; }
      if challenges == map[] { return NoChallenges; }
      DeleteExpiredChallenges(purgedAt);
      var found := RetrieveUserChallenge(token, user, now);
      if found.Refused? { return found.response; }
      var challenge := found.challenge;
      if challenge.visited { return AlreadyViewed; }
      if settings.ipMustMatch {
        if ip != challenge.ip { return WrongIp; }
      }
      challenge := challenge.(visited := true);
      challenge := challenge.(nonce := Some(nonce));
      challenges, log := challenges[token := challenge], log + [Visited(token, user, ip, nonce)];
      return ShowNonce(nonce);
    }

    /** `ChallengeValidatorHandler.post`. */
    method ApproveChallenge(token: string, user: string, groups: seq<string>, ip: string, presented: Option<string>,
        purgedAt: int, now: int)
      returns (r: Response)
      modifies this
      ensures (State(), r) == Step(settings, old(State()), Approve(token, user, groups, ip, presented, purgedAt, now))
    {
      if !settings.enabled { return Disabled; }
      if challenges == map[] { return NoChallenges; }
      DeleteExpiredChallenges(purgedAt);
      var found := RetrieveUserChallenge(token, user, now);
      if found.Refused? { return NotFound; }
      var challenge := found.challenge;
      if challenge.nonce.None? { return NonceMissing; }
      if presented != challenge.nonce { return WrongNonce; }
      if settings.ipMustMatch {
        if ip != challenge.ip { return WrongIp; }
      }
      challenge := challenge.(status := Success);
      challenge := challenge.(user := user);
      challenge := challenge.(groups := groups);
      challenges, log :=
        challenges[token := challenge], log + [Approved(token, user, ip, challenge.nonce.value, groups)];
      return ApprovalNoted;
    }

    /** `ChallengePollerHandler.get`. */
    method PollChallenge(token: string, ip: string, now: int) returns (r: Response)
      modifies this
      ensures (State(), r) == Step(settings, old(State()), Poll(token, ip, now))
    {
      if !settings.enabled { return Disabled; }
      if token !in challenges { return NotFound; }
      var challenge := challenges[token];
      if challenge.ttl < now {
        challenges, log := challenges - {token}, log + [Removed({token})];
        return Expired;
      }
      if ip != challenge.ip { return WrongIp; }
      if challenge.status.Success? {
        challenges, log := challenges - {token}, log + [Issued(token, challenge.user, challenge.groups, ip, now)];
        return Jwt(challenge.user, challenge.groups);
      }
      return Waiting(challenge.status);
    }
  }
}
