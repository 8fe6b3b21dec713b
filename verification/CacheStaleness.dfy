/** How old the answers of the two-tier cache can be, over every run. */
module CacheStaleness {
  import opened Outcomes
  import opened TieredCache

  /** A producer stores data the moment it is produced; a reader asks. */
  datatype Operation =
    | Produce(payload: string, redisKey: string, location: string, now: int)
    | Read(q: Query, clock: Clock)

  function Step(t: Tiers, op: Operation): Tiers {
    match op
    case Produce(payload, redisKey, location, now) => Stored(t, Data(payload, now), redisKey, location, now)
    case Read(q, clock) => Retrieved(t, q, clock).0
  }

  function Begin(op: Operation): int {
    match op
    case Produce(_, _, _, now) => now
    case Read(_, clock) => clock.redisCheck
  }

  function End(op: Operation): int {
    match op
    case Produce(_, _, _, now) => now
    case Read(_, clock) => clock.stored
  }

  /** Time passes forwards, through every call and from call to call; and a reader takes at most `delay` from
      checking the age of an S3 object to stamping it anew. */
  ghost predicate Timely(ops: seq<Operation>, delay: int) {
    (forall k :: 0 <= k < |ops| && ops[k].Read? ==>
      var c := ops[k].clock; c.redisCheck <= c.s3Check <= c.stored <= c.s3Check + delay) &&
    (forall j, k :: 0 <= j < k < |ops| ==> End(ops[j]) <= Begin(ops[k]))
  }

  /** A reader that stores in Redis what it took from S3. */
  predicate Recaches(q: Query) {
    q.recache && q.location != ""
  }

  /** Re-caching makes data look younger than it is by at most `slack`: what is taken from S3 is of an age checked. */
  predicate Delays(q: Query, slack: int, delay: int) {
    Recaches(q) ==> 0 < q.maxAge && q.maxAge + delay <= slack
  }

  ghost predicate AllDelay(ops: seq<Operation>, key: string, slack: int, delay: int) {
    forall k :: 0 <= k < |ops| && ops[k].Read? && ops[k].q.redisKey == key ==> Delays(ops[k].q, slack, delay)
  }

  function Run(ops: seq<Operation>): Tiers {
    if ops == [] then Tiers(map[], map[], map[]) else Step(Run(ops[..|ops| - 1]), ops[|ops| - 1])
  }

  /** S3 stamps are production times; a Redis stamp of the key lies at most `slack` after production. */
  ghost predicate Fresh(t: Tiers, key: string, slack: int) {
    && (forall l :: l in t.objects ==> t.objects[l].data.born == t.objects[l].lastUpdated)
    && (key in t.redis ==> key in t.stamps)
    && (key in t.redis && t.redis[key].payload != "" ==> t.stamps[key] - t.redis[key].born <= slack)
  }

  lemma StepKeepsFresh(t: Tiers, op: Operation, key: string, slack: int, delay: int)
    requires Fresh(t, key, slack) && key != "" && slack >= 0
    requires op.Read? ==> op.clock.stored <= op.clock.s3Check + delay
    requires op.Read? && op.q.redisKey == key ==> Delays(op.q, slack, delay)
    ensures Fresh(Step(t, op), key, slack)
  {
  }

  lemma {:induction false} RunKeepsFresh(ops: seq<Operation>, n: nat, key: string, slack: int, delay: int)
    requires Timely(ops, delay) && AllDelay(ops, key, slack, delay) && key != "" && slack >= 0 && n <= |ops|
    ensures Fresh(Run(ops[..n]), key, slack)
  {
    if n == 0 {
    } else {
      RunKeepsFresh(ops, n - 1, key, slack, delay);
      assert ops[..n][..n - 1] == ops[..n - 1];
      StepKeepsFresh(Run(ops[..n - 1]), ops[n - 1], key, slack, delay);
    }
  }

  /** What the `k`-th operation of a run, a read, answers. */
  function Answer(ops: seq<Operation>, k: nat): Result<Served>
    requires k < |ops| && ops[k].Read?
  {
    Retrieved(Run(ops[..k]), ops[k].q, ops[k].clock).1
  }

  /** The `k`-th operation is a reader of the key that sets a maximal age, and is given data. */
  ghost predicate GivenData(ops: seq<Operation>, k: nat, key: string) {
    && k < |ops| && ops[k].Read? && ops[k].q.redisKey == key && ops[k].q.maxAge > 0
    && Answer(ops, k).Ok? && Answer(ops, k).value.data.payload != "" && !Answer(ops, k).value.source.Default?
  }

  /** How long before the reader looked the data it is given was produced. */
  function Age(ops: seq<Operation>, k: nat): int
    requires k < |ops| && ops[k].Read? && Answer(ops, k).Ok?
  {
    var c, a := ops[k].clock, Answer(ops, k).value;
    (if a.source.S3? then c.s3Check else c.redisCheck) - a.data.born
  }

  /** The staleness bound. What a reader is given is older than its own maximal age by at most the slack: the greatest
      maximal age of a reader that re-caches, and the delay of one call. Straight from S3 it is not older at all. With
      one maximal age for all, that is twice that age and the delay. */
  lemma StalenessIsBounded(ops: seq<Operation>, k: nat, key: string, slack: int, delay: int)
    requires Timely(ops, delay) && AllDelay(ops, key, slack, delay) && key != "" && slack >= 0
    requires GivenData(ops, k, key)
    ensures Age(ops, k) <= ops[k].q.maxAge + if Answer(ops, k).value.source.S3? then 0 else slack
  {
    RunKeepsFresh(ops, k, key, slack, delay);
  }

  lemma RunOfThree(ops: seq<Operation>)
    requires |ops| == 3
    ensures Run(ops[..2]) == Step(Step(Tiers(map[], map[], map[]), ops[0]), ops[1])
  {
    var one, two := ops[..1], ops[..2];
    assert one[..0] == [] && two[..1] == one;
    assert Run(one) == Step(Run([]), ops[0]);
    assert Run(two) == Step(Run(one), ops[1]);
  }

  /** The run behind the worst case: produced at 0 into S3 alone, re-cached by one reader at time `late`, read by
      another from Redis at the last moment. */
  function WorstRun(recacher: Query, reader: Query, late: int, delay: int): seq<Operation> {
    var last := late + delay + reader.maxAge;
    [Produce("x", "", recacher.location, 0),
     Read(recacher, Clock(late, late, late + delay)),
     Read(reader, Clock(last, last, last))]
  }

  lemma WorstRunIsOld(recacher: Query, reader: Query, late: int, delay: int)
    requires reader.redisKey == recacher.redisKey != "" && Recaches(recacher) && reader.maxAge > 0 && delay >= 0
    requires late >= 0 && (recacher.maxAge > 0 ==> late <= recacher.maxAge)
    ensures var ops := WorstRun(recacher, reader, late, delay);
      && Timely(ops, delay) && GivenData(ops, 2, reader.redisKey) && Answer(ops, 2).value.source.Redis?
      && Age(ops, 2) == reader.maxAge + late + delay
  {
    var ops := WorstRun(recacher, reader, late, delay);
    RunOfThree(ops);
    var key := reader.redisKey;
    var t1 := Step(Tiers(map[], map[], map[]), ops[0]);
    assert t1.objects[recacher.location] == Object(0, Data("x", 0)) && key !in t1.redis;
    var t2 := Step(t1, ops[1]);
    assert t2.redis[key] == Data("x", 0) && t2.stamps[key] == late + delay;
  }

  /** The bound is attained: for every reader and every re-caching one. */
  lemma BoundIsAttained(recacher: Query, reader: Query, delay: int)
    requires reader.redisKey == recacher.redisKey != "" && Recaches(recacher) && delay >= 0
    requires recacher.maxAge > 0 && reader.maxAge > 0
    ensures var ops := WorstRun(recacher, reader, recacher.maxAge, delay);
      && Timely(ops, delay) && GivenData(ops, 2, reader.redisKey)
      && Age(ops, 2) == reader.maxAge + (recacher.maxAge + delay)
  {
    WorstRunIsOld(recacher, reader, recacher.maxAge, delay);
  }

  /** One reader that re-caches without a maximal age voids the bound: another, whatever it allows, can be given data of
      any age. */
  lemma UncheckedReaderVoidsTheBound(recacher: Query, reader: Query, age: nat)
    requires reader.redisKey == recacher.redisKey != "" && Recaches(recacher)
    requires recacher.maxAge == 0 && reader.maxAge > 0
    ensures var ops := WorstRun(recacher, reader, age, 0);
      Timely(ops, 0) && GivenData(ops, 2, reader.redisKey) && Age(ops, 2) == reader.maxAge + age
  {
    WorstRunIsOld(recacher, reader, age, 0);
  }

  // ---- Exactly when there is a bound ----

  /** Only readers of the set read the key. */
  ghost predicate ReadBy(ops: seq<Operation>, key: string, readers: set<Query>) {
    forall k :: 0 <= k < |ops| && ops[k].Read? && ops[k].q.redisKey == key ==> ops[k].q in readers
  }

  /** In every run of these readers, data given to a reader is older than its own maximal age by at most `slack`. */
  ghost predicate Within(readers: set<Query>, key: string, slack: int, delay: int) {
    forall ops: seq<Operation>, k: nat :: Timely(ops, delay) && ReadBy(ops, key, readers) && GivenData(ops, k, key) ==>
      Age(ops, k) <= ops[k].q.maxAge + slack
  }

  /** A reader of the key that sets a maximal age. */
  ghost predicate SomeoneChecks(readers: set<Query>, key: string) {
    exists q :: q in readers && q.redisKey == key && q.maxAge > 0
  }

  /** The bound is exact: readers of a key are given data at most `slack` older than they allow, over all their runs, if
      and only if every one of them that re-caches sets a maximal age that leaves room for one call within the slack. */
  lemma WithinIff(readers: set<Query>, key: string, slack: int, delay: int)
    requires key != "" && delay >= 0 && SomeoneChecks(readers, key)
    ensures Within(readers, key, slack, delay) <==>
              slack >= 0 && forall q :: q in readers && q.redisKey == key ==> Delays(q, slack, delay)
  {
    var reader :| reader in readers && reader.redisKey == key && reader.maxAge > 0;
    if Within(readers, key, slack, delay) {
      NoSlackIsAttained(reader);
      var one := FreshRun(reader);
      assert Timely(one, delay) && ReadBy(one, key, readers) && GivenData(one, 1, key);
      forall q | q in readers && q.redisKey == key ensures Delays(q, slack, delay) {
        if Recaches(q) {
          var late := if q.maxAge > 0 then q.maxAge as int else slack + 1;
          WorstRunIsOld(q, reader, late, delay);
          var ops := WorstRun(q, reader, late, delay);
          assert ReadBy(ops, key, readers) && GivenData(ops, 2, key);
        }
      }
    }
    if slack >= 0 && forall q :: q in readers && q.redisKey == key ==> Delays(q, slack, delay) {
      forall ops: seq<Operation>, k: nat | Timely(ops, delay) && ReadBy(ops, key, readers) && GivenData(ops, k, key)
        ensures Age(ops, k) <= ops[k].q.maxAge + slack
      {
        StalenessIsBounded(ops, k, key, slack, delay);
      }
    }
  }

  /** Produced into Redis and read there at the last moment. */
  function FreshRun(reader: Query): seq<Operation> {
    [Produce("x", reader.redisKey, "", 0), Read(reader, Clock(reader.maxAge, reader.maxAge, reader.maxAge))]
  }

  lemma NoSlackIsAttained(reader: Query)
    requires reader.redisKey != "" && reader.maxAge > 0
    ensures var ops := FreshRun(reader);
      Timely(ops, 0) && GivenData(ops, 1, reader.redisKey) && Age(ops, 1) == reader.maxAge
  {
    var ops := FreshRun(reader);
    assert ops[..1][..0] == [] && Run(ops[..1]) == Step(Run([]), ops[0]);
  }

  /** So readers are given nothing older than they allow if and only if none of them re-caches. */
  lemma OwnAgeSufficesIff(readers: set<Query>, key: string, delay: int)
    requires key != "" && delay >= 0 && SomeoneChecks(readers, key)
    ensures Within(readers, key, 0, delay) <==> forall q :: q in readers && q.redisKey == key ==> !Recaches(q)
  {
    WithinIff(readers, key, 0, delay);
  }

  lemma {:induction false} GreatestAge(readers: set<Query>) returns (most: nat)
    ensures forall q :: q in readers ==> q.maxAge <= most
  {
    most := 0;
    if readers == {} {
    } else {
      var q :| q in readers;
      most := GreatestAge(readers - {q});
      if most < q.maxAge { most := q.maxAge; }
    }
  }

  /** And there is a bound at all if and only if none of them re-caches without a maximal age. */
  lemma SomeBoundIff(readers: set<Query>, key: string, delay: int)
    requires key != "" && delay >= 0 && SomeoneChecks(readers, key)
    ensures (exists slack :: Within(readers, key, slack, delay)) <==>
              forall q :: q in readers && q.redisKey == key && Recaches(q) ==> q.maxAge > 0
  {
    if slack :| Within(readers, key, slack, delay) { WithinIff(readers, key, slack, delay); }
    if forall q :: q in readers && q.redisKey == key && Recaches(q) ==> q.maxAge > 0 {
      var most := GreatestAge(readers);
      WithinIff(readers, key, most + delay, delay);
    }
  }
}
