/** What a reader of the two-tier cache is given, over every run: which write it goes back to, and when it is served
    from which tier, given its default or refused. Nothing here speaks of the tiers themselves. */
module CacheContents {
  import opened CacheStaleness
  import opened Outcomes
  import opened TieredCache

  /** Operation `j` stored data produced then at the location. */
  predicate ProducesAt(ops: seq<Operation>, j: nat, location: string) {
    j < |ops| && ops[j].Produce? && ops[j].location == location
  }

  /** Operation `j` put data under the key: produced then, or taken from S3 and re-cached. */
  predicate WritesTo(ops: seq<Operation>, j: nat, key: string) {
    j < |ops| &&
    match ops[j]
    case Produce(_, redisKey, _, _) => redisKey == key
    case Read(q, _) =>
      q.redisKey == key && q.recache && Answer(ops, j).Ok? && Answer(ops, j).value.source.S3?
  }

  /** The data put under the key by operation `j`. */
  function Written(ops: seq<Operation>, j: nat, key: string): Data
    requires WritesTo(ops, j, key)
  {
    match ops[j]
    case Produce(payload, _, _, now) => Data(payload, now)
    case Read(_, _) => Answer(ops, j).value.data
  }

  /** When it was put there. */
  function WrittenAt(ops: seq<Operation>, j: nat): int
    requires j < |ops|
  {
    match ops[j]
    case Produce(_, _, _, now) => now
    case Read(_, clock) => clock.stored
  }

  /** Before operation `n`, operation `j` was the last to store data at the location. */
  ghost predicate LastProduced(ops: seq<Operation>, n: nat, location: string, j: nat) {
    j < n && ProducesAt(ops, j, location) && forall i: nat :: j < i < n ==> !ProducesAt(ops, i, location)
  }

  ghost predicate NeverProduced(ops: seq<Operation>, n: nat, location: string) {
    forall i: nat :: i < n ==> !ProducesAt(ops, i, location)
  }

  /** Before operation `n`, operation `j` was the last to put data under the key. */
  ghost predicate LastWritten(ops: seq<Operation>, n: nat, key: string, j: nat) {
    j < n && WritesTo(ops, j, key) && forall i: nat :: j < i < n ==> !WritesTo(ops, i, key)
  }

  ghost predicate NeverWritten(ops: seq<Operation>, n: nat, key: string) {
    forall i: nat :: i < n ==> !WritesTo(ops, i, key)
  }

  // ---- What the tiers hold ----

  /** S3 holds what was produced last, with the time of its production. */
  ghost predicate S3IsLast(ops: seq<Operation>, n: nat, location: string)
    requires n <= |ops|
  {
    var objects := Run(ops[..n]).objects;
    && (location !in objects <==> NeverProduced(ops, n, location))
    && (location in objects ==>
         exists j: nat :: LastProduced(ops, n, location, j)
                          && objects[location] == Object(ops[j].now, Data(ops[j].payload, ops[j].now)))
  }

  /** Redis holds what was written last, with the time of writing. */
  ghost predicate RedisIsLast(ops: seq<Operation>, n: nat, key: string)
    requires n <= |ops|
  {
    var t := Run(ops[..n]);
    && (key in t.redis <==> key in t.stamps)
    && (key !in t.redis <==> NeverWritten(ops, n, key))
    && (key in t.redis ==>
         exists j: nat :: LastWritten(ops, n, key, j)
                          && t.redis[key] == Written(ops, j, key) && t.stamps[key] == WrittenAt(ops, j))
  }

  lemma RunStep(ops: seq<Operation>, n: nat)
    requires n < |ops|
    ensures Run(ops[..n + 1]) == Step(Run(ops[..n]), ops[n])
  {
    assert ops[..n + 1][..n] == ops[..n];
  }

  lemma {:induction false} S3HoldsLastProduced(ops: seq<Operation>, n: nat, location: string)
    requires n <= |ops| && location != ""
    ensures S3IsLast(ops, n, location)
  {
    if n == 0 {
    } else {
      S3HoldsLastProduced(ops, n - 1, location);
      RunStep(ops, n - 1);
      hide Run;
      if ProducesAt(ops, n - 1, location) {
        assert LastProduced(ops, n, location, n - 1);
      } else {
        assert forall j: nat :: LastProduced(ops, n - 1, location, j) ==> LastProduced(ops, n, location, j);
      }
    }
  }

  /** What one operation does under one key. */
  lemma StepUnder(t: Tiers, op: Operation, key: string)
    requires key != "" && (key in t.redis <==> key in t.stamps)
    ensures var n := Step(t, op);
      match op
      case Produce(payload, redisKey, _, now) =>
        if redisKey == key then Holds(n, key, Data(payload, now), now) else SameUnder(t, n, key)
      case Read(q, clock) =>
        var r := Retrieved(t, q, clock).1;
        if q.redisKey == key && q.recache && r.Ok? && r.value.source.S3? then Holds(n, key, r.value.data, clock.stored)
        else SameUnder(t, n, key)
  {
  }

  predicate Holds(t: Tiers, key: string, data: Data, stamp: int) {
    key in t.redis && key in t.stamps && t.redis[key] == data && t.stamps[key] == stamp
  }

  predicate SameUnder(t: Tiers, n: Tiers, key: string) {
    && (key in t.redis <==> key in n.redis) && (key in t.stamps <==> key in n.stamps)
    && (key in t.redis && key in t.stamps ==> Holds(n, key, t.redis[key], t.stamps[key]))
  }

  lemma {:induction false} RedisHoldsLastWritten(ops: seq<Operation>, n: nat, key: string)
    requires n <= |ops| && key != ""
    ensures RedisIsLast(ops, n, key)
  {
    if n == 0 {
    } else {
      RedisHoldsLastWritten(ops, n - 1, key);
      RunStep(ops, n - 1);
      StepUnder(Run(ops[..n - 1]), ops[n - 1], key);
      LastWriteAfter(ops, n - 1, key);
      if WritesTo(ops, n - 1, key) {
        assert Holds(Run(ops[..n]), key, Written(ops, n - 1, key), WrittenAt(ops, n - 1));
      } else {
        assert SameUnder(Run(ops[..n - 1]), Run(ops[..n]), key);
      }
      hide Run, Step, Retrieved, WritesTo, LastWritten, NeverWritten;
    }
  }

  /** The last write after one more operation. */
  lemma LastWriteAfter(ops: seq<Operation>, n: nat, key: string)
    requires n < |ops|
    ensures NeverWritten(ops, n + 1, key) <==> NeverWritten(ops, n, key) && !WritesTo(ops, n, key)
    ensures forall j: nat :: LastWritten(ops, n + 1, key, j) <==>
              if WritesTo(ops, n, key) then j == n else LastWritten(ops, n, key, j)
  {
    hide WritesTo;
    forall j: nat ensures LastWritten(ops, n + 1, key, j) <==>
              if WritesTo(ops, n, key) then j == n else LastWritten(ops, n, key, j)
    {
    }
  }

  // ---- What a reader is given ----

  /** There is data under the reader's key, and none newer. */
  ghost predicate FindsInRedis(ops: seq<Operation>, k: nat, data: Data, stamp: int)
    requires k < |ops| && ops[k].Read?
  {
    var key := ops[k].q.redisKey;
    key != "" &&
    exists j: nat :: LastWritten(ops, k, key, j) && data == Written(ops, j, key) && stamp == WrittenAt(ops, j)
  }

  ghost predicate SomeInRedis(ops: seq<Operation>, k: nat, data: Data)
    requires k < |ops| && ops[k].Read?
  {
    exists stamp :: FindsInRedis(ops, k, data, stamp)
  }

  /** There is data at the reader's location, and none newer. */
  ghost predicate FindsInS3(ops: seq<Operation>, k: nat, data: Data)
    requires k < |ops| && ops[k].Read?
  {
    var location := ops[k].q.location;
    location != "" && exists j: nat :: LastProduced(ops, k, location, j) && data == Data(ops[j].payload, ops[j].now)
  }

  /** Nothing was ever stored at the reader's location. */
  ghost predicate NothingInS3(ops: seq<Operation>, k: nat)
    requires k < |ops| && ops[k].Read?
  {
    ops[k].q.location != "" && NeverProduced(ops, k, ops[k].q.location)
  }

  predicate TooOld(q: Query, age: int) {
    q.maxAge > 0 && age > q.maxAge
  }

  /** Redis has data for the reader that is not empty and not too old for it. */
  ghost predicate RedisServes(ops: seq<Operation>, k: nat, data: Data)
    requires k < |ops| && ops[k].Read?
  {
    exists stamp :: FindsInRedis(ops, k, data, stamp) && data.payload != ""
                    && !TooOld(ops[k].q, ops[k].clock.redisCheck - stamp)
  }

  /** Redis has data for the reader, but too old. */
  ghost predicate RedisIsStale(ops: seq<Operation>, k: nat)
    requires k < |ops| && ops[k].Read?
  {
    exists data, stamp :: FindsInRedis(ops, k, data, stamp) && data.payload != ""
                          && TooOld(ops[k].q, ops[k].clock.redisCheck - stamp)
  }

  lemma FindsInRedisIff(ops: seq<Operation>, k: nat, data: Data, stamp: int)
    requires k < |ops| && ops[k].Read?
    ensures FindsInRedis(ops, k, data, stamp) <==>
              ops[k].q.redisKey != "" && Holds(Run(ops[..k]), ops[k].q.redisKey, data, stamp)
  {
    var key := ops[k].q.redisKey;
    if key != "" {
      RedisHoldsLastWritten(ops, k, key);
      if key in Run(ops[..k]).redis {
        var j: nat :| LastWritten(ops, k, key, j) && Run(ops[..k]).redis[key] == Written(ops, j, key)
                      && Run(ops[..k]).stamps[key] == WrittenAt(ops, j);
        assert forall i: nat :: LastWritten(ops, k, key, i) ==> i == j;
      }
    }
  }

  lemma FindsInS3Iff(ops: seq<Operation>, k: nat, data: Data)
    requires k < |ops| && ops[k].Read?
    ensures var location, objects := ops[k].q.location, Run(ops[..k]).objects;
      && (FindsInS3(ops, k, data) <==>
           location != "" && location in objects && objects[location] == Object(data.born, data))
      && (location != "" && location in objects ==> objects[location].lastUpdated == objects[location].data.born)
      && (NothingInS3(ops, k) <==> location != "" && location !in objects)
  {
    var location := ops[k].q.location;
    if location != "" {
      S3HoldsLastProduced(ops, k, location);
      if location in Run(ops[..k]).objects {
        var j: nat :| LastProduced(ops, k, location, j)
                      && Run(ops[..k]).objects[location] == Object(ops[j].now, Data(ops[j].payload, ops[j].now));
        assert forall i: nat :: LastProduced(ops, k, location, i) ==> i == j;
      }
    }
  }

  lemma ServesIff(ops: seq<Operation>, k: nat)
    requires k < |ops| && ops[k].Read?
    ensures var t, q, now := Run(ops[..k]), ops[k].q, ops[k].clock.redisCheck;
      var there := q.redisKey != "" && q.redisKey in t.redis;
      && (there ==> q.redisKey in t.stamps)
      && (forall data :: SomeInRedis(ops, k, data) <==> there && t.redis[q.redisKey] == data)
      && (forall data :: RedisServes(ops, k, data) <==>
           there && t.redis[q.redisKey] == data && data.payload != "" && !TooOld(q, now - t.stamps[q.redisKey]))
      && (RedisIsStale(ops, k) <==>
           there && t.redis[q.redisKey].payload != "" && TooOld(q, now - t.stamps[q.redisKey]))
  {
    var t, q := Run(ops[..k]), ops[k].q;
    if q.redisKey != "" { RedisHoldsLastWritten(ops, k, q.redisKey); }
    forall data, stamp
      ensures FindsInRedis(ops, k, data, stamp) <==> q.redisKey != "" && Holds(t, q.redisKey, data, stamp)
    {
      FindsInRedisIff(ops, k, data, stamp);
    }
    hide Run, FindsInRedis;
    if q.redisKey != "" && q.redisKey in t.redis {
      assert FindsInRedis(ops, k, t.redis[q.redisKey], t.stamps[q.redisKey]);
    }
  }

  /** Exactly how a read ends. From Redis: with what was written there last, if that is neither empty nor too old; an
      empty one only if there is no S3 to turn to. From S3, failing that: with what was produced there last, if that is
      empty or not too old. With the default, or for want of one an exception, only where nothing is found; refused as
      expired where all that is found is too old. */
  lemma ReadEndsIff(ops: seq<Operation>, k: nat)
    requires k < |ops| && ops[k].Read?
    ensures var r, q, clock := Answer(ops, k), ops[k].q, ops[k].clock;
      var fromRedis := exists data :: RedisServes(ops, k, data);
      var emptyHanded := q.location == "" && forall data :: !SomeInRedis(ops, k, data);
      && (forall data :: r == Ok(Served(data, Redis)) <==>
           RedisServes(ops, k, data)
           || (q.location == "" && data.payload == "" && SomeInRedis(ops, k, data)))
      && (forall data :: r == Ok(Served(data, S3)) <==>
           !fromRedis && FindsInS3(ops, k, data) && (data.payload == "" || !TooOld(q, clock.s3Check - data.born)))
      && (forall data :: r == Ok(Served(data, Default)) <==>
           !fromRedis && (emptyHanded || NothingInS3(ops, k)) && q.default == Some(data))
      && (r == Err(DataNotRetrievable) <==> emptyHanded && q.default.None?)
      && (r == Err(NoSuchObject) <==> !fromRedis && NothingInS3(ops, k) && q.default.None?)
      && (r == Err(ExpiredData) <==>
           || (q.location == "" && RedisIsStale(ops, k))
           || (!fromRedis && exists data :: FindsInS3(ops, k, data) && data.payload != ""
                                            && TooOld(q, clock.s3Check - data.born)))
      && (r.Err? ==> r.error in {DataNotRetrievable, NoSuchObject, ExpiredData})
  {
    ServesIff(ops, k);
    forall data { FindsInS3Iff(ops, k, data); }
    FindsInS3Iff(ops, k, Data("", 0));
    hide Run, SomeInRedis, RedisServes, RedisIsStale, FindsInS3, NothingInS3;
    var t, q := Run(ops[..k]), ops[k].q;
    if q.location != "" && q.location in t.objects { assert FindsInS3(ops, k, t.objects[q.location].data); }
    if q.redisKey != "" && q.redisKey in t.redis {
      assert SomeInRedis(ops, k, t.redis[q.redisKey]);
    }
  }

  /** The data was produced by operation `j`, and at the time it says. */
  predicate ProducedBy(ops: seq<Operation>, j: nat, data: Data) {
    j < |ops| && ops[j].Produce? && data == Data(ops[j].payload, ops[j].now)
  }

  /** Nothing is made up: what is served from Redis or S3 was produced before, and then. */
  lemma ServedWasProduced(ops: seq<Operation>, k: nat)
    requires k < |ops| && ops[k].Read? && Answer(ops, k).Ok? && !Answer(ops, k).value.source.Default?
    ensures exists j: nat :: j < k && ProducedBy(ops, j, Answer(ops, k).value.data)
  {
    var data := Answer(ops, k).value.data;
    ReadEndsIff(ops, k);
    if Answer(ops, k).value.source.S3? {
      FromS3WasProduced(ops, k, data);
    } else {
      var stamp :| FindsInRedis(ops, k, data, stamp);
      var j: nat :| LastWritten(ops, k, ops[k].q.redisKey, j) && data == Written(ops, j, ops[k].q.redisKey);
      if ops[j].Produce? {
        assert ProducedBy(ops, j, data);
      } else {
        ReadEndsIff(ops, j);
        FromS3WasProduced(ops, j, data);
      }
    }
  }

  lemma FromS3WasProduced(ops: seq<Operation>, k: nat, data: Data)
    requires k < |ops| && ops[k].Read? && FindsInS3(ops, k, data)
    ensures exists j: nat :: j < k && ProducedBy(ops, j, data)
  {
    var j: nat :| LastProduced(ops, k, ops[k].q.location, j) && data == Data(ops[j].payload, ops[j].now);
    assert ProducedBy(ops, j, data);
  }
}
