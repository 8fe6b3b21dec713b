/** The two-tier cache: Redis over S3. Data carries the time it was produced, which the code never sees. */
module TieredCache {
  import opened Outcomes

  /** Empty data is falsy. */
  datatype Data = Data(payload: string, born: int)

  datatype Object = Object(lastUpdated: int, data: Data)

  /** Redis values under their keys, the hash of their last update times, and S3 objects under bucket and key. */
  datatype Tiers = Tiers(redis: map<string, Data>, stamps: map<string, int>, objects: map<string, Object>)

  datatype Source = Redis | S3 | Default

  datatype Served = Served(data: Data, source: Source)

  /** What a reader passes. An absent key or location is "", an absent `max_age` is 0. */
  datatype Query = Query(redisKey: string, location: string, recache: bool, maxAge: nat, default: Option<Data>)

  /** The readings of the clock during one call: at the Redis check, at the S3 check, and when storing again. */
  datatype Clock = Clock(redisCheck: int, s3Check: int, stored: int)

  predicate Truthy(d: Option<Data>) { d.Some? && d.value.payload != "" }

  /** `store_json_results_in_redis_and_s3` for data of type "str". */
  function Stored(t: Tiers, data: Data, redisKey: string, location: string, now: int): Tiers {
    var r := if redisKey != "" then t.(redis := t.redis[redisKey := data], stamps := t.stamps[redisKey := now]) else t;
    if location != "" then r.(objects := r.objects[location := Object(now, data)]) else r
  }

  /** What Redis offers, once too old an answer is discarded. */
  function FromRedis(t: Tiers, q: Query, now: int): Result<Option<Data>> {
    var found := if q.redisKey != "" && q.redisKey in t.redis then Some(t.redis[q.redisKey]) else None;
    if Truthy(found) && q.maxAge != 0 then
      if q.redisKey !in t.stamps then Err(TypeError)
      else if now - t.stamps[q.redisKey] > q.maxAge then
        if q.location == "" then Err(ExpiredData) else Ok(None)
      else Ok(found)
    else Ok(found)
  }

  function OrDefault(default: Option<Data>, error: Error): Result<Served> {
    if default.Some? then Ok(Served(default.value, Default)) else Err(error)
  }

  /** `retrieve_json_data_from_redis_or_s3`. */
  function Retrieved(t: Tiers, q: Query, clock: Clock): (Tiers, Result<Served>) {
    var offered := FromRedis(t, q, clock.redisCheck);
    if offered.Err? then (t, Err(offered.error))
    else if Truthy(offered.value) || q.location == "" then
      (t, if offered.value.Some? then Ok(Served(offered.value.value, Redis))
        else OrDefault(q.default, DataNotRetrievable))
    else if q.location !in t.objects then (t, OrDefault(q.default, NoSuchObject))
    else
      var stored := t.objects[q.location];
      if stored.data.payload != "" && q.maxAge != 0 && clock.s3Check - stored.lastUpdated > q.maxAge
        then (t, Err(ExpiredData))
      else
        (if q.redisKey != "" && q.recache then Stored(t, stored.data, q.redisKey, "", clock.stored) else t,
         Ok(Served(stored.data, S3)))
  }

  class Cache {
    var redis: map<string, Data>
    var stamps: map<string, int>
    var objects: map<string, Object>

    constructor ()
      ensures View() == Tiers(map[], map[], map[])
    {
      redis, stamps, objects := map[], map[], map[];
    }

    function View(): Tiers
      reads this
    {
      Tiers(redis, stamps, objects)
    }

    method Store(data: Data, redisKey: string, location: string, now: int)
      modifies this
      ensures View() == Stored(old(View()), data, redisKey, location, now)
      ensures redis == if redisKey == "" then old(redis) else old(redis)[redisKey := data]
      ensures stamps == if redisKey == "" then old(stamps) else old(stamps)[redisKey := now]
      ensures objects == if location == "" then old(objects) else old(objects)[location := Object(now, data)]
    {
      var lastUpdated := now;
      if redisKey != "" {
        redis := redis[redisKey := data];
        stamps := stamps[redisKey := lastUpdated];
      }
      if location != "" {
        objects := objects[location := Object(lastUpdated, data)];
      }
    }

    method Retrieve(q: Query, clock: Clock) returns (r: Result<Served>)
      modifies this
      ensures (View(), r) == Retrieved(old(View()), q, clock)
      ensures r == Err(TypeError) <==>
                && q.maxAge != 0 && q.redisKey != "" && q.redisKey in old(redis) && q.redisKey !in old(stamps)
                && old(redis)[q.redisKey].payload != ""
    {
      var data: Option<Data> := None;
      var source := Redis;
      if q.redisKey != "" {
        if q.redisKey in redis { data := Some(redis[q.redisKey]); }
        if Truthy(data) && q.maxAge != 0 {
          if q.redisKey !in stamps { return Err(TypeError); }
          if clock.redisCheck - stamps[q.redisKey] > q.maxAge {
            data := None;
            if q.location == "" { return Err(ExpiredData); }
          }
        }
      }
      if !Truthy(data) && q.location != "" {
        if q.location !in objects {
          if q.default.Some? { return Ok(Served(q.default.value, Default)); }
          return Err(NoSuchObject);
        }
        var stored := objects[q.location];
        data, source := Some(stored.data), S3;
        if Truthy(data) && q.maxAge != 0 {
          if clock.s3Check - stored.lastUpdated > q.maxAge { return Err(ExpiredData); }
        }
        if q.redisKey != "" && q.recache { Store(stored.data, q.redisKey, "", clock.stored); }
      }
      if data.Some? { return Ok(Served(data.value, source)); }
      if q.default.Some? { return Ok(Served(q.default.value, Default)); }
      return Err(DataNotRetrievable);
    }
  }
}
