/** The in-memory store of one-time blind-signature commitments. */
module CommitmentStore {
  import opened Bytes

  /** A commitment: who and what it is for, its secret scalar, and when it lapses (in seconds). */
  datatype Record = Record(id: Bytes, user: string, service: string, period: string, point: Bytes, k: Bytes,
                           expiresAt: int, consumed: bool)

  type Store = map<Bytes, Record>

  predicate Live(r: Record, now: int) {
    now < r.expiresAt
  }

  /** The request that wants to use the commitment is the one it was made for. */
  predicate BoundTo(r: Record, user: string, service: string, period: string) {
    r.user == user && r.service == service && r.period == period
  }

  /** What `blind_commit` must return: a scalar of 32 bytes and an uncompressed point. */
  predicate EngineOk(k: Bytes, point: Bytes) {
    |k| == 32 && |point| == 65 && point[0] == 4
  }

  /** `_cleanup` removes it: it has lapsed. (The other test, for records consumed long ago, never holds of a
      record in the store.) */
  predicate Stale(r: Record, now: int) {
    now >= r.expiresAt || (r.consumed && now - r.expiresAt > 300)
  }

  function Cleaned(s: Store, now: int): Store {
    map id | id in s && !Stale(s[id], now) :: s[id]
  }

  /** What a commitment id gives to a caller at a time. */
  datatype Taken = Consumed(record: Record) | NotFound | Expired | Mismatch

  function Consumption(s: Store, id: Bytes, user: string, service: string, period: string, now: int): Taken {
    if id !in s then NotFound
    else if !Live(s[id], now) then Expired
    else if !BoundTo(s[id], user, service, period) then Mismatch
    else Consumed(s[id].(consumed := true))
  }

  /** The store after that: a mismatch alone leaves the commitment in it. */
  function AfterConsumption(s: Store, id: Bytes, t: Taken): Store {
    if t.Consumed? || t.Expired? then Without(s, id) else s
  }

  class BlindCommitmentStore {
    const defaultTtl: int
    var commitments: Store

    ghost predicate Valid()
      reads this
    {
      forall id :: id in commitments ==> commitments[id].id == id && !commitments[id].consumed
    }

    constructor (ttl: int := 600)
      ensures Valid() && commitments == map[] && defaultTtl == ttl
    {
      defaultTtl := ttl;
      commitments := map[];
    }

    /** `create`: the id, the scalar and the point come from the random source and the engine. */
    method Create(user: string, service: string, period: string, now: int, ttl: Option<int>,
                  id: Bytes, k: Bytes, point: Bytes) returns (r: Option<Record>)
      requires Valid()
      modifies this
      ensures Valid()
      ensures r.Some? <==> |k| == 32 && |point| == 65 && point[0] == 4
      ensures r.Some? ==> r.value == Record(id, user, service, period, point, k,
                                            now + (if ttl.Some? then ttl.value else defaultTtl), false)
      ensures commitments == if r.Some? then Cleaned(old(commitments), now)[id := r.value] else old(commitments)
    {
      var life := if ttl.Some? then ttl.value else defaultTtl;
      if !EngineOk(k, point) { return None; }
      var record := Record(id, user, service, period, point, k, now + life, false);
      Cleanup(now);
      commitments := commitments[id := record];
      return Some(record);
    }

    /** `get`: a lapsed commitment is dropped on the way. */
    method Get(id: Bytes, now: int) returns (r: Option<Record>)
      requires Valid()
      modifies this
      ensures Valid()
      ensures r == if id in old(commitments) && now < old(commitments)[id].expiresAt
                   then Some(old(commitments)[id]) else None
      ensures commitments == if r.None? then Without(old(commitments), id) else old(commitments)
    {
      if id !in commitments {
        assert commitments == Without(commitments, id);
        return None;
      }
      if now >= commitments[id].expiresAt {
        commitments := Without(commitments, id);
        return None;
      }
      return Some(commitments[id]);
    }

    /** `consume`: a commitment handed out is gone. */
    method Consume(id: Bytes, user: string, service: string, period: string, now: int) returns (r: Taken)
      requires Valid()
      modifies this
      ensures Valid()
      ensures r == Consumption(old(commitments), id, user, service, period, now)
      ensures commitments == AfterConsumption(old(commitments), id, r)
      ensures r.NotFound? <==> id !in old(commitments)
      ensures id in old(commitments) ==> var record := old(commitments)[id];
        && (r.Expired? <==> now >= record.expiresAt)
        && (r.Consumed? <==> now < record.expiresAt && record.user == user && record.service == service
                             && record.period == period)
        && (r.Consumed? ==> r.record == record.(consumed := true))
      ensures id in commitments <==> r.Mismatch?
      ensures forall other :: other != id ==>
                (other in commitments <==> other in old(commitments))
                && (other in commitments ==> commitments[other] == old(commitments)[other])
    {
      if id !in commitments { return NotFound; }
      var record := commitments[id];
      if now >= record.expiresAt {
        commitments := Without(commitments, id);
        return Expired;
      }
      if record.user != user || record.service != service || record.period != period { return Mismatch; }
      commitments := Without(commitments, id);
      return Consumed(record.(consumed := true));
    }

    /** `_cleanup`: collects the lapsed ids, then drops them one by one. */
    method Cleanup(now: int)
      requires Valid()
      modifies this
      ensures Valid()
      ensures commitments == Cleaned(old(commitments), now)
      ensures forall id :: id in commitments <==> id in old(commitments) && now < old(commitments)[id].expiresAt
    {
      var start := commitments;
      var expired := set id | id in start && Stale(start[id], now);
      var left := expired;
      while left != {}
        invariant left <= expired && commitments.Keys == start.Keys - (expired - left)
        invariant forall id :: id in commitments ==> commitments[id] == start[id]
      {
        var id :| id in left;
        commitments := Without(commitments, id);
        left := left - {id};
      }
      assert commitments == Cleaned(start, now);
    }
  }
}
