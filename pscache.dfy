/**
 * The proxy's prepared-statement id cache (proxy/pkg/cloudgateproxy/pscache.go).
 *
 * The origin and target clusters assign their own prepared ids to the same
 * statement.  The cache remembers, per origin id, the record of both ids and
 * the statement info, and keeps a reverse index from target id to origin id.
 * Go keys both maps by `string(bytes)`, which is injective, so the model keys
 * them by the byte sequences themselves.  The statement info is an opaque
 * payload supplied by the caller: a type parameter here.
 */
module PsCache {
  import opened Maybe

  type Bytes = seq<bv8>

  /** The immutable record built by NewPreparedData; its destructors are the Go getters. */
  datatype PreparedData<Info> = PreparedData(originPreparedId: Bytes, targetPreparedId: Bytes, stmtInfo: Info)

  /** The two maps of the cache, as a value. */
  datatype CacheState<Info> = CacheState(cache: map<Bytes, PreparedData<Info>>, index: map<Bytes, Bytes>)

  function Empty<Info>(): CacheState<Info>
  {
    CacheState(map[], map[])
  }

  /** The state after Store(originId, targetId, info): one entry of each map is overwritten. */
  function Stored<Info>(s: CacheState<Info>, originId: Bytes, targetId: Bytes, info: Info): CacheState<Info>
  {
    CacheState(s.cache[originId := PreparedData(originId, targetId, info)], s.index[targetId := originId])
  }

  function Lookup<Info>(s: CacheState<Info>, originId: Bytes): Option<PreparedData<Info>>
  {
    if originId in s.cache then Some(s.cache[originId]) else None
  }

  /** Reverse lookup; an index entry whose origin id has no record reads as not found. */
  function LookupByTarget<Info>(s: CacheState<Info>, targetId: Bytes): Option<PreparedData<Info>>
  {
    if targetId !in s.index then None
    else if s.index[targetId] !in s.cache then None
    else Some(s.cache[s.index[targetId]])
  }

  function Count<Info>(s: CacheState<Info>): nat
  {
    |s.cache|
  }

  /** Every origin id named by the reverse index has a record. */
  ghost predicate IndexClosed<Info>(s: CacheState<Info>)
  {
    forall t :: t in s.index ==> s.index[t] in s.cache
  }

  /** Every record is filed under its own origin id. */
  ghost predicate KeyedByOrigin<Info>(s: CacheState<Info>)
  {
    forall o :: o in s.cache ==> s.cache[o].originPreparedId == o
  }

  ghost predicate WellFormed<Info>(s: CacheState<Info>)
  {
    IndexClosed(s) && KeyedByOrigin(s)
  }

  /**
   * Coherence of the reverse index: every entry resolves to a record whose
   * target id is that key.  Store does not keep it (see StaleReverseMapping).
   */
  ghost predicate ReverseCoherent<Info>(s: CacheState<Info>)
  {
    forall t :: t in s.index ==> s.index[t] in s.cache && s.cache[s.index[t]].targetPreparedId == t
  }

  class PreparedStatementCache<Info> {
    var cache: map<Bytes, PreparedData<Info>>
    var index: map<Bytes, Bytes>

    ghost function State(): CacheState<Info>
      reads this
    {
      CacheState(cache, index)
    }

    ghost predicate Valid()
      reads this
    {
      WellFormed(State())
    }

    /** NewPreparedStatementCache: both maps empty. */
    constructor ()
      ensures Valid()
      ensures State() == Empty()
      ensures cache == map[] && index == map[]
    {
      cache := map[];
      index := map[];
    }

    /** Overwrites cache[originId] and index[targetId]; last writer wins, nothing is pruned. */
    method Store(originId: Bytes, targetId: Bytes, info: Info)
      modifies this
      ensures State() == Stored(old(State()), originId, targetId, info)
      ensures old(Valid()) ==> Valid()
    {
      cache := cache[originId := PreparedData(originId, targetId, info)];
      index := index[targetId := originId];
      StoredPreservesValid(old(State()), originId, targetId, info);
    }

    method Get(originId: Bytes) returns (data: Option<PreparedData<Info>>)
      ensures data == Lookup(State(), originId)
      ensures data.Some? <==> originId in cache
      ensures Valid() && data.Some? ==> data.value.originPreparedId == originId
    {
      if originId in cache {
        data := Some(cache[originId]);
      } else {
        data := None;
      }
    }

    method GetByTargetPreparedId(targetId: Bytes) returns (data: Option<PreparedData<Info>>)
      ensures data == LookupByTarget(State(), targetId)
      ensures targetId !in index ==> data == None
      ensures Valid() ==> (data.Some? <==> targetId in index)
      ensures data.Some? ==> data == Lookup(State(), index[targetId])
    {
      if targetId !in index {
        return None;
      }
      var originId := index[targetId];
      if originId !in cache {
        // the "most likely a bug" branch: unreachable while Valid() holds
        return None;
      }
      data := Some(cache[originId]);
    }

    method GetPreparedStatementCacheSize() returns (n: nat)
      ensures n == Count(State())
      ensures n == |cache.Keys|
    {
      n := |cache|;
    }
  }

  // ---------------------------------------------------------------------------
  // Properties of single operations
  // ---------------------------------------------------------------------------

  lemma EmptyCache<Info>(originId: Bytes, targetId: Bytes)
    ensures WellFormed(Empty<Info>())
    ensures Count(Empty<Info>()) == 0
    ensures Lookup(Empty<Info>(), originId) == None
    ensures LookupByTarget(Empty<Info>(), targetId) == None
  {
  }

  lemma StoreThenGet<Info>(s: CacheState<Info>, originId: Bytes, targetId: Bytes, info: Info)
    ensures Lookup(Stored(s, originId, targetId, info), originId) == Some(PreparedData(originId, targetId, info))
  {
  }

  /** The reverse lookup by the target id just stored yields the same record as Get. */
  lemma StoreThenGetByTarget<Info>(s: CacheState<Info>, originId: Bytes, targetId: Bytes, info: Info)
    ensures LookupByTarget(Stored(s, originId, targetId, info), targetId)
         == Lookup(Stored(s, originId, targetId, info), originId)
         == Some(PreparedData(originId, targetId, info))
  {
  }

  /** Store touches cache[originId] and index[targetId] only. */
  lemma StoreFrame<Info>(s: CacheState<Info>, originId: Bytes, targetId: Bytes, info: Info, o: Bytes, t: Bytes)
    ensures o != originId ==> Lookup(Stored(s, originId, targetId, info), o) == Lookup(s, o)
    ensures t != targetId ==> (t in Stored(s, originId, targetId, info).index <==> t in s.index)
    ensures t != targetId && t in s.index ==> Stored(s, originId, targetId, info).index[t] == s.index[t]
  {
  }

  /** The size counts distinct origin ids: re-storing an origin id leaves it unchanged. */
  lemma StoreCount<Info>(s: CacheState<Info>, originId: Bytes, targetId: Bytes, info: Info)
    ensures Count(Stored(s, originId, targetId, info)) == if originId in s.cache then Count(s) else Count(s) + 1
  {
  }

  lemma StoredPreservesValid<Info>(s: CacheState<Info>, originId: Bytes, targetId: Bytes, info: Info)
    ensures WellFormed(s) ==> WellFormed(Stored(s, originId, targetId, info))
  {
  }

  /** With the invariant, the not-found-despite-index branch of the reverse lookup is unreachable. */
  lemma ValidReverseLookupResolves<Info>(s: CacheState<Info>, targetId: Bytes)
    requires WellFormed(s)
    ensures LookupByTarget(s, targetId).Some? <==> targetId in s.index
    ensures targetId in s.index ==> LookupByTarget(s, targetId).value.originPreparedId == s.index[targetId]
  {
  }

  /**
   * Re-storing an origin id with a new target id leaves the old reverse entry
   * in place: looking up the OLD target id still succeeds and yields the new
   * record, whose target id is the new one.
   */
  lemma StaleReverseMapping<Info>(s: CacheState<Info>, originId: Bytes, t1: Bytes, i1: Info, t2: Bytes, i2: Info)
    requires t1 != t2
    ensures LookupByTarget(Stored(Stored(s, originId, t1, i1), originId, t2, i2), t1) == Some(PreparedData(originId, t2, i2))
    ensures LookupByTarget(Stored(Stored(s, originId, t1, i1), originId, t2, i2), t2) == Some(PreparedData(originId, t2, i2))
    ensures !ReverseCoherent(Stored(Stored(s, originId, t1, i1), originId, t2, i2))
  {
  }

  // ---------------------------------------------------------------------------
  // Properties of every sequence of Store calls from a new cache
  // ---------------------------------------------------------------------------

  datatype StoreCall<Info> = StoreCall(originId: Bytes, targetId: Bytes, info: Info)

  function Record<Info>(c: StoreCall<Info>): PreparedData<Info>
  {
    PreparedData(c.originId, c.targetId, c.info)
  }

  /** The cache after NewPreparedStatementCache followed by the given Store calls, in order. */
  function Replay<Info>(calls: seq<StoreCall<Info>>): CacheState<Info>
  {
    if calls == [] then Empty()
    else
      var c := calls[|calls| - 1];
      Stored(Replay(calls[..|calls| - 1]), c.originId, c.targetId, c.info)
  }

  ghost function OriginIds<Info>(calls: seq<StoreCall<Info>>): set<Bytes>
  {
    set i | 0 <= i < |calls| :: calls[i].originId
  }

  lemma {:induction false} ReplayValid<Info>(calls: seq<StoreCall<Info>>)
    ensures WellFormed(Replay(calls))
  {
    if calls != [] {
      var c := calls[|calls| - 1];
      ReplayValid(calls[..|calls| - 1]);
      StoredPreservesValid(Replay(calls[..|calls| - 1]), c.originId, c.targetId, c.info);
    }
  }

  ghost function TargetIds<Info>(calls: seq<StoreCall<Info>>): set<Bytes>
  {
    set i | 0 <= i < |calls| :: calls[i].targetId
  }

  /** The origin ids with a record, and the target ids in the index, are exactly those stored. */
  lemma {:induction false} ReplayKeys<Info>(calls: seq<StoreCall<Info>>)
    ensures Replay(calls).cache.Keys == OriginIds(calls)
    ensures Replay(calls).index.Keys == TargetIds(calls)
  {
    if calls != [] {
      var n := |calls| - 1;
      var prefix := calls[..n];
      ReplayKeys(prefix);
      assert forall i :: 0 <= i < n ==> calls[i] == prefix[i];
      assert OriginIds(calls) == OriginIds(prefix) + {calls[n].originId};
      assert TargetIds(calls) == TargetIds(prefix) + {calls[n].targetId};
    }
  }

  /** The record filed under an origin id comes from the last Store of that origin id. */
  lemma {:induction false} ReplayCacheLast<Info>(calls: seq<StoreCall<Info>>, originId: Bytes)
    requires originId in Replay(calls).cache
    ensures exists i :: (0 <= i < |calls| && calls[i].originId == originId
      && Replay(calls).cache[originId] == Record(calls[i])
      && forall j :: i < j < |calls| ==> calls[j].originId != originId)
  {
    var n := |calls| - 1;
    var prefix := calls[..n];
    if calls[n].originId != originId {
      ReplayCacheLast(prefix, originId);
      var i :| 0 <= i < n && prefix[i].originId == originId
        && Replay(prefix).cache[originId] == Record(prefix[i])
        && forall j :: i < j < n ==> prefix[j].originId != originId;
      assert forall j :: 0 <= j < n ==> calls[j] == prefix[j];
    }
  }

  /** The origin id indexed under a target id comes from the last Store of that target id. */
  lemma {:induction false} ReplayIndexLast<Info>(calls: seq<StoreCall<Info>>, targetId: Bytes)
    requires targetId in Replay(calls).index
    ensures exists i :: (0 <= i < |calls| && calls[i].targetId == targetId
      && Replay(calls).index[targetId] == calls[i].originId
      && forall j :: i < j < |calls| ==> calls[j].targetId != targetId)
  {
    var n := |calls| - 1;
    var prefix := calls[..n];
    if calls[n].targetId != targetId {
      ReplayIndexLast(prefix, targetId);
      var i :| 0 <= i < n && prefix[i].targetId == targetId
        && Replay(prefix).index[targetId] == prefix[i].originId
        && forall j :: i < j < n ==> prefix[j].targetId != targetId;
      assert forall j :: 0 <= j < n ==> calls[j] == prefix[j];
    }
  }

  /** Get answers with the record of the LAST Store of that origin id, and not-found if there was none. */
  lemma {:induction false} ReplayLookup<Info>(calls: seq<StoreCall<Info>>, originId: Bytes)
    ensures Lookup(Replay(calls), originId).None? <==> forall i :: 0 <= i < |calls| ==> calls[i].originId != originId
    ensures Lookup(Replay(calls), originId).Some? ==>
      exists i :: 0 <= i < |calls| && calls[i].originId == originId
        && Lookup(Replay(calls), originId).value == Record(calls[i])
        && forall j :: i < j < |calls| ==> calls[j].originId != originId
  {
    ReplayKeys(calls);
    if originId in Replay(calls).cache {
      ReplayCacheLast(calls, originId);
    }
  }

  /**
   * GetByTargetPreparedId answers not-found exactly for target ids never
   * stored; otherwise it yields the current record of the origin id that the
   * LAST Store of that target id named.
   */
  lemma {:induction false} ReplayLookupByTarget<Info>(calls: seq<StoreCall<Info>>, targetId: Bytes)
    ensures LookupByTarget(Replay(calls), targetId).None? <==> forall i :: 0 <= i < |calls| ==> calls[i].targetId != targetId
    ensures LookupByTarget(Replay(calls), targetId).Some? ==>
      exists i :: 0 <= i < |calls| && calls[i].targetId == targetId
        && Lookup(Replay(calls), calls[i].originId) == LookupByTarget(Replay(calls), targetId)
        && forall j :: i < j < |calls| ==> calls[j].targetId != targetId
  {
    ReplayKeys(calls);
    ReplayValid(calls);
    if targetId in Replay(calls).index {
      ReplayIndexLast(calls, targetId);
    }
  }

  /** The size is the number of distinct origin ids stored. */
  lemma ReplayCount<Info>(calls: seq<StoreCall<Info>>)
    ensures Count(Replay(calls)) == |OriginIds(calls)|
  {
    ReplayKeys(calls);
  }

  /** Storing N entries with pairwise distinct origin ids gives size N. */
  lemma {:induction false} ReplayCountDistinct<Info>(calls: seq<StoreCall<Info>>)
    requires forall i, j :: 0 <= i < j < |calls| ==> calls[i].originId != calls[j].originId
    ensures Count(Replay(calls)) == |calls|
  {
    if calls != [] {
      var n := |calls| - 1;
      var prefix := calls[..n];
      ReplayCountDistinct(prefix);
      ReplayKeys(prefix);
      assert calls[n].originId !in OriginIds(prefix);
      StoreCount(Replay(prefix), calls[n].originId, calls[n].targetId, calls[n].info);
    }
  }
}
