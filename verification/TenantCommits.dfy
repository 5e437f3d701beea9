/** One commit of the pool router in terms of the cache's entries alone: who stays, who leaves, which pool serves. */
module TenantCommits {
  import opened Numbers
  import opened Wrappers
  import opened TenantPools

  /** Neither the tenant's own entry nor one that has been idle for too long. */
  predicate StaysBeside(settings: Settings, key: TenantKey, now: int, e: Entry) {
    e.key != key && (settings.idleMs <= 0 || now - e.lastUsed <= settings.idleMs)
  }

  /** The other tenants' entries that are still in use, in their order. */
  function Others(settings: Settings, cache: seq<Entry>, key: TenantKey, now: int): (r: seq<Entry>)
    ensures forall e <- r :: e in cache && StaysBeside(settings, key, now, e)
  {
    if cache == [] then []
    else
      var last := cache[|cache| - 1];
      Others(settings, cache[..|cache| - 1], key, now) + if StaysBeside(settings, key, now, last) then [last] else []
  }

  lemma {:induction false} OthersComplete(settings: Settings, cache: seq<Entry>, key: TenantKey, now: int, e: Entry)
    requires e in cache && StaysBeside(settings, key, now, e)
    ensures e in Others(settings, cache, key, now)
  {
    if e != cache[|cache| - 1] {
      assert cache == cache[..|cache| - 1] + [cache[|cache| - 1]];
      OthersComplete(settings, cache[..|cache| - 1], key, now, e);
    }
  }

  predicate Serves(settings: Settings, now: int, key: TenantKey, generation: nat, fingerprint: Fingerprint, e: Entry) {
    && e.key == key && e.generation == generation && e.fingerprint == fingerprint
    && (settings.idleMs <= 0 || now - e.lastUsed <= settings.idleMs)
  }

  // --- The sweep and the removal of the tenant's own entry, as one filter

  lemma PositionAppend(cache: seq<Entry>, e: Entry, key: TenantKey)
    ensures Position(cache + [e], key)
            == if Position(cache, key) < |cache| then Position(cache, key) else if e.key == key then |cache| else |cache| + 1
  {
    var i := Position(cache + [e], key);
    var j := Position(cache, key);
    assert j < |cache| ==> (cache + [e])[j] == cache[j];
    assert (cache + [e])[|cache|] == e;
    assert i < |cache| ==> (cache + [e])[i] == cache[i];
  }

  lemma WithoutAppend(cache: seq<Entry>, e: Entry, key: TenantKey)
    requires Position(cache, key) < |cache| ==> e.key != key
    ensures Without(cache + [e], key) == Without(cache, key) + if e.key == key then [] else [e]
  {
    hide Position;
    PositionAppend(cache, e, key);
    var i := Position(cache, key);
    if i < |cache| {
      CutAppend(cache, e, i);
    } else {
      CutAppend(cache, e, |cache|);
    }
  }

  lemma CutAppend(cache: seq<Entry>, e: Entry, i: nat)
    requires i <= |cache|
    ensures (cache + [e])[..i] == cache[..i] && cache[..|cache|] == cache
    ensures i < |cache| ==> (cache + [e])[..i] + (cache + [e])[i + 1..] == (cache[..i] + cache[i + 1..]) + [e]
    ensures i == |cache| ==> (cache + [e])[..i] + (cache + [e])[i + 1..] == cache
  {
  }

  lemma {:induction false} SweptOthers(settings: Settings, cache: seq<Entry>, key: TenantKey, now: int)
    requires DistinctKeys(cache)
    ensures Without(Fresh(settings, cache, now), key) == Others(settings, cache, key, now)
  {
    hide Without, Position, IsIdle, StaysBeside;
    if cache == [] {
      NothingWithout(key);
    } else {
      var front, last := cache[..|cache| - 1], cache[|cache| - 1];
      SweptOthers(settings, front, key, now);
      StaysWhen(settings, key, now, last);
      var swept := Fresh(settings, front, now);
      if IsIdle(settings, last, now) {
        assert Fresh(settings, cache, now) == swept;
        assert Others(settings, cache, key, now) == Others(settings, front, key, now);
      } else {
        LastKeyNew(settings, cache, key, now);
        WithoutAppend(swept, last, key);
      }
    }
  }

  lemma NothingWithout(key: TenantKey)
    ensures Without([], key) == []
  {
  }

  lemma StaysWhen(settings: Settings, key: TenantKey, now: int, e: Entry)
    ensures StaysBeside(settings, key, now, e) <==> e.key != key && !IsIdle(settings, e, now)
  {
  }

  lemma LastKeyNew(settings: Settings, cache: seq<Entry>, key: TenantKey, now: int)
    requires DistinctKeys(cache) && cache != []
    ensures var swept := Fresh(settings, cache[..|cache| - 1], now);
            Position(swept, key) < |swept| ==> cache[|cache| - 1].key != key
  {
    var front := cache[..|cache| - 1];
    FreshWithin(settings, front, now);
    var swept := Fresh(settings, front, now);
    var i := Position(swept, key);
    if i < |swept| {
      assert swept[i] in front;
    }
  }

  // --- The entry that serves again

  lemma SweptServes(settings: Settings, r: Router, key: TenantKey, generation: nat, fingerprint: Fingerprint, now: int, e: Entry)
    requires DistinctKeys(r.cache) && e in r.cache && Serves(settings, now, key, generation, fingerprint, e)
    ensures Find(EvictIdle(settings, r, now).cache, key) == Some(e)
  {
    FreshWithin(settings, r.cache, now);
    FreshComplete(settings, r.cache, now, e);
    var swept := Fresh(settings, r.cache, now);
    var i :| 0 <= i < |swept| && swept[i] == e;
    var j := Position(swept, key);
    assert swept[i].key == key;
  }

  lemma {:induction false} FreshComplete(settings: Settings, cache: seq<Entry>, now: int, e: Entry)
    requires e in cache && !IsIdle(settings, e, now)
    ensures e in Fresh(settings, cache, now)
  {
    if e != cache[|cache| - 1] {
      assert cache == cache[..|cache| - 1] + [cache[|cache| - 1]];
      FreshComplete(settings, cache[..|cache| - 1], now, e);
    }
  }

  lemma ReusedServes(settings: Settings, r: Router, key: TenantKey, generation: nat, fingerprint: Fingerprint, now: int)
    requires DistinctKeys(r.cache) && Reusable(EvictIdle(settings, r, now), key, generation, fingerprint)
    ensures exists e <- r.cache :: Serves(settings, now, key, generation, fingerprint, e)
  {
    FreshWithin(settings, r.cache, now);
    var e := Find(Fresh(settings, r.cache, now), key).value;
    assert e in Fresh(settings, r.cache, now);
    assert Serves(settings, now, key, generation, fingerprint, e);
  }

  // --- The commit

  /** The state after a commit whose served entry is `last`. */
  predicate Committed(settings: Settings, r: Router, key: TenantKey, now: int, last: Entry, r': Router) {
    var others, max := Others(settings, r.cache, key, now), if settings.poolMaxSetting < 1 then 1 else settings.poolMaxSetting;
    && r'.cache == others[|others| - Min(|others|, max - 1)..] + [last]
    && r'.generations == r.generations && r'.ended == r.ended && r.ending <= r'.ending
  }

  /** A commit leaves, of the other tenants' entries that are not idle, the max - 1 most recently served, and
      the served tenant's own at the recent end. Its pool is the cached one when that is not idle and has the
      generation and the fingerprint that were looked up, and otherwise a new one from the settings looked up. */
  lemma CommitExact(settings: Settings, r: Router, key: TenantKey, config: Config, generation: nat, fingerprint: Fingerprint, now: int)
    requires DistinctKeys(r.cache)
    ensures var r' := Commit(settings, r, key, config, generation, fingerprint, now);
            && (forall e <- r.cache :: Serves(settings, now, key, generation, fingerprint, e) ==>
                  Committed(settings, r, key, now, e.(lastUsed := now), r') && r'.built == r.built)
            && ((forall e <- r.cache :: !Serves(settings, now, key, generation, fingerprint, e)) ==>
                  Committed(settings, r, key, now, Entry(key, |r.built|, generation, fingerprint, now), r') && r'.built == r.built + [config])
  {
    hide Others, Fresh, Idle, Without, Position, Pools, Serves;
    var swept := EvictIdle(settings, r, now);
    SweptOthers(settings, r.cache, key, now);
    forall e | e in r.cache && Serves(settings, now, key, generation, fingerprint, e)
      ensures Reusable(swept, key, generation, fingerprint) && Find(swept.cache, key) == Some(e) {
      SweptServes(settings, r, key, generation, fingerprint, now, e);
      ServesMeans(settings, now, key, generation, fingerprint, e);
    }
    if Reusable(swept, key, generation, fingerprint) {
      ReusedServes(settings, r, key, generation, fingerprint, now);
    }
    var placed := Place(swept, key, config, generation, fingerprint, now);
    CappedCache(placed, Others(settings, r.cache, key, now), PlacedEntry(swept, key, generation, fingerprint, now), settings.PoolMax());
  }

  lemma ServesMeans(settings: Settings, now: int, key: TenantKey, generation: nat, fingerprint: Fingerprint, e: Entry)
    requires Serves(settings, now, key, generation, fingerprint, e)
    ensures e.key == key && e.generation == generation && e.fingerprint == fingerprint
  {
  }

  lemma CappedCache(r: Router, others: seq<Entry>, last: Entry, max: nat)
    requires r.cache == others + [last] && max >= 1
    ensures Cap(r, max).cache == others[|others| - Min(|others|, max - 1)..] + [last]
    ensures Cap(r, max).generations == r.generations && Cap(r, max).built == r.built && Cap(r, max).ended == r.ended
    ensures r.ending <= Cap(r, max).ending
  {
    hide Pools;
  }

  /** An invalidation moves the tenant's generation on by one, takes its entry away and ends its pool at once;
      nothing else changes. */
  lemma InvalidateExact(r: Router, key: TenantKey)
    requires DistinctKeys(r.cache)
    ensures var r' := Invalidate(r, key);
            && (forall k: TenantKey :: Generation(r', k) == Generation(r, k) + if k == key then 1 else 0)
            && r'.built == r.built && r'.ending == r.ending
            && (forall e :: e in r'.cache <==> e in r.cache && e.key != key)
            && ((forall e <- r.cache :: e.key != key) ==> r'.ended == r.ended)
            && (forall e <- r.cache :: e.key == key ==> r'.ended == r.ended + [e.pool])
  {
    WithoutExact(r.cache, key);
    FindExact(r.cache, key);
  }

  lemma WithoutExact(cache: seq<Entry>, key: TenantKey)
    requires DistinctKeys(cache)
    ensures forall e :: e in Without(cache, key) <==> e in cache && e.key != key
  {
    hide Position, DistinctKeys;
    KeyPositions(cache, key);
    var i, rest := Position(cache, key), Without(cache, key);
    forall e | e in cache && e.key != key ensures e in rest {
      var j :| 0 <= j < |cache| && cache[j] == e;
      if i < |cache| {
        assert rest[if j < i then j else j - 1] == e;
      }
    }
    forall e | e in rest ensures e in cache && e.key != key {
      var j :| 0 <= j < |rest| && rest[j] == e;
      assert e == cache[if j < i then j else j + 1];
    }
  }

  lemma KeyPositions(cache: seq<Entry>, key: TenantKey)
    requires DistinctKeys(cache)
    ensures forall j :: 0 <= j < |cache| ==> (cache[j].key == key <==> j == Position(cache, key))
  {
    hide Position;
  }

  lemma FindExact(cache: seq<Entry>, key: TenantKey)
    requires DistinctKeys(cache)
    ensures Find(cache, key).None? <==> forall e <- cache :: e.key != key
    ensures forall e <- cache :: e.key == key ==> Find(cache, key) == Some(e)
  {
    hide Position, DistinctKeys;
    KeyPositions(cache, key);
    forall e | e in cache && e.key == key ensures Find(cache, key) == Some(e) {
      var j :| 0 <= j < |cache| && cache[j] == e;
    }
  }

  /** Falling back to the primary queues the tenant's cached pool for end(), when there is one. */
  lemma PrimaryExact(settings: Settings, r: Router, key: TenantKey, snapshot: Option<Snapshot>, now: int)
    requires DistinctKeys(r.cache) && Resume(settings, r, key, snapshot, now).1.UsePrimary?
    ensures var r' := Resume(settings, r, key, snapshot, now).0;
            && r'.generations == r.generations && r'.built == r.built && r'.ended == r.ended
            && (forall e :: e in r'.cache <==> e in r.cache && e.key != key)
            && ((forall e <- r.cache :: e.key != key) ==> r'.ending == r.ending)
            && (forall e <- r.cache :: e.key == key ==> r'.ending == r.ending + [e.pool])
  {
    hide Commit;
    WithoutExact(r.cache, key);
    FindExact(r.cache, key);
  }
}
