/**
  The per-tenant pool cache of src/config/database.js: what one uninterrupted stretch of
  JavaScript does to the module's maps.  `Router` is the state as a value, the functions on it
  are the specification, and class `PoolRouter` updates the fields in place the way the source
  does, proved equal to those functions.  TenantRouting.dfy interleaves the stretches.
*/
module TenantPools {
  import opened Wrappers

  type TenantKey = string
  type PoolId = nat

  /** One row of organization_database_configs.  NULL columns are None. */
  datatype ConfigRow = ConfigRow(
    organizationId: TenantKey,
    isolationMode: string,
    host: Option<string>,
    port: Option<int>,
    name: Option<string>,
    user: Option<string>,
    passwordCipher: Option<string>,
    sslEnabled: bool)

  /** What mysql.createPool is given for a tenant. */
  datatype Config = Config(
    host: string, port: int, user: string, password: string, database: string,
    rejectUnauthorized: Option<bool>)

  /** SHA-256 over the JSON array, taken as injective: the fingerprint is the array itself. */
  datatype Fingerprint =
    | SharedPrint
    | RowPrint(organizationId: TenantKey, isolationMode: string, host: string, port: int, name: string,
               user: string, passwordCipher: Option<string>, sslEnabled: bool)

  /** Environment of the process: decryption key and the TENANT_DB_* settings. */
  datatype Settings = Settings(
    decrypt: string -> string, rejectUnauthorized: bool, idleMs: int, poolMaxSetting: int)
  {
    /** TENANT_POOL_MAX is clamped to at least one. */
    function PoolMax(): (max: nat)
      ensures max >= 1
    {
      if poolMaxSetting < 1 then 1 else poolMaxSetting
    }
  }

  datatype Normalized = Shared | Isolated(config: Config) | Incomplete

  /** JavaScript truthiness of a nullable string column. */
  predicate Truthy(s: Option<string>) {
    s.Some? && s.value != ""
  }

  /** `port || 3306` */
  function PortOf(port: Option<int>): int {
    if port.None? || port.value == 0 then 3306 else port.value
  }

  /** normalizeTenantConfig; decrypt returns null and the empty string unchanged, and `|| ''` joins them. */
  function Normalize(settings: Settings, row: Option<ConfigRow>): Normalized {
    if row.None? || row.value.isolationMode != "isolated" then Shared
    else if !Truthy(row.value.host) || !Truthy(row.value.name) || !Truthy(row.value.user) then Incomplete
    else Isolated(Config(
      row.value.host.value,
      PortOf(row.value.port),
      row.value.user.value,
      if Truthy(row.value.passwordCipher) then settings.decrypt(row.value.passwordCipher.value) else "",
      row.value.name.value,
      if row.value.sslEnabled then Some(settings.rejectUnauthorized) else None))
  }

  /** tenantConfigFingerprint */
  function FingerprintOf(row: Option<ConfigRow>): Fingerprint {
    if row.None? || row.value.isolationMode != "isolated" then SharedPrint
    else RowPrint(
      row.value.organizationId, row.value.isolationMode, row.value.host.GetOr(""), PortOf(row.value.port),
      row.value.name.GetOr(""), row.value.user.GetOr(""),
      if Truthy(row.value.passwordCipher) then row.value.passwordCipher else None,
      row.value.sslEnabled)
  }

  /** The connection settings a fingerprint stands for. */
  function ConfigOfPrint(settings: Settings, stamp: Fingerprint): Config
    requires stamp.RowPrint?
  {
    Config(stamp.host, stamp.port, stamp.user,
           if stamp.passwordCipher.Some? then settings.decrypt(stamp.passwordCipher.value) else "",
           stamp.name,
           if stamp.sslEnabled then Some(settings.rejectUnauthorized) else None)
  }

  /** Equal fingerprints of usable rows mean equal connection settings: nothing createPool is given
      is left out of the fingerprint. */
  lemma FingerprintCoversConfig(settings: Settings, a: Option<ConfigRow>, b: Option<ConfigRow>)
    requires Normalize(settings, a).Isolated? && Normalize(settings, b).Isolated?
    requires FingerprintOf(a) == FingerprintOf(b)
    ensures Normalize(settings, a) == Normalize(settings, b)
    ensures Normalize(settings, a).config == ConfigOfPrint(settings, FingerprintOf(a))
  {
  }

  // --- The same in terms of the registry's columns

  /** The column is NULL or empty. */
  predicate Missing(column: Option<string>) {
    column == None || column == Some("")
  }

  predicate IsolatedRow(row: Option<ConfigRow>) {
    row.Some? && row.value.isolationMode == "isolated"
  }

  /** An isolated row that lacks its host, its database name or its user. */
  predicate LacksColumns(row: Option<ConfigRow>) {
    IsolatedRow(row) && (Missing(row.value.host) || Missing(row.value.name) || Missing(row.value.user))
  }

  /** The port is the column's, or 3306 when that is NULL or 0. */
  predicate PortIs(column: Option<int>, port: int) {
    if column == None || column == Some(0) then port == 3306 else column == Some(port)
  }

  /** The settings are the columns of the row. */
  predicate Connects(settings: Settings, row: ConfigRow, config: Config) {
    && row.host == Some(config.host) && row.name == Some(config.database) && row.user == Some(config.user)
    && PortIs(row.port, config.port)
    && (if Missing(row.passwordCipher) then config.password == "" else config.password == settings.decrypt(row.passwordCipher.value))
    && (if row.sslEnabled then config.rejectUnauthorized == Some(settings.rejectUnauthorized) else config.rejectUnauthorized == None)
  }

  /** The configuration is the columns, port 3306 by default; it is missing exactly when the tenant is not
      isolated, and refused exactly when a column it needs is. */
  lemma NormalizeExact(settings: Settings, row: Option<ConfigRow>, config: Config)
    ensures Normalize(settings, row) == Isolated(config) <==> IsolatedRow(row) && !LacksColumns(row) && Connects(settings, row.value, config)
    ensures Normalize(settings, row) == Shared <==> !IsolatedRow(row)
    ensures Normalize(settings, row) == Incomplete <==> LacksColumns(row)
  {
    hide Connects;
    if IsolatedRow(row) && !LacksColumns(row) {
      ConnectsIsolated(settings, row, Normalize(settings, row).config, config);
    }
  }

  lemma ConnectsIsolated(settings: Settings, row: Option<ConfigRow>, normal: Config, config: Config)
    requires IsolatedRow(row) && !LacksColumns(row) && Normalize(settings, row) == Isolated(normal)
    ensures normal == config <==> Connects(settings, row.value, config)
  {
  }

  /** Two rows that no column of a connection tells apart. */
  ghost predicate SameColumns(a: ConfigRow, b: ConfigRow) {
    && a.organizationId == b.organizationId && a.host == b.host && a.name == b.name && a.user == b.user
    && (exists port: int :: PortIs(a.port, port) && PortIs(b.port, port))
    && (a.passwordCipher == b.passwordCipher || (Missing(a.passwordCipher) && Missing(b.passwordCipher)))
    && a.sslEnabled == b.sslEnabled
  }

  /** Usable rows have one fingerprint exactly when they agree in every such column, so a change in any of
      them is seen. */
  lemma FingerprintExact(a: Option<ConfigRow>, b: Option<ConfigRow>)
    requires IsolatedRow(a) && !LacksColumns(a) && IsolatedRow(b) && !LacksColumns(b)
    ensures FingerprintOf(a) == FingerprintOf(b) <==> SameColumns(a.value, b.value)
  {
    assert PortIs(a.value.port, PortOf(a.value.port)) && PortIs(b.value.port, PortOf(b.value.port));
  }

  /** A cached pool; the position in the cache is the insertion order of the JavaScript Map. */
  datatype Entry = Entry(key: TenantKey, pool: PoolId, generation: nat, fingerprint: Fingerprint, lastUsed: int)

  /** Module state.  `built[p]` is what pool p was created from; `ending` holds the pools whose
      end() is queued as a microtask and `ended` those on which end() has been called. */
  datatype Router = Router(
    generations: map<TenantKey, nat>,
    cache: seq<Entry>,
    built: seq<Config>,
    ending: seq<PoolId>,
    ended: seq<PoolId>)

  datatype Snapshot = Snapshot(config: Option<Config>, generation: nat, fingerprint: Fingerprint)

  function Generation(r: Router, key: TenantKey): nat {
    if key in r.generations then r.generations[key] else 0
  }

  // ---------------------------------------------------------------------------
  // The cache as an ordered map
  // ---------------------------------------------------------------------------

  /** Index of a key, or the size when it is absent. */
  function Position(cache: seq<Entry>, key: TenantKey): (i: nat)
    ensures i <= |cache|
    ensures i < |cache| ==> cache[i].key == key
    ensures forall j :: 0 <= j < i ==> cache[j].key != key
  {
    if cache == [] then 0
    else if cache[0].key == key then 0
    else 1 + Position(cache[1..], key)
  }

  function Find(cache: seq<Entry>, key: TenantKey): Option<Entry> {
    var i := Position(cache, key);
    if i < |cache| then Some(cache[i]) else None
  }

  /** Map.delete(key): the order of the others is kept. */
  function Without(cache: seq<Entry>, key: TenantKey): seq<Entry> {
    var i := Position(cache, key);
    if i < |cache| then cache[..i] + cache[i + 1..] else cache
  }

  function Pools(cache: seq<Entry>): (pools: seq<PoolId>)
    ensures |pools| == |cache|
    ensures forall i :: 0 <= i < |cache| ==> pools[i] == cache[i].pool
  {
    seq(|cache|, i requires 0 <= i < |cache| => cache[i].pool)
  }

  predicate DistinctKeys(cache: seq<Entry>) {
    forall i, j :: 0 <= i < j < |cache| ==> cache[i].key != cache[j].key
  }

  // ---------------------------------------------------------------------------
  // Specification of each stretch
  // ---------------------------------------------------------------------------

  predicate IsIdle(settings: Settings, e: Entry, now: int) {
    settings.idleMs > 0 && now - e.lastUsed > settings.idleMs
  }

  function Fresh(settings: Settings, cache: seq<Entry>, now: int): (rest: seq<Entry>)
    ensures |rest| <= |cache|
  {
    if cache == [] then []
    else
      var last := cache[|cache| - 1];
      Fresh(settings, cache[..|cache| - 1], now) + if IsIdle(settings, last, now) then [] else [last]
  }

  function Idle(settings: Settings, cache: seq<Entry>, now: int): seq<Entry> {
    if cache == [] then []
    else
      var last := cache[|cache| - 1];
      Idle(settings, cache[..|cache| - 1], now) + if IsIdle(settings, last, now) then [last] else []
  }

  /** evictTenantPool for whatever the key holds. */
  function Evict(r: Router, key: TenantKey): Router {
    match Find(r.cache, key)
    case None => r
    case Some(e) => r.(cache := Without(r.cache, key), ending := r.ending + [e.pool])
  }

  function EvictIdle(settings: Settings, r: Router, now: int): Router {
    r.(cache := Fresh(settings, r.cache, now),
       ending := r.ending + Pools(Idle(settings, r.cache, now)))
  }

  /** The cached entry serves again: same generation, same fingerprint. */
  predicate Reusable(r: Router, key: TenantKey, generation: nat, fingerprint: Fingerprint) {
    var found := Find(r.cache, key);
    found.Some? && found.value.generation == generation && found.value.fingerprint == fingerprint
  }

  /** The entry that ends up at the recent end: the cached one, or one around a new pool. */
  function PlacedEntry(r: Router, key: TenantKey, generation: nat, fingerprint: Fingerprint, now: int): (e: Entry)
    ensures e.key == key && e.generation == generation && e.fingerprint == fingerprint && e.lastUsed == now
  {
    if Reusable(r, key, generation, fingerprint) then Find(r.cache, key).value.(lastUsed := now)
    else Entry(key, |r.built|, generation, fingerprint, now)
  }

  /** Lookup, reuse or replacement of the tenant's own entry, which moves to the recent end. */
  function Place(r: Router, key: TenantKey, config: Config, generation: nat, fingerprint: Fingerprint, now: int): Router {
    var reuse := Reusable(r, key, generation, fingerprint);
    var found := Find(r.cache, key);
    r.(cache := Without(r.cache, key) + [PlacedEntry(r, key, generation, fingerprint, now)],
       built := if reuse then r.built else r.built + [config],
       ending := if found.Some? && !reuse then r.ending + [found.value.pool] else r.ending)
  }

  /** The least recently used pools beyond the cap leave from the old end. */
  function Cap(r: Router, max: nat): Router {
    if |r.cache| <= max then r
    else
      var extra := |r.cache| - max;
      r.(cache := r.cache[extra..], ending := r.ending + Pools(r.cache[..extra]))
  }

  /** getTenantPool from the generation check on, up to `return entry.pool`. */
  function Commit(settings: Settings, r: Router, key: TenantKey, config: Config, generation: nat,
                  fingerprint: Fingerprint, now: int): Router
  {
    Cap(Place(EvictIdle(settings, r, now), key, config, generation, fingerprint, now), settings.PoolMax())
  }

  /** The pool a commit returns: the most recent one. */
  function Newest(r: Router): PoolId
    requires r.cache != []
  {
    r.cache[|r.cache| - 1].pool
  }

  datatype Resumption = UsePrimary | LookAgain | UsePool(pool: PoolId)

  /** getTenantPool from the moment its snapshot promise resolves; a null snapshot is a falsy orgId. */
  function Resume(settings: Settings, r: Router, key: TenantKey, snapshot: Option<Snapshot>, now: int): (Router, Resumption)
  {
    if snapshot.None? || snapshot.value.config.None? then
      (Evict(r, key), UsePrimary)
    else if Generation(r, key) != snapshot.value.generation then
      (r, LookAgain)
    else
      CommitNonempty(settings, r, key, snapshot.value.config.value, snapshot.value.generation, snapshot.value.fingerprint, now);
      var r' := Commit(settings, r, key, snapshot.value.config.value, snapshot.value.generation, snapshot.value.fingerprint, now);
      (r', UsePool(Newest(r')))
  }

  lemma CommitNonempty(settings: Settings, r: Router, key: TenantKey, config: Config, generation: nat,
                       fingerprint: Fingerprint, now: int)
    ensures Commit(settings, r, key, config, generation, fingerprint, now).cache != []
  {
    var placed := Place(EvictIdle(settings, r, now), key, config, generation, fingerprint, now);
    assert placed.cache[|placed.cache| - 1].key == key;
  }

  /** invalidateTenantDbConfig up to its await: end() is called directly, not queued. */
  function Invalidate(r: Router, key: TenantKey): Router {
    var bumped := r.(generations := r.generations[key := Generation(r, key) + 1]);
    match Find(r.cache, key)
    case None => bumped
    case Some(e) => bumped.(cache := Without(r.cache, key), ended := r.ended + [e.pool])
  }

  /** The oldest queued microtask runs pool.end(). */
  function EndOne(r: Router): Router
    requires r.ending != []
  {
    r.(ending := r.ending[1..], ended := r.ended + [r.ending[0]])
  }

  // ---------------------------------------------------------------------------
  // Facts about the ordered map
  // ---------------------------------------------------------------------------

  lemma PositionAt(cache: seq<Entry>, i: nat)
    requires i < |cache| && DistinctKeys(cache)
    ensures Position(cache, cache[i].key) == i
  {
  }

  lemma WithoutMiddle(before: seq<Entry>, e: Entry, after: seq<Entry>)
    requires DistinctKeys(before + [e] + after)
    ensures Find(before + [e] + after, e.key) == Some(e)
    ensures Without(before + [e] + after, e.key) == before + after
    ensures DistinctKeys(before + after)
  {
    var cache := before + [e] + after;
    assert cache[|before|] == e;
    PositionAt(cache, |before|);
    assert forall i :: 0 <= i < |before + after| ==>
      (before + after)[i] == cache[if i < |before| then i else i + 1];
  }

  lemma ReplaceDistinct(cache: seq<Entry>, e: Entry)
    requires DistinctKeys(cache)
    ensures DistinctKeys(Without(cache, e.key) + [e])
  {
    var i := Position(cache, e.key);
    if i < |cache| {
      FoundAt(cache, i);
      forall j | 0 <= j < |cache| - 1 ensures Without(cache, e.key)[j].key != e.key {
        assert Without(cache, e.key)[j] == cache[if j < i then j else j + 1];
      }
    }
  }

  lemma PoolsAppend(a: seq<Entry>, e: Entry)
    ensures Pools(a + [e]) == Pools(a) + [e.pool]
  {
  }

  /** An entry of a cache with one entry for each tenant is the one its key finds. */
  lemma FoundAt(cache: seq<Entry>, i: nat)
    requires DistinctKeys(cache) && i < |cache|
    ensures Find(cache, cache[i].key) == Some(cache[i])
    ensures Without(cache, cache[i].key) == cache[..i] + cache[i + 1..]
    ensures DistinctKeys(Without(cache, cache[i].key))
  {
    assert cache == cache[..i] + [cache[i]] + cache[i + 1..];
    WithoutMiddle(cache[..i], cache[i], cache[i + 1..]);
  }

  /** The walk over the Map that deletes as it goes, from position i on. */
  function Sweep(settings: Settings, r: Router, i: nat, now: int): Router
    decreases |r.cache| - i
  {
    if i >= |r.cache| then r
    else if IsIdle(settings, r.cache[i], now) then Sweep(settings, Evict(r, r.cache[i].key), i, now)
    else Sweep(settings, r, i + 1, now)
  }

  /** Evicting the oldest entry takes it off the old end. */
  lemma EvictFirst(r: Router)
    requires DistinctKeys(r.cache) && r.cache != []
    ensures Find(r.cache, r.cache[0].key) == Some(r.cache[0])
    ensures Evict(r, r.cache[0].key) == r.(cache := r.cache[1..], ending := r.ending + [r.cache[0].pool])
    ensures DistinctKeys(r.cache[1..])
  {
    FoundAt(r.cache, 0);
    hide Position, Find, Without;
    assert r.cache[..0] + r.cache[1..] == r.cache[1..];
  }

  lemma Rejoin(a: seq<Entry>, b: seq<Entry>, c: seq<Entry>)
    ensures (a + b) + c == a + (b + c)
  {
  }

  lemma FreshLast(settings: Settings, front: seq<Entry>, last: Entry, now: int)
    ensures Fresh(settings, front + [last], now) == Fresh(settings, front, now) + FreshOne(settings, last, now)
  {
    assert (front + [last])[..|front|] == front;
  }

  function FreshOne(settings: Settings, e: Entry, now: int): seq<Entry> {
    if IsIdle(settings, e, now) then [] else [e]
  }

  lemma FreshOnly(settings: Settings, e: Entry, now: int)
    ensures Fresh(settings, [e] + [], now) == FreshOne(settings, e, now) + Fresh(settings, [], now)
  {
    var none: seq<Entry> := [];
    FreshLast(settings, none, e, now);
    assert [e] + none == none + [e];
  }

  lemma {:induction false} FreshFirst(settings: Settings, e: Entry, rest: seq<Entry>, now: int)
    ensures Fresh(settings, [e] + rest, now) == FreshOne(settings, e, now) + Fresh(settings, rest, now)
  {
    hide Fresh, FreshOne;
    if rest == [] {
      FreshOnly(settings, e, now);
    } else {
      var front, last := rest[..|rest| - 1], rest[|rest| - 1];
      assert rest == front + [last];
      assert [e] + rest == ([e] + front) + [last];
      FreshFirst(settings, e, front, now);
      FreshLast(settings, [e] + front, last, now);
      FreshLast(settings, front, last, now);
      Rejoin(FreshOne(settings, e, now), Fresh(settings, front, now), FreshOne(settings, last, now));
    }
  }

  lemma IdleLast(settings: Settings, front: seq<Entry>, last: Entry, now: int)
    ensures Idle(settings, front + [last], now) == Idle(settings, front, now) + IdleOne(settings, last, now)
  {
    assert (front + [last])[..|front|] == front;
  }

  function IdleOne(settings: Settings, e: Entry, now: int): seq<Entry> {
    if IsIdle(settings, e, now) then [e] else []
  }

  lemma IdleOnly(settings: Settings, e: Entry, now: int)
    ensures Idle(settings, [e] + [], now) == IdleOne(settings, e, now) + Idle(settings, [], now)
  {
    var none: seq<Entry> := [];
    IdleLast(settings, none, e, now);
    assert [e] + none == none + [e];
  }

  lemma {:induction false} IdleFirst(settings: Settings, e: Entry, rest: seq<Entry>, now: int)
    ensures Idle(settings, [e] + rest, now) == IdleOne(settings, e, now) + Idle(settings, rest, now)
  {
    hide Idle, IdleOne;
    if rest == [] {
      IdleOnly(settings, e, now);
    } else {
      var front, last := rest[..|rest| - 1], rest[|rest| - 1];
      assert rest == front + [last];
      assert [e] + rest == ([e] + front) + [last];
      IdleFirst(settings, e, front, now);
      IdleLast(settings, [e] + front, last, now);
      IdleLast(settings, front, last, now);
      Rejoin(IdleOne(settings, e, now), Idle(settings, front, now), IdleOne(settings, last, now));
    }
  }

  lemma PoolsOf(e: Entry, rest: seq<Entry>)
    ensures Pools([e] + rest) == [e.pool] + Pools(rest)
  {
  }

  /** Keeping what the walk has passed and filtering the rest. */
  function Filtered(settings: Settings, r: Router, i: nat, now: int): Router
    requires i <= |r.cache|
  {
    r.(cache := r.cache[..i] + Fresh(settings, r.cache[i..], now),
       ending := r.ending + Pools(Idle(settings, r.cache[i..], now)))
  }

  lemma FilterIdle(settings: Settings, r: Router, i: nat, now: int)
    requires DistinctKeys(r.cache) && i < |r.cache| && IsIdle(settings, r.cache[i], now)
    ensures var r' := Evict(r, r.cache[i].key);
            && |r'.cache| == |r.cache| - 1 && DistinctKeys(r'.cache)
            && Filtered(settings, r', i, now) == Filtered(settings, r, i, now)
  {
    hide Fresh, Idle, Position;
    var e, rest := r.cache[i], r.cache[i + 1..];
    FoundAt(r.cache, i);
    assert r.cache[i..] == [e] + rest;
    FreshFirst(settings, e, rest, now);
    IdleFirst(settings, e, rest, now);
    PoolsOf(e, Idle(settings, rest, now));
    var r' := Evict(r, e.key);
    assert r'.cache[..i] == r.cache[..i] && r'.cache[i..] == rest;
    assert r.ending + ([e.pool] + Pools(Idle(settings, rest, now))) == r'.ending + Pools(Idle(settings, rest, now));
  }

  lemma FilterFresh(settings: Settings, r: Router, i: nat, now: int)
    requires i < |r.cache| && !IsIdle(settings, r.cache[i], now)
    ensures Filtered(settings, r, i + 1, now) == Filtered(settings, r, i, now)
  {
    hide Fresh, Idle, Pools, IsIdle;
    var e, rest := r.cache[i], r.cache[i + 1..];
    assert r.cache[i..] == [e] + rest;
    FreshFirst(settings, e, rest, now);
    IdleFirst(settings, e, rest, now);
    assert r.cache[..i + 1] == r.cache[..i] + [e];
  }

  /** Deleting while walking is the plain filter. */
  lemma {:induction false} SweepMeaning(settings: Settings, r: Router, i: nat, now: int)
    requires DistinctKeys(r.cache) && i <= |r.cache|
    ensures Sweep(settings, r, i, now) == Filtered(settings, r, i, now)
    decreases |r.cache| - i
  {
    if i == |r.cache| {
      assert r.cache[i..] == [];
    } else if IsIdle(settings, r.cache[i], now) {
      FilterIdle(settings, r, i, now);
      SweepMeaning(settings, Evict(r, r.cache[i].key), i, now);
    } else {
      FilterFresh(settings, r, i, now);
      SweepMeaning(settings, r, i + 1, now);
    }
  }

  /** Everything the idle sweep keeps was in the cache, in the same order. */
  lemma {:induction false} FreshWithin(settings: Settings, cache: seq<Entry>, now: int)
    ensures forall e :: e in Fresh(settings, cache, now) ==> e in cache && !IsIdle(settings, e, now)
    ensures DistinctKeys(cache) ==> DistinctKeys(Fresh(settings, cache, now))
  {
    if cache != [] {
      var front := cache[..|cache| - 1];
      FreshWithin(settings, front, now);
      var kept := Fresh(settings, front, now);
      if DistinctKeys(cache) {
        forall i | 0 <= i < |kept| ensures kept[i].key != cache[|cache| - 1].key {
          assert kept[i] in front;
        }
      }
    }
  }

  lemma {:induction false} NothingIdle(settings: Settings, cache: seq<Entry>, now: int)
    requires settings.idleMs <= 0
    ensures Fresh(settings, cache, now) == cache && Idle(settings, cache, now) == []
    ensures Pools(Idle(settings, cache, now)) == []
  {
    if cache != [] {
      NothingIdle(settings, cache[..|cache| - 1], now);
    }
  }

  lemma NothingSwept(settings: Settings, r: Router, now: int)
    requires settings.idleMs <= 0
    ensures EvictIdle(settings, r, now) == r
  {
    NothingIdle(settings, r.cache, now);
  }

  lemma WholeSweep(settings: Settings, r: Router, now: int)
    requires DistinctKeys(r.cache)
    ensures Sweep(settings, r, 0, now) == EvictIdle(settings, r, now)
  {
    hide Sweep, Fresh, Idle, Pools;
    SweepMeaning(settings, r, 0, now);
    assert r.cache[0..] == r.cache && r.cache[..0] == [];
  }

  lemma EvictAt(r: Router, i: nat)
    requires DistinctKeys(r.cache) && i < |r.cache|
    ensures Find(r.cache, r.cache[i].key) == Some(r.cache[i])
    ensures DistinctKeys(Evict(r, r.cache[i].key).cache) && |Evict(r, r.cache[i].key).cache| == |r.cache| - 1
  {
    FoundAt(r.cache, i);
  }

  /** Taking the oldest entries away one by one until the cap holds is capping. */
  lemma CappedBy(r: Router, max: nat, gone: nat)
    requires gone <= |r.cache| && |r.cache| - gone <= max && (gone > 0 ==> |r.cache| - gone >= max)
    ensures Cap(r, max) == r.(cache := r.cache[gone..], ending := r.ending + Pools(r.cache[..gone]))
  {
    assert r.cache[..0] == [] && r.cache[0..] == r.cache;
  }

  lemma NoPools()
    ensures Pools([]) == []
  {
  }

  // ---------------------------------------------------------------------------
  // The module state, updated in place
  // ---------------------------------------------------------------------------

  class PoolRouter {
    const settings: Settings
    var generations: map<TenantKey, nat>
    var cache: seq<Entry>
    var built: seq<Config>
    var ending: seq<PoolId>
    var ended: seq<PoolId>

    constructor (settings: Settings)
      ensures this.settings == settings
      ensures State() == Router(map[], [], [], [], [])
    {
      this.settings := settings;
      generations, cache, built, ending, ended := map[], [], [], [], [];
    }

    function State(): Router
      reads this
    {
      Router(generations, cache, built, ending, ended)
    }

    method EvictTenantPool(key: TenantKey, entry: Entry)
      requires Find(cache, key) == Some(entry)
      modifies this
      ensures State() == Evict(old(State()), key)
    {
      cache := Without(cache, key);
      ending := ending + [entry.pool];
    }

    /** The for-of loop deletes the current entry of the Map it walks; `i` is the iterator. */
    method EvictIdleTenantPools(now: int)
      requires DistinctKeys(cache)
      modifies this
      ensures State() == EvictIdle(settings, old(State()), now)
    {
      hide Evict, EvictIdle, Find, Without;
      if settings.idleMs <= 0 {
        NothingSwept(settings, State(), now);
        return;
      }
      WholeSweep(settings, State(), now);
      var i := 0;
      while i < |cache|
        invariant DistinctKeys(cache)
        invariant Sweep(settings, State(), i, now) == Sweep(settings, old(State()), 0, now)
        decreases |cache| - i
      {
        var entry := cache[i];
        EvictAt(State(), i);
        if now - entry.lastUsed > settings.idleMs {
          EvictTenantPool(entry.key, entry);
        } else {
          i := i + 1;
        }
      }
    }

    /** getTenantPool after its await, when the snapshot has a configuration of the current generation. */
    method CommitTenantPool(key: TenantKey, config: Config, generation: nat, fingerprint: Fingerprint, now: int)
      returns (pool: PoolId)
      requires DistinctKeys(cache)
      modifies this
      ensures State() == Commit(settings, old(State()), key, config, generation, fingerprint, now)
      ensures cache != [] && pool == Newest(State())
      ensures cache[|cache| - 1].key == key
    {
      FreshWithin(settings, cache, now);
      EvictIdleTenantPools(now);
      pool := PlaceEntry(key, config, generation, fingerprint, now);
      EnforceCap(key);
    }

    /** Reuse the tenant's entry or replace it, and move it to the recent end. */
    method PlaceEntry(key: TenantKey, config: Config, generation: nat, fingerprint: Fingerprint, now: int) returns (pool: PoolId)
      requires DistinctKeys(cache)
      modifies this
      ensures State() == Place(old(State()), key, config, generation, fingerprint, now)
      ensures pool == PlacedEntry(old(State()), key, generation, fingerprint, now).pool
      ensures DistinctKeys(cache)
    {
      var found := Find(cache, key);
      var entry: Entry;
      ghost var before := cache;
      if found.Some? && found.value.generation == generation && found.value.fingerprint == fingerprint {
        entry := found.value;
        cache := Without(cache, key);
      } else {
        if found.Some? {
          EvictTenantPool(key, found.value);
        }
        entry := Entry(key, |built|, generation, fingerprint, now);
        built := built + [config];
      }
      entry := entry.(lastUsed := now);
      cache := cache + [entry];
      ReplaceDistinct(before, entry);
      pool := entry.pool;
    }

    method ResumeTenantPool(key: TenantKey, snapshot: Option<Snapshot>, now: int) returns (out: Resumption)
      requires DistinctKeys(cache)
      modifies this
      ensures (State(), out) == Resume(settings, old(State()), key, snapshot, now)
    {
      if snapshot.None? || snapshot.value.config.None? {
        var stale := Find(cache, key);
        if stale.Some? {
          EvictTenantPool(key, stale.value);
        }
        return UsePrimary;
      }
      if Generation(State(), key) != snapshot.value.generation {
        return LookAgain;
      }
      var pool := CommitTenantPool(key, snapshot.value.config.value, snapshot.value.generation, snapshot.value.fingerprint, now);
      out := UsePool(pool);
    }

    /** The while loop that evicts from the old end until the cap holds. */
    method EnforceCap(key: TenantKey)
      requires DistinctKeys(cache) && cache != [] && cache[|cache| - 1].key == key
      modifies this
      ensures State() == Cap(old(State()), settings.PoolMax())
      ensures cache != [] && cache[|cache| - 1] == old(cache)[|old(cache)| - 1]
    {
      hide Evict, Find, Without, Cap, Pools;
      var max := settings.PoolMax();
      ghost var begun := State();
      ghost var start := cache;
      ghost var gone := 0;
      NoPools();
      assert start[..0] == [];
      while |cache| > max
        invariant 0 <= gone < |start|
        invariant gone > 0 ==> |start| - gone >= max
        invariant cache == start[gone..] && DistinctKeys(cache)
        invariant ending == old(ending) + Pools(start[..gone])
        invariant generations == old(generations) && built == old(built) && ended == old(ended)
      {
        var oldest := cache[0];
        if oldest.key == key {
          assert false;
          break;
        }
        EvictFirst(State());
        EvictTenantPool(oldest.key, oldest);
        PoolsAppend(start[..gone], oldest);
        assert start[..gone + 1] == start[..gone] + [oldest];
        gone := gone + 1;
      }
      CappedBy(begun, max, gone);
    }

    method InvalidateTenantDbConfig(key: TenantKey)
      modifies this
      ensures State() == Invalidate(old(State()), key)
    {
      generations := generations[key := Generation(State(), key) + 1];
      var entry := Find(cache, key);
      cache := Without(cache, key);
      if entry.Some? {
        ended := ended + [entry.value.pool];
      }
    }
  }
}
