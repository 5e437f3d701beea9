/**
  Interleavings of the pool router.  Every await of src/config/database.js ends a step, so a run
  is a list of steps: registry writes by any replica, the stretches of each getTenantPool call,
  invalidations, and queued pool.end() microtasks.  The fields marked as history record what
  happened and are never read by a step's decisions.
*/
module TenantRouting {
  import opened Wrappers
  import opened TenantPools

  type CallId = nat
  type Registry = map<TenantKey, ConfigRow>

  datatype LookupError = IncompleteConfig | ConfigChanged

  datatype Outcome = Routed(pool: PoolId) | Primary | Failed(error: LookupError)

  /** Where a getTenantPool call stands.  `readAt` is history: the registry version its last query read. */
  datatype Phase =
    | Querying(attempt: nat, generation: nat)
    | Answered(attempt: nat, generation: nat, row: Option<ConfigRow>, readAt: nat)
    | Resolved(snapshot: Option<Snapshot>, readAt: nat)
    | Returned(outcome: Outcome, readAt: nat, until: nat)

  /** `since`, `startGeneration` and `queries` are history. */
  datatype Call = Call(truthy: bool, key: TenantKey, phase: Phase, since: nat, startGeneration: nat, queries: nat)

  /** `history[v]` is version v of the primary registry, the last one current.  `touched` and `clock`
      are history: the number of the last commit that returned each tenant's pool. */
  datatype World = World(
    router: Router,
    history: seq<Registry>,
    calls: map<CallId, Call>,
    touched: map<TenantKey, nat>,
    clock: nat)
  {
    function Version(): int {
      |history| - 1
    }

    predicate Held(version: nat, key: TenantKey, row: Option<ConfigRow>) {
      && version < |history|
      && row == if key in history[version] then Some(history[version][key]) else None
    }
  }

  datatype Step =
    | WriteRegistry(registry: Registry)
    | Start(id: CallId, truthy: bool, key: TenantKey)
    | Read(id: CallId)
    | Return(id: CallId)
    | ResumeCall(id: CallId, now: int)
    | InvalidateConfig(key: TenantKey)
    | EndQueued

  function Initial(registry: Registry): World {
    World(Router(map[], [], [], [], []), [registry], map[], map[], 0)
  }

  predicate Enabled(w: World, step: Step) {
    match step
    case WriteRegistry(_) => true
    case Start(id, _, _) => id !in w.calls
    case Read(id) => id in w.calls && w.calls[id].phase.Querying?
    case Return(id) => id in w.calls && w.calls[id].phase.Answered?
    case ResumeCall(id, _) => id in w.calls && w.calls[id].phase.Resolved?
    case InvalidateConfig(_) => true
    case EndQueued => w.router.ending != []
  }

  /** A new query of the registry, with the generation captured just before it. */
  function Ask(w: World, c: Call, attempt: nat): Call {
    c.(phase := Querying(attempt, Generation(w.router, c.key)), queries := c.queries + 1)
  }

  function StartCall(w: World, truthy: bool, key: TenantKey): Call
    requires w.history != []
  {
    var c := Call(truthy, key, Resolved(None, w.Version()), w.Version(), Generation(w.router, key), 0);
    if truthy then Ask(w, c, 0) else c
  }

  /** getTenantConnectionConfigSnapshot after its await: normalizeTenantConfig may throw before the
      generation is compared. */
  function ReturnCall(settings: Settings, w: World, c: Call): Call
    requires c.phase.Answered? && w.history != []
  {
    var normal := Normalize(settings, c.phase.row);
    if normal.Incomplete? then
      c.(phase := Returned(Failed(IncompleteConfig), c.phase.readAt, w.Version()))
    else if Generation(w.router, c.key) != c.phase.generation then
      if c.phase.attempt + 1 < 3 then Ask(w, c, c.phase.attempt + 1)
      else c.(phase := Returned(Failed(ConfigChanged), c.phase.readAt, w.Version()))
    else
      var config := if normal.Isolated? then Some(normal.config) else None;
      c.(phase := Resolved(Some(Snapshot(config, c.phase.generation, FingerprintOf(c.phase.row))), c.phase.readAt))
  }

  function Do(settings: Settings, w: World, step: Step): World
    requires Enabled(w, step) && w.history != []
  {
    match step
    case WriteRegistry(registry) => w.(history := w.history + [registry])
    case Start(id, truthy, key) => w.(calls := w.calls[id := StartCall(w, truthy, key)])
    case Read(id) =>
      var c := w.calls[id];
      var registry := w.history[w.Version()];
      var row := if c.key in registry then Some(registry[c.key]) else None;
      w.(calls := w.calls[id := c.(phase := Answered(c.phase.attempt, c.phase.generation, row, w.Version()))])
    case Return(id) => w.(calls := w.calls[id := ReturnCall(settings, w, w.calls[id])])
    case ResumeCall(id, now) =>
      var c := w.calls[id];
      var (router, out) := Resume(settings, w.router, c.key, c.phase.snapshot, now);
      match out {
        case UsePrimary =>
          w.(router := router, calls := w.calls[id := c.(phase := Returned(Primary, c.phase.readAt, w.Version()))])
        case LookAgain =>
          w.(calls := w.calls[id := Ask(w, c, 0)])
        case UsePool(pool) =>
          w.(router := router,
             calls := w.calls[id := c.(phase := Returned(Routed(pool), c.phase.readAt, w.Version()))],
             touched := w.touched[c.key := w.clock],
             clock := w.clock + 1)
      }
    case InvalidateConfig(key) => w.(router := Invalidate(w.router, key))
    case EndQueued => w.(router := EndOne(w.router))
  }

  /** `steps` can be taken one after another from w. */
  predicate Runs(settings: Settings, w: World, steps: seq<Step>)
    requires w.history != []
    decreases |steps|
  {
    steps == [] || (Enabled(w, steps[0]) && Runs(settings, Do(settings, w, steps[0]), steps[1..]))
  }

  function After(settings: Settings, w: World, steps: seq<Step>): World
    requires w.history != [] && Runs(settings, w, steps)
    decreases |steps|
  {
    if steps == [] then w else After(settings, Do(settings, w, steps[0]), steps[1..])
  }

  // ---------------------------------------------------------------------------
  // The cache invariant
  // ---------------------------------------------------------------------------

  /** Every cached pool belongs to its tenant's current generation and was created from the very
      settings its fingerprint stands for. */
  predicate Current(settings: Settings, r: Router, e: Entry) {
    && e.generation == Generation(r, e.key)
    && e.pool < |r.built|
    && e.fingerprint.RowPrint?
    && r.built[e.pool] == ConfigOfPrint(settings, e.fingerprint)
  }

  predicate CacheOk(settings: Settings, r: Router) {
    && DistinctKeys(r.cache)
    && |r.cache| <= settings.PoolMax()
    && forall e <- r.cache :: Current(settings, r, e)
  }

  /** How often a pool is cached, queued for end(), or ended. */
  function Whereabouts(r: Router): multiset<PoolId> {
    multiset(Pools(r.cache)) + multiset(r.ending) + multiset(r.ended)
  }

  /** Every pool ever created is in exactly one of the three places, exactly once. */
  ghost predicate EachPoolOnce(r: Router) {
    forall p: PoolId :: Whereabouts(r)[p] == if p < |r.built| then 1 else 0
  }

  /** Insertion order of the Map is recency order. */
  predicate RecencySorted(cache: seq<Entry>, touched: map<TenantKey, nat>, clock: nat) {
    && (forall e <- cache :: e.key in touched && touched[e.key] < clock)
    && forall i, j :: 0 <= i < j < |cache| ==> touched[cache[i].key] < touched[cache[j].key]
  }

  // ---------------------------------------------------------------------------
  // The call invariant
  // ---------------------------------------------------------------------------

  /** A snapshot carries exactly what one registry version held for the tenant. */
  predicate SnapshotOf(settings: Settings, w: World, key: TenantKey, snapshot: Snapshot, version: nat) {
    && version < |w.history|
    && var row := if key in w.history[version] then Some(w.history[version][key]) else None;
       && snapshot.fingerprint == FingerprintOf(row)
       && Normalize(settings, row) == (if snapshot.config.Some? then Isolated(snapshot.config.value) else Shared)
  }

  predicate CallOk(settings: Settings, w: World, c: Call) {
    && c.since < |w.history|
    && c.startGeneration <= Generation(w.router, c.key)
    && c.queries <= 1 + (Generation(w.router, c.key) - c.startGeneration)
    && match c.phase {
         case Querying(attempt, generation) =>
           c.truthy && attempt < 3 && InFlight(w, c, generation) && c.startGeneration + attempt <= generation
         case Answered(attempt, generation, row, readAt) =>
           c.truthy && attempt < 3 && InFlight(w, c, generation) && c.startGeneration + attempt <= generation
           && c.since <= readAt && w.Held(readAt, c.key, row)
         case Resolved(snapshot, readAt) =>
           && c.since <= readAt < |w.history|
           && (snapshot.None? <==> !c.truthy)
           && (snapshot.Some? ==> InFlight(w, c, snapshot.value.generation)
                                  && SnapshotOf(settings, w, c.key, snapshot.value, readAt))
         case Returned(outcome, readAt, until) =>
           && c.since <= readAt <= until < |w.history|
           && OutcomeOk(settings, w, c, outcome, readAt)
       }
  }

  /** The generation an unfinished call captured is not from the future, and every query but the first
      was made after a further invalidation. */
  predicate InFlight(w: World, c: Call, generation: nat) {
    && c.startGeneration <= generation <= Generation(w.router, c.key)
    && 1 <= c.queries <= 1 + (generation - c.startGeneration)
  }

  predicate OutcomeOk(settings: Settings, w: World, c: Call, outcome: Outcome, readAt: nat)
    requires readAt < |w.history|
  {
    var row := if c.key in w.history[readAt] then Some(w.history[readAt][c.key]) else None;
    match outcome
    case Routed(pool) => c.truthy && pool < |w.router.built| && Normalize(settings, row) == Isolated(w.router.built[pool])
    case Primary => c.truthy ==> Normalize(settings, row).Shared?
    case Failed(IncompleteConfig) => c.truthy && Normalize(settings, row).Incomplete?
    case Failed(ConfigChanged) => c.truthy && Generation(w.router, c.key) >= c.startGeneration + 3
  }

  ghost predicate RouterOk(settings: Settings, r: Router, touched: map<TenantKey, nat>, clock: nat) {
    CacheOk(settings, r) && EachPoolOnce(r) && RecencySorted(r.cache, touched, clock)
  }

  ghost predicate Inv(settings: Settings, w: World) {
    w.history != [] && RouterOk(settings, w.router, w.touched, w.clock) && forall id <- w.calls :: CallOk(settings, w, w.calls[id])
  }

  // ---------------------------------------------------------------------------
  // No pool is lost or ended twice: what each stretch does to the three places
  // ---------------------------------------------------------------------------

  lemma PoolsOfSum(a: seq<Entry>, b: seq<Entry>)
    ensures Pools(a + b) == Pools(a) + Pools(b)
  {
  }

  lemma WithoutPools(cache: seq<Entry>, key: TenantKey)
    requires Find(cache, key).Some?
    ensures multiset(Pools(cache)) == multiset(Pools(Without(cache, key))) + multiset{Find(cache, key).value.pool}
  {
    var i := Position(cache, key);
    assert cache == cache[..i] + [cache[i]] + cache[i + 1..];
    PoolsOfSum(cache[..i] + [cache[i]], cache[i + 1..]);
    PoolsOfSum(cache[..i], [cache[i]]);
    PoolsOfSum(cache[..i], cache[i + 1..]);
    assert Pools([cache[i]]) == [cache[i].pool];
  }

  lemma {:induction false} SweepPools(settings: Settings, cache: seq<Entry>, now: int)
    ensures multiset(Pools(cache)) == multiset(Pools(Fresh(settings, cache, now))) + multiset(Pools(Idle(settings, cache, now)))
  {
    if cache != [] {
      var front, last := cache[..|cache| - 1], cache[|cache| - 1];
      SweepPools(settings, front, now);
      assert cache == front + [last];
      PoolsAppend(front, last);
      PoolsAppend(Fresh(settings, front, now), last);
      PoolsAppend(Idle(settings, front, now), last);
      assert Fresh(settings, front, now) + [] == Fresh(settings, front, now);
      assert Idle(settings, front, now) + [] == Idle(settings, front, now);
    }
  }

  lemma EvictKeepsPools(r: Router, key: TenantKey)
    ensures Whereabouts(Evict(r, key)) == Whereabouts(r)
  {
    if Find(r.cache, key).Some? {
      WithoutPools(r.cache, key);
    }
  }

  lemma EvictIdleKeepsPools(settings: Settings, r: Router, now: int)
    ensures Whereabouts(EvictIdle(settings, r, now)) == Whereabouts(r)
  {
    SweepPools(settings, r.cache, now);
  }

  lemma PlaceKeepsPools(r: Router, key: TenantKey, config: Config, generation: nat, fingerprint: Fingerprint, now: int)
    ensures var r' := Place(r, key, config, generation, fingerprint, now);
            Whereabouts(r') == Whereabouts(r) + (if |r'.built| == |r.built| then multiset{} else multiset{|r.built|})
  {
    if Find(r.cache, key).Some? {
      WithoutPools(r.cache, key);
      var e := Find(r.cache, key).value;
      PoolsAppend(Without(r.cache, key), e.(lastUsed := now));
      PoolsAppend(Without(r.cache, key), Entry(key, |r.built|, generation, fingerprint, now));
    } else {
      PoolsAppend(r.cache, Entry(key, |r.built|, generation, fingerprint, now));
    }
  }

  lemma CapKeepsPools(r: Router, max: nat)
    ensures Whereabouts(Cap(r, max)) == Whereabouts(r)
  {
    if |r.cache| > max {
      var extra := |r.cache| - max;
      assert r.cache == r.cache[..extra] + r.cache[extra..];
      PoolsOfSum(r.cache[..extra], r.cache[extra..]);
    }
  }

  lemma SamePools(r: Router, r': Router)
    requires EachPoolOnce(r) && Whereabouts(r') == Whereabouts(r) && |r'.built| == |r.built|
    ensures EachPoolOnce(r')
  {
  }

  lemma PlaceOnce(r: Router, key: TenantKey, config: Config, generation: nat, fingerprint: Fingerprint, now: int)
    requires EachPoolOnce(r)
    ensures EachPoolOnce(Place(r, key, config, generation, fingerprint, now))
  {
    hide Find, Without, Reusable, PlacedEntry, Whereabouts;
    PlaceKeepsPools(r, key, config, generation, fingerprint, now);
    var r' := Place(r, key, config, generation, fingerprint, now);
    assert |r'.built| == |r.built| || |r'.built| == |r.built| + 1;
  }

  lemma CommitKeepsPools(settings: Settings, r: Router, key: TenantKey, config: Config, generation: nat,
                         fingerprint: Fingerprint, now: int)
    requires EachPoolOnce(r)
    ensures EachPoolOnce(Commit(settings, r, key, config, generation, fingerprint, now))
  {
    var swept := EvictIdle(settings, r, now);
    EvictIdleKeepsPools(settings, r, now);
    SamePools(r, swept);
    PlaceOnce(swept, key, config, generation, fingerprint, now);
    var placed := Place(swept, key, config, generation, fingerprint, now);
    CapKeepsPools(placed, settings.PoolMax());
    SamePools(placed, Cap(placed, settings.PoolMax()));
  }

  lemma InvalidateKeepsPools(r: Router, key: TenantKey)
    ensures Whereabouts(Invalidate(r, key)) == Whereabouts(r)
  {
    if Find(r.cache, key).Some? {
      WithoutPools(r.cache, key);
    }
  }

  lemma EndOneKeepsPools(r: Router)
    requires r.ending != []
    ensures Whereabouts(EndOne(r)) == Whereabouts(r)
  {
    assert r.ending == [r.ending[0]] + r.ending[1..];
  }

  // ---------------------------------------------------------------------------
  // What each stretch keeps of the cache
  // ---------------------------------------------------------------------------

  lemma EvictKeepsCache(settings: Settings, r: Router, key: TenantKey)
    requires CacheOk(settings, r)
    ensures CacheOk(settings, Evict(r, key))
  {
    var r' := Evict(r, key);
    assert forall e <- r'.cache :: e in r.cache && Current(settings, r, e);
  }

  predicate EntriesOk(settings: Settings, r: Router) {
    DistinctKeys(r.cache) && forall e <- r.cache :: Current(settings, r, e)
  }

  lemma SweepKeepsEntries(settings: Settings, r: Router, now: int)
    requires EntriesOk(settings, r)
    ensures EntriesOk(settings, EvictIdle(settings, r, now))
  {
    FreshWithin(settings, r.cache, now);
    assert forall e <- Fresh(settings, r.cache, now) :: Current(settings, r, e);
  }

  lemma WithoutKeepsEntries(settings: Settings, r: Router, key: TenantKey)
    requires EntriesOk(settings, r)
    ensures EntriesOk(settings, r.(cache := Without(r.cache, key)))
    ensures forall e <- Without(r.cache, key) :: e in r.cache && e.key != key
  {
    var rest, i := Without(r.cache, key), Position(r.cache, key);
    forall j | 0 <= j < |rest| ensures rest[j] in r.cache && rest[j].key != key && Current(settings, r, rest[j]) {
      assert rest[j] == r.cache[if j < i then j else j + 1];
    }
  }

  lemma AppendKeepsEntries(settings: Settings, r: Router, e: Entry)
    requires EntriesOk(settings, r) && Current(settings, r, e)
    requires forall other <- r.cache :: other.key != e.key
    ensures EntriesOk(settings, r.(cache := r.cache + [e]))
  {
  }

  lemma PlaceKeepsEntries(settings: Settings, r: Router, key: TenantKey, config: Config, fingerprint: Fingerprint, now: int)
    requires EntriesOk(settings, r)
    requires fingerprint.RowPrint? && config == ConfigOfPrint(settings, fingerprint)
    ensures EntriesOk(settings, Place(r, key, config, Generation(r, key), fingerprint, now))
    ensures r.built <= Place(r, key, config, Generation(r, key), fingerprint, now).built
  {
    var r' := Place(r, key, config, Generation(r, key), fingerprint, now);
    var last := PlacedEntry(r, key, Generation(r, key), fingerprint, now);
    WithoutKeepsEntries(settings, r, key);
    if Reusable(r, key, Generation(r, key), fingerprint) {
      assert Current(settings, r, Find(r.cache, key).value);
    }
    assert Current(settings, r', last);
    var kept := r'.(cache := Without(r.cache, key));
    forall e | e in kept.cache ensures Current(settings, kept, e) {
      assert Current(settings, r, e);
    }
    AppendKeepsEntries(settings, kept, last);
  }

  lemma CapKeepsEntries(settings: Settings, r: Router)
    requires EntriesOk(settings, r)
    ensures CacheOk(settings, Cap(r, settings.PoolMax()))
  {
    var capped := Cap(r, settings.PoolMax());
    forall e | e in capped.cache ensures Current(settings, capped, e) {
      assert Current(settings, r, e);
    }
  }

  lemma CommitKeepsCache(settings: Settings, r: Router, key: TenantKey, config: Config, fingerprint: Fingerprint, now: int)
    requires CacheOk(settings, r)
    requires fingerprint.RowPrint? && config == ConfigOfPrint(settings, fingerprint)
    ensures var r' := Commit(settings, r, key, config, Generation(r, key), fingerprint, now);
            && CacheOk(settings, r')
            && r'.cache != [] && r'.cache[|r'.cache| - 1].key == key && r'.cache[|r'.cache| - 1].fingerprint == fingerprint
            && r.built <= r'.built
  {
    hide Place, Cap, EntriesOk, Fresh, Idle, Pools;
    var swept := EvictIdle(settings, r, now);
    CacheEntries(settings, r);
    SweepKeepsEntries(settings, r, now);
    PlaceKeepsEntries(settings, swept, key, config, fingerprint, now);
    CapKeepsEntries(settings, Place(swept, key, config, Generation(r, key), fingerprint, now));
    ServedLast(swept, key, config, Generation(r, key), fingerprint, now, settings.PoolMax());
  }

  lemma CacheEntries(settings: Settings, r: Router)
    requires CacheOk(settings, r)
    ensures EntriesOk(settings, r)
  {
  }

  /** The placed entry is the last of the cache and survives the cap. */
  lemma ServedLast(r: Router, key: TenantKey, config: Config, generation: nat, fingerprint: Fingerprint, now: int, max: nat)
    requires max >= 1
    ensures var r' := Cap(Place(r, key, config, generation, fingerprint, now), max);
            && r'.cache != [] && r'.cache[|r'.cache| - 1].key == key && r'.cache[|r'.cache| - 1].fingerprint == fingerprint
            && r'.built == Place(r, key, config, generation, fingerprint, now).built
  {
    hide Without, Find, Reusable, PlacedEntry, Pools;
  }

  lemma InvalidateKeepsCache(settings: Settings, r: Router, key: TenantKey)
    requires CacheOk(settings, r)
    ensures CacheOk(settings, Invalidate(r, key))
    ensures forall e <- Invalidate(r, key).cache :: e.key != key
  {
    var r' := Invalidate(r, key);
    WithoutKeepsEntries(settings, r, key);
    assert r'.cache == Without(r.cache, key);
    forall e | e in r'.cache ensures e.key != key && Current(settings, r', e) {
      assert Current(settings, r, e);
    }
  }

  // ---------------------------------------------------------------------------
  // Recency
  // ---------------------------------------------------------------------------

  lemma {:induction false} SweepKeepsRecency(settings: Settings, cache: seq<Entry>, now: int, touched: map<TenantKey, nat>, clock: nat)
    requires RecencySorted(cache, touched, clock)
    ensures RecencySorted(Fresh(settings, cache, now), touched, clock)
  {
    if cache != [] {
      var front, last := cache[..|cache| - 1], cache[|cache| - 1];
      SweepKeepsRecency(settings, front, now, touched, clock);
      FreshWithin(settings, front, now);
      var kept := Fresh(settings, front, now);
      forall i | 0 <= i < |kept| ensures touched[kept[i].key] < touched[last.key] {
        assert kept[i] in front;
      }
    }
  }

  lemma WithoutKeepsRecency(cache: seq<Entry>, key: TenantKey, touched: map<TenantKey, nat>, clock: nat)
    requires RecencySorted(cache, touched, clock)
    ensures RecencySorted(Without(cache, key), touched, clock)
  {
    var rest, i := Without(cache, key), Position(cache, key);
    assert forall j :: 0 <= j < |rest| ==> rest[j] == cache[if j < i then j else j + 1];
  }

  /** The most recent end belongs to the tenant just served. */
  lemma ServeKeepsRecency(rest: seq<Entry>, last: Entry, touched: map<TenantKey, nat>, clock: nat)
    requires RecencySorted(rest, touched, clock) && forall e <- rest :: e.key != last.key
    ensures RecencySorted(rest + [last], touched[last.key := clock], clock + 1)
  {
  }

  lemma CommitKeepsRecency(settings: Settings, r: Router, key: TenantKey, config: Config, fingerprint: Fingerprint, now: int,
                           touched: map<TenantKey, nat>, clock: nat)
    requires CacheOk(settings, r) && RecencySorted(r.cache, touched, clock)
    requires fingerprint.RowPrint? && config == ConfigOfPrint(settings, fingerprint)
    ensures var g := Generation(r, key);
            && RecencySorted(Place(EvictIdle(settings, r, now), key, config, g, fingerprint, now).cache, touched[key := clock], clock + 1)
            && RecencySorted(Commit(settings, r, key, config, g, fingerprint, now).cache, touched[key := clock], clock + 1)
  {
    var swept := EvictIdle(settings, r, now);
    SweepKeepsEntries(settings, r, now);
    SweepKeepsRecency(settings, r.cache, now, touched, clock);
    WithoutKeepsEntries(settings, swept, key);
    WithoutKeepsRecency(swept.cache, key, touched, clock);
    ServeKeepsRecency(Without(swept.cache, key), PlacedEntry(swept, key, Generation(r, key), fingerprint, now), touched, clock);
  }

  // ---------------------------------------------------------------------------
  // Every step keeps the invariant
  // ---------------------------------------------------------------------------

  lemma InitialInv(settings: Settings, registry: Registry)
    ensures Inv(settings, Initial(registry))
  {
  }

  lemma EvictOk(settings: Settings, r: Router, key: TenantKey, touched: map<TenantKey, nat>, clock: nat)
    requires RouterOk(settings, r, touched, clock)
    ensures RouterOk(settings, Evict(r, key), touched, clock)
  {
    EvictKeepsCache(settings, r, key);
    EvictKeepsPools(r, key);
    WithoutKeepsRecency(r.cache, key, touched, clock);
  }

  lemma InvalidateOk(settings: Settings, r: Router, key: TenantKey, touched: map<TenantKey, nat>, clock: nat)
    requires RouterOk(settings, r, touched, clock)
    ensures RouterOk(settings, Invalidate(r, key), touched, clock)
  {
    InvalidateKeepsCache(settings, r, key);
    InvalidateKeepsPools(r, key);
    WithoutKeepsRecency(r.cache, key, touched, clock);
  }

  lemma EndOneOk(settings: Settings, r: Router, touched: map<TenantKey, nat>, clock: nat)
    requires RouterOk(settings, r, touched, clock) && r.ending != []
    ensures RouterOk(settings, EndOne(r), touched, clock)
  {
    EndOneKeepsPools(r);
    forall e | e in r.cache ensures Current(settings, EndOne(r), e) {
      assert Current(settings, r, e);
    }
  }

  lemma CommitKeepsGenerations(settings: Settings, r: Router, key: TenantKey, config: Config, generation: nat,
                               fingerprint: Fingerprint, now: int)
    ensures Commit(settings, r, key, config, generation, fingerprint, now).generations == r.generations
  {
    hide Fresh, Idle, Find, Without, Pools;
  }

  lemma CommitOk(settings: Settings, r: Router, key: TenantKey, config: Config, fingerprint: Fingerprint, now: int,
                 touched: map<TenantKey, nat>, clock: nat)
    requires RouterOk(settings, r, touched, clock)
    requires fingerprint.RowPrint? && config == ConfigOfPrint(settings, fingerprint)
    ensures var r' := Commit(settings, r, key, config, Generation(r, key), fingerprint, now);
            && RouterOk(settings, r', touched[key := clock], clock + 1)
            && r'.cache != []
            && Newest(r') < |r'.built| && r'.built[Newest(r')] == config && r'.cache[|r'.cache| - 1].key == key
            && r.built <= r'.built && r'.generations == r.generations
  {
    hide Commit, EachPoolOnce, RecencySorted, CacheOk, Place, EvictIdle, Generation, ConfigOfPrint;
    CommitKeepsGenerations(settings, r, key, config, Generation(r, key), fingerprint, now);
    CommitKeepsCache(settings, r, key, config, fingerprint, now);
    CommitKeepsPools(settings, r, key, config, Generation(r, key), fingerprint, now);
    CommitKeepsRecency(settings, r, key, config, fingerprint, now, touched, clock);
    NewestBuilt(settings, Commit(settings, r, key, config, Generation(r, key), fingerprint, now), config, fingerprint);
  }

  lemma NewestBuilt(settings: Settings, r: Router, config: Config, fingerprint: Fingerprint)
    requires CacheOk(settings, r) && r.cache != [] && r.cache[|r.cache| - 1].fingerprint == fingerprint
    requires fingerprint.RowPrint? && config == ConfigOfPrint(settings, fingerprint)
    ensures Newest(r) < |r.built| && r.built[Newest(r)] == config
  {
    assert Current(settings, r, r.cache[|r.cache| - 1]);
  }

  ghost predicate Grows(w: World, w': World) {
    && w.history <= w'.history
    && (forall key :: Generation(w.router, key) <= Generation(w'.router, key))
    && w.router.built <= w'.router.built
  }

  /** What a call knows survives any later growth of the world. */
  lemma CallOkPersists(settings: Settings, w: World, w': World, c: Call)
    requires CallOk(settings, w, c) && Grows(w, w')
    ensures CallOk(settings, w', c)
  {
  }

  lemma CallsPersist(settings: Settings, w: World, w': World, id: CallId)
    requires Inv(settings, w) && Grows(w, w') && RouterOk(settings, w'.router, w'.touched, w'.clock)
    requires w'.calls.Keys == w.calls.Keys + {id} && CallOk(settings, w', w'.calls[id])
    requires forall other <- w.calls :: other != id ==> w'.calls[other] == w.calls[other]
    ensures Inv(settings, w')
  {
    forall other | other in w'.calls ensures CallOk(settings, w', w'.calls[other]) {
      if other != id {
        CallOkPersists(settings, w, w', w.calls[other]);
      }
    }
  }

  lemma AllCallsPersist(settings: Settings, w: World, w': World)
    requires Inv(settings, w) && Grows(w, w') && RouterOk(settings, w'.router, w'.touched, w'.clock) && w'.calls == w.calls
    ensures Inv(settings, w')
  {
    forall other | other in w'.calls ensures CallOk(settings, w', w'.calls[other]) {
      CallOkPersists(settings, w, w', w.calls[other]);
    }
  }

  lemma PrimaryKeepsInv(settings: Settings, w: World, id: CallId, now: int)
    requires Inv(settings, w) && Enabled(w, ResumeCall(id, now))
    requires Resume(settings, w.router, w.calls[id].key, w.calls[id].phase.snapshot, now).1.UsePrimary?
    ensures var w' := Do(settings, w, ResumeCall(id, now)); Inv(settings, w') && Grows(w, w')
  {
    var c := w.calls[id];
    var w' := Do(settings, w, ResumeCall(id, now));
    assert CallOk(settings, w, c);
    EvictOk(settings, w.router, c.key, w.touched, w.clock);
    CallsPersist(settings, w, w', id);
  }

  /** The call returns the most recent pool of r'. */
  function RoutedWorld(w: World, id: CallId, r': Router, touched': map<TenantKey, nat>, clock': nat): World
    requires w.history != [] && id in w.calls && w.calls[id].phase.Resolved? && r'.cache != []
  {
    var c := w.calls[id];
    World(r', w.history, w.calls[id := c.(phase := Returned(Routed(Newest(r')), c.phase.readAt, w.Version()))], touched', clock')
  }

  lemma RoutedWorldIs(settings: Settings, w: World, id: CallId, now: int, r': Router)
    requires w.history != [] && Enabled(w, ResumeCall(id, now)) && r'.cache != []
    requires Resume(settings, w.router, w.calls[id].key, w.calls[id].phase.snapshot, now) == (r', UsePool(Newest(r')))
    ensures Do(settings, w, ResumeCall(id, now)) == RoutedWorld(w, id, r', w.touched[w.calls[id].key := w.clock], w.clock + 1)
  {
  }

  /** A call that resolved a configuration may return any pool made from it. */
  lemma RoutedTo(settings: Settings, w: World, id: CallId, r': Router, touched': map<TenantKey, nat>, clock': nat)
    requires Inv(settings, w) && id in w.calls && w.calls[id].phase.Resolved?
    requires w.calls[id].phase.snapshot.Some? && w.calls[id].phase.snapshot.value.config.Some?
    requires RouterOk(settings, r', touched', clock') && r'.cache != [] && Newest(r') < |r'.built|
    requires r'.built[Newest(r')] == w.calls[id].phase.snapshot.value.config.value
    requires w.router.built <= r'.built && r'.generations == w.router.generations
    ensures var w' := RoutedWorld(w, id, r', touched', clock'); Inv(settings, w') && Grows(w, w')
  {
    var w' := RoutedWorld(w, id, r', touched', clock');
    assert CallOk(settings, w, w.calls[id]);
    assert CallOk(settings, w', w'.calls[id]);
    CallsPersist(settings, w, w', id);
  }

  /** What the commit of a resuming call yields. */
  lemma RoutedRouter(settings: Settings, w: World, id: CallId, now: int) returns (r': Router)
    requires Inv(settings, w) && Enabled(w, ResumeCall(id, now))
    requires Resume(settings, w.router, w.calls[id].key, w.calls[id].phase.snapshot, now).1.UsePool?
    ensures var c := w.calls[id];
            && c.phase.snapshot.Some? && c.phase.snapshot.value.config.Some?
            && RouterOk(settings, r', w.touched[c.key := w.clock], w.clock + 1) && r'.cache != [] && Newest(r') < |r'.built|
            && Resume(settings, w.router, c.key, c.phase.snapshot, now) == (r', UsePool(Newest(r')))
            && r'.built[Newest(r')] == c.phase.snapshot.value.config.value && r'.cache[|r'.cache| - 1].key == c.key
            && w.router.built <= r'.built && r'.generations == w.router.generations
  {
    var c := w.calls[id];
    assert CallOk(settings, w, c);
    var s := c.phase.snapshot.value;
    SnapshotPrint(settings, w, c.key, s, c.phase.readAt);
    CommitOk(settings, w.router, c.key, s.config.value, s.fingerprint, now, w.touched, w.clock);
    r' := Commit(settings, w.router, c.key, s.config.value, s.generation, s.fingerprint, now);
  }

  /** A pool that is cached is neither queued for end() nor ended. */
  lemma CachedLives(r: Router, i: nat)
    requires EachPoolOnce(r) && i < |r.cache|
    ensures r.cache[i].pool !in r.ending && r.cache[i].pool !in r.ended
  {
    var p := r.cache[i].pool;
    assert Pools(r.cache)[i] == p;
    assert p in multiset(Pools(r.cache)) && Whereabouts(r)[p] <= 1;
    assert Whereabouts(r)[p] == multiset(Pools(r.cache))[p] + multiset(r.ending)[p] + multiset(r.ended)[p];
  }

  /** What a caller needs of the pool it gets: at the moment getTenantPool returns it, it serves the tenant with
      the settings that were read, it is cached at the recent end, and it is neither queued for end() nor
      ended. */
  lemma ReturnedPoolLives(settings: Settings, w: World, id: CallId, now: int)
    requires Inv(settings, w) && Enabled(w, ResumeCall(id, now))
    requires Resume(settings, w.router, w.calls[id].key, w.calls[id].phase.snapshot, now).1.UsePool?
    ensures var c, w' := w.calls[id], Do(settings, w, ResumeCall(id, now));
            && w'.router.cache != [] && w'.calls[id].phase.Returned?
            && var e := w'.router.cache[|w'.router.cache| - 1];
               && w'.calls[id].phase.outcome == Routed(e.pool) && e.key == c.key
               && e.pool < |w'.router.built| && c.phase.snapshot.Some? && Some(w'.router.built[e.pool]) == c.phase.snapshot.value.config
               && e.generation == Generation(w'.router, c.key)
               && e.pool !in w'.router.ending && e.pool !in w'.router.ended
  {
    hide EachPoolOnce, RecencySorted, CallOk, Resume;
    var r' := RoutedRouter(settings, w, id, now);
    RoutedWorldIs(settings, w, id, now, r');
    var last := |r'.cache| - 1;
    assert Current(settings, r', r'.cache[last]);
    CachedLives(r', last);
  }

  /** A returned pool is justified by the registry version the call's last query read. */
  lemma RoutedKeepsInv(settings: Settings, w: World, id: CallId, now: int)
    requires Inv(settings, w) && Enabled(w, ResumeCall(id, now))
    requires Resume(settings, w.router, w.calls[id].key, w.calls[id].phase.snapshot, now).1.UsePool?
    ensures var w' := Do(settings, w, ResumeCall(id, now)); Inv(settings, w') && Grows(w, w')
  {
    var r' := RoutedRouter(settings, w, id, now);
    RoutedWorldIs(settings, w, id, now, r');
    RoutedTo(settings, w, id, r', w.touched[w.calls[id].key := w.clock], w.clock + 1);
  }

  lemma SnapshotPrint(settings: Settings, w: World, key: TenantKey, s: Snapshot, version: nat)
    requires SnapshotOf(settings, w, key, s, version) && s.config.Some?
    ensures s.fingerprint.RowPrint? && s.config.value == ConfigOfPrint(settings, s.fingerprint)
  {
    var row := if key in w.history[version] then Some(w.history[version][key]) else None;
    FingerprintCoversConfig(settings, row, row);
  }

  lemma ResumeKeepsInv(settings: Settings, w: World, id: CallId, now: int)
    requires Inv(settings, w) && Enabled(w, ResumeCall(id, now))
    ensures var w' := Do(settings, w, ResumeCall(id, now)); Inv(settings, w') && Grows(w, w')
  {
    match Resume(settings, w.router, w.calls[id].key, w.calls[id].phase.snapshot, now).1 {
      case UsePrimary => PrimaryKeepsInv(settings, w, id, now);
      case UsePool(_) => RoutedKeepsInv(settings, w, id, now);
      case LookAgain =>
        assert CallOk(settings, w, w.calls[id]);
        CallsPersist(settings, w, Do(settings, w, ResumeCall(id, now)), id);
    }
  }

  lemma ReturnKeepsInv(settings: Settings, w: World, id: CallId)
    requires Inv(settings, w) && Enabled(w, Return(id))
    ensures var w' := Do(settings, w, Return(id)); Inv(settings, w') && Grows(w, w')
  {
    var w' := Do(settings, w, Return(id));
    assert CallOk(settings, w, w.calls[id]);
    assert CallOk(settings, w', w'.calls[id]);
    CallsPersist(settings, w, w', id);
  }

  lemma RouterStepKeepsInv(settings: Settings, w: World, step: Step)
    requires Inv(settings, w) && Enabled(w, step)
    requires step.WriteRegistry? || step.InvalidateConfig? || step.EndQueued?
    ensures var w' := Do(settings, w, step); Inv(settings, w') && Grows(w, w')
  {
    var w' := Do(settings, w, step);
    match step {
      case InvalidateConfig(key) =>
        InvalidateOk(settings, w.router, key, w.touched, w.clock);
      case EndQueued =>
        EndOneOk(settings, w.router, w.touched, w.clock);
      case WriteRegistry(_) =>
    }
    AllCallsPersist(settings, w, w');
  }

  lemma StepKeepsInv(settings: Settings, w: World, step: Step)
    requires Inv(settings, w) && Enabled(w, step)
    ensures var w' := Do(settings, w, step); Inv(settings, w') && Grows(w, w')
  {
    match step {
      case ResumeCall(id, now) => ResumeKeepsInv(settings, w, id, now);
      case Return(id) => ReturnKeepsInv(settings, w, id);
      case Start(id, _, _) => CallsPersist(settings, w, Do(settings, w, step), id);
      case Read(id) =>
        assert CallOk(settings, w, w.calls[id]);
        CallsPersist(settings, w, Do(settings, w, step), id);
      case _ => RouterStepKeepsInv(settings, w, step);
    }
  }

  // ---------------------------------------------------------------------------
  // Whole runs
  // ---------------------------------------------------------------------------

  lemma {:induction false} RunKeepsInv(settings: Settings, w: World, steps: seq<Step>)
    requires Inv(settings, w) && Runs(settings, w, steps)
    ensures var w' := After(settings, w, steps); Inv(settings, w') && Grows(w, w')
    decreases |steps|
  {
    if steps != [] {
      StepKeepsInv(settings, w, steps[0]);
      RunKeepsInv(settings, Do(settings, w, steps[0]), steps[1..]);
    }
  }

  /** In every reachable state each cached pool has its tenant's current generation, the cap holds,
      and every pool ever created is cached once, or being ended once, or ended once. */
  lemma ReachableRouter(settings: Settings, registry: Registry, steps: seq<Step>)
    requires Runs(settings, Initial(registry), steps)
    ensures var r := After(settings, Initial(registry), steps).router;
            && |r.cache| <= settings.PoolMax()
            && DistinctKeys(r.cache)
            && (forall e <- r.cache :: e.generation == Generation(r, e.key))
            && EachPoolOnce(r)
  {
    InitialInv(settings, registry);
    RunKeepsInv(settings, Initial(registry), steps);
    var r := After(settings, Initial(registry), steps).router;
    forall e | e in r.cache ensures e.generation == Generation(r, e.key) {
      assert Current(settings, r, e);
    }
  }

  predicate SameCall(w: World, w': World, id: CallId)
    requires id in w.calls
  {
    && id in w'.calls
    && var (c, c') := (w.calls[id], w'.calls[id]);
       c'.key == c.key && c'.truthy == c.truthy && c'.since == c.since && c'.startGeneration == c.startGeneration
  }

  lemma StepKeepsIdentity(settings: Settings, w: World, step: Step, id: CallId)
    requires w.history != [] && Enabled(w, step) && id in w.calls
    ensures SameCall(w, Do(settings, w, step), id)
  {
    hide Normalize, Commit, Evict, Invalidate;
  }

  /** A call keeps its tenant and the record of when it began. */
  lemma {:induction false} CallKeepsIdentity(settings: Settings, w: World, steps: seq<Step>, id: CallId)
    requires w.history != [] && Runs(settings, w, steps) && id in w.calls
    ensures SameCall(w, After(settings, w, steps), id)
    decreases |steps|
  {
    if steps != [] {
      hide Enabled, Resume, ReturnCall;
      StepKeepsIdentity(settings, w, steps[0], id);
      CallKeepsIdentity(settings, Do(settings, w, steps[0]), steps[1..], id);
    }
  }

  /** What a getTenantPool call may answer, for any interleaving: w is any reachable state, the call
      starts there, and w' is any later state; `until` is the registry version when the call returned. */
  ghost predicate AnsweredFromRegistry(settings: Settings, w: World, w': World, id: CallId, key: TenantKey)
    requires id in w'.calls && w'.calls[id].phase.Returned?
  {
    var outcome := w'.calls[id].phase.outcome;
    outcome == Failed(ConfigChanged) ||
    exists v: nat :: |w.history| - 1 <= v <= w'.calls[id].phase.until && AnswerAt(settings, w', key, v, outcome)
  }

  /** The outcome is the one that the tenant's row in registry version v calls for: a pool made from its
      columns, the primary when the row is not isolated, an error when columns are missing. */
  predicate AnswerAt(settings: Settings, w: World, key: TenantKey, v: nat, outcome: Outcome) {
    v < |w.history| &&
    var row := if key in w.history[v] then Some(w.history[v][key]) else None;
    match outcome
    case Routed(pool) => IsolatedRow(row) && !LacksColumns(row) && pool < |w.router.built| && Connects(settings, row.value, w.router.built[pool])
    case Primary => !IsolatedRow(row)
    case Failed(e) => e.IncompleteConfig? && LacksColumns(row)
  }

  lemma OutcomeIsAnswer(settings: Settings, w: World, c: Call, outcome: Outcome, readAt: nat)
    requires readAt < |w.history| && c.truthy && OutcomeOk(settings, w, c, outcome, readAt) && outcome != Failed(ConfigChanged)
    ensures AnswerAt(settings, w, c.key, readAt, outcome)
  {
    hide Normalize, Connects, LacksColumns;
    var row := if c.key in w.history[readAt] then Some(w.history[readAt][c.key]) else None;
    if outcome.Routed? {
      NormalizeExact(settings, row, w.router.built[outcome.pool]);
    } else {
      NormalizeExact(settings, row, Config("", 0, "", "", "", None));
    }
  }

  /** The pool a call returns was built from a configuration the registry held at an instant of that
      call; likewise for falling back to the primary and for the incomplete-configuration error. */
  lemma AnswerWasHeldDuringCall(settings: Settings, w: World, id: CallId, key: TenantKey, steps: seq<Step>, w': World)
    requires Inv(settings, w) && Enabled(w, Start(id, true, key))
    requires Runs(settings, Do(settings, w, Start(id, true, key)), steps)
    requires w' == After(settings, Do(settings, w, Start(id, true, key)), steps)
    requires id in w'.calls && w'.calls[id].phase.Returned?
    ensures AnsweredFromRegistry(settings, w, w', id, key)
  {
    var w1 := Do(settings, w, Start(id, true, key));
    StepKeepsInv(settings, w, Start(id, true, key));
    RunKeepsInv(settings, w1, steps);
    CallKeepsIdentity(settings, w1, steps, id);
    assert CallOk(settings, w', w'.calls[id]);
    var c := w'.calls[id];
    if c.phase.outcome != Failed(ConfigChanged) {
      OutcomeIsAnswer(settings, w', c, c.phase.outcome, c.phase.readAt);
    }
  }

  /** Registry queries made by a call never exceed one more than the invalidations of its tenant
      since it began, and it gives up only after three of them. */
  lemma RetriesBounded(settings: Settings, w: World, id: CallId, key: TenantKey, steps: seq<Step>)
    requires Inv(settings, w) && Enabled(w, Start(id, true, key))
    requires Runs(settings, Do(settings, w, Start(id, true, key)), steps)
    ensures var w' := After(settings, Do(settings, w, Start(id, true, key)), steps);
            var invalidations := Generation(w'.router, key) - Generation(w.router, key);
            && id in w'.calls
            && w'.calls[id].queries <= 1 + invalidations
            && (w'.calls[id].phase.Returned? && w'.calls[id].phase.outcome == Failed(ConfigChanged) ==> invalidations >= 3)
  {
    var w1 := Do(settings, w, Start(id, true, key));
    StepKeepsInv(settings, w, Start(id, true, key));
    RunKeepsInv(settings, w1, steps);
    CallKeepsIdentity(settings, w1, steps, id);
    var w' := After(settings, w1, steps);
    assert CallOk(settings, w', w'.calls[id]);
  }

  /** Generation counts invalidations. */
  function Invalidations(steps: seq<Step>, key: TenantKey): nat {
    if steps == [] then 0
    else (if steps[0] == InvalidateConfig(key) then 1 else 0) + Invalidations(steps[1..], key)
  }

  lemma StepCounts(settings: Settings, w: World, step: Step, key: TenantKey)
    requires w.history != [] && Enabled(w, step)
    ensures Generation(Do(settings, w, step).router, key) == Generation(w.router, key) + if step == InvalidateConfig(key) then 1 else 0
  {
    hide Commit, Normalize, Find, Without;
    if step.ResumeCall? {
      var c := w.calls[step.id];
      if Resume(settings, w.router, c.key, c.phase.snapshot, step.now).1.UsePool? {
        var s := c.phase.snapshot.value;
        CommitKeepsGenerations(settings, w.router, c.key, s.config.value, s.generation, s.fingerprint, step.now);
      }
    }
  }

  lemma {:induction false} GenerationCounts(settings: Settings, w: World, steps: seq<Step>, key: TenantKey)
    requires w.history != [] && Runs(settings, w, steps)
    ensures Generation(After(settings, w, steps).router, key) == Generation(w.router, key) + Invalidations(steps, key)
    decreases |steps|
  {
    if steps != [] {
      StepCounts(settings, w, steps[0], key);
      GenerationCounts(settings, Do(settings, w, steps[0]), steps[1..], key);
    }
  }

  /** A sorted cache capped from the old end loses only entries older than all it keeps. */
  lemma CapEvictsOldest(r: Router, max: nat, touched: map<TenantKey, nat>, clock: nat, victim: Entry)
    requires RecencySorted(r.cache, touched, clock) && victim in r.cache
    ensures var r' := Cap(r, max);
            victim in r'.cache
            || (|r'.cache| == max && forall kept <- r'.cache :: kept.key in touched && touched[victim.key] < touched[kept.key])
  {
    var i :| 0 <= i < |r.cache| && r.cache[i] == victim;
    var kept := Cap(r, max).cache;
    var extra := |r.cache| - max;
    if extra > 0 && i >= extra {
      assert kept[i - extra] == victim;
    }
  }

  /** A commit evicts only idle pools and, beyond the cap, pools used strictly longer ago than every
      pool it keeps; the tenant it serves is kept. */
  lemma CommitEvictsOldest(settings: Settings, r: Router, touched: map<TenantKey, nat>, clock: nat,
                           key: TenantKey, config: Config, fingerprint: Fingerprint, now: int, victim: Entry)
    requires RouterOk(settings, r, touched, clock)
    requires fingerprint.RowPrint? && config == ConfigOfPrint(settings, fingerprint)
    requires victim in r.cache && victim.key != key && !IsIdle(settings, victim, now)
    ensures var r' := Commit(settings, r, key, config, Generation(r, key), fingerprint, now);
            var touched' := touched[key := clock];
            && (exists e <- r'.cache :: e.key == key)
            && (victim in r'.cache
                || (&& |r'.cache| == settings.PoolMax()
                    && forall kept <- r'.cache :: kept.key in touched' && touched'[victim.key] < touched'[kept.key]))
  {
    var swept := EvictIdle(settings, r, now);
    CommitKeepsCache(settings, r, key, config, fingerprint, now);
    CommitKeepsRecency(settings, r, key, config, fingerprint, now, touched, clock);
    SweepKeeps(settings, r.cache, now, victim);
    WithoutKeeps(swept.cache, key, victim);
    var placed := Place(swept, key, config, Generation(r, key), fingerprint, now);
    CapEvictsOldest(placed, settings.PoolMax(), touched[key := clock], clock + 1, victim);
  }

  lemma {:induction false} SweepKeeps(settings: Settings, cache: seq<Entry>, now: int, e: Entry)
    requires e in cache && !IsIdle(settings, e, now)
    ensures e in Fresh(settings, cache, now)
  {
    if e in cache[..|cache| - 1] {
      SweepKeeps(settings, cache[..|cache| - 1], now, e);
    }
  }

  lemma WithoutKeeps(cache: seq<Entry>, key: TenantKey, e: Entry)
    requires e in cache && e.key != key
    ensures e in Without(cache, key)
  {
    var j :| 0 <= j < |cache| && cache[j] == e;
    var i := Position(cache, key);
    if i < |cache| {
      assert Without(cache, key)[if j < i then j else j - 1] == e;
    }
  }

  // ---------------------------------------------------------------------------
  // After an invalidation
  // ---------------------------------------------------------------------------

  /** A call that has already resolved "no isolated database" from a registry version before v. */
  predicate Stale(phase: Phase, v: nat) {
    phase.Resolved? && phase.snapshot.Some? && phase.snapshot.value.config.None? && phase.readAt < v
  }

  /** State since an invalidation of `key` that found `built` pools created, generation `g` and
      registry version `v`; `done` had returned by then and `stale` had resolved an older "no". */
  ghost predicate Guarded(w: World, key: TenantKey, g: nat, built: nat, v: nat, done: set<CallId>, stale: set<CallId>) {
    && v < |w.history| && built <= |w.router.built| && g < Generation(w.router, key)
    && (forall e <- w.router.cache :: e.key == key ==> e.pool >= built)
    && forall id <- w.calls :: id !in done && w.calls[id].key == key && w.calls[id].truthy
         ==> CallGuarded(w.calls[id].phase, g, built, v, id in stale)
  }

  predicate CallGuarded(phase: Phase, g: nat, built: nat, v: nat, stale: bool) {
    match phase
    case Querying(_, _) => !stale
    case Answered(_, generation, _, readAt) => !stale && (generation > g ==> readAt >= v)
    case Resolved(None, _) => false
    case Resolved(Some(s), readAt) => if stale then Stale(phase, v) else s.generation > g || s.config.None? ==> readAt >= v
    case Returned(Routed(pool), readAt, _) => !stale && pool >= built && readAt >= v
    case Returned(Primary, readAt, _) => readAt < v <==> stale
    case Returned(Failed(_), _, _) => !stale
  }

  lemma CommitGuarded(settings: Settings, r: Router, key: TenantKey, config: Config, generation: nat,
                      fingerprint: Fingerprint, now: int, k: TenantKey, built: nat)
    requires built <= |r.built| && forall e <- r.cache :: e.key == k ==> e.pool >= built
    ensures var r' := Commit(settings, r, key, config, generation, fingerprint, now);
            && built <= |r'.built| && (forall e <- r'.cache :: e.key == k ==> e.pool >= built)
            && (key == k ==> r'.cache != [] && Newest(r') >= built)
  {
    var swept := EvictIdle(settings, r, now);
    FreshWithin(settings, r.cache, now);
    var placed := Place(swept, key, config, generation, fingerprint, now);
    var last := PlacedEntry(swept, key, generation, fingerprint, now);
    assert key == k ==> last.pool >= built;
    forall e | e in placed.cache && e.key == k ensures e.pool >= built {
      if e != last {
        assert e in Without(swept.cache, key);
        assert e in swept.cache;
      }
    }
  }

  /** A step that moves one call, and whatever it does to the router. */
  lemma MoveKeepsGuard(w: World, w': World, id: CallId, key: TenantKey, g: nat, built: nat, v: nat, done: set<CallId>, stale: set<CallId>)
    requires Guarded(w, key, g, built, v, done, stale) && id in w.calls && id in w'.calls
    requires w'.history == w.history && w'.calls == w.calls[id := w'.calls[id]]
    requires w'.calls[id].key == w.calls[id].key && w'.calls[id].truthy == w.calls[id].truthy
    requires built <= |w'.router.built| && w'.router.generations == w.router.generations
    requires forall e <- w'.router.cache :: e.key == key ==> e.pool >= built
    requires w.calls[id].key == key && w.calls[id].truthy && id !in done ==> CallGuarded(w'.calls[id].phase, g, built, v, id in stale)
    ensures Guarded(w', key, g, built, v, done, stale)
  {
  }

  lemma RoutedKeepsGuard(settings: Settings, w: World, id: CallId, now: int, key: TenantKey, g: nat, built: nat, v: nat,
                         done: set<CallId>, stale: set<CallId>)
    requires Inv(settings, w) && Enabled(w, ResumeCall(id, now)) && Guarded(w, key, g, built, v, done, stale)
    requires Resume(settings, w.router, w.calls[id].key, w.calls[id].phase.snapshot, now).1.UsePool?
    ensures Guarded(Do(settings, w, ResumeCall(id, now)), key, g, built, v, done, stale)
  {
    hide Commit, Normalize;
    var c := w.calls[id];
    assert CallOk(settings, w, c);
    var r' := RoutedRouter(settings, w, id, now);
    RoutedWorldIs(settings, w, id, now, r');
    var s := c.phase.snapshot.value;
    CommitGuarded(settings, w.router, c.key, s.config.value, s.generation, s.fingerprint, now, key, built);
    MoveKeepsGuard(w, RoutedWorld(w, id, r', w.touched[c.key := w.clock], w.clock + 1), id, key, g, built, v, done, stale);
  }

  lemma ResumeKeepsGuard(settings: Settings, w: World, id: CallId, now: int, key: TenantKey, g: nat, built: nat, v: nat,
                         done: set<CallId>, stale: set<CallId>)
    requires Inv(settings, w) && Enabled(w, ResumeCall(id, now)) && Guarded(w, key, g, built, v, done, stale)
    ensures Guarded(Do(settings, w, ResumeCall(id, now)), key, g, built, v, done, stale)
  {
    var c := w.calls[id];
    assert CallOk(settings, w, c);
    match Resume(settings, w.router, c.key, c.phase.snapshot, now).1 {
      case UsePool(_) => RoutedKeepsGuard(settings, w, id, now, key, g, built, v, done, stale);
      case UsePrimary =>
        EvictGuarded(w.router, c.key, key, built);
        MoveKeepsGuard(w, Do(settings, w, ResumeCall(id, now)), id, key, g, built, v, done, stale);
      case LookAgain =>
        MoveKeepsGuard(w, Do(settings, w, ResumeCall(id, now)), id, key, g, built, v, done, stale);
    }
  }

  lemma EvictGuarded(r: Router, key: TenantKey, k: TenantKey, built: nat)
    requires forall e <- r.cache :: e.key == k ==> e.pool >= built
    ensures forall e <- Evict(r, key).cache :: e.key == k ==> e.pool >= built
  {
    assert forall e <- Evict(r, key).cache :: e in r.cache;
  }

  lemma StepKeepsGuard(settings: Settings, w: World, step: Step, key: TenantKey, g: nat, built: nat, v: nat,
                       done: set<CallId>, stale: set<CallId>)
    requires Inv(settings, w) && Enabled(w, step) && Guarded(w, key, g, built, v, done, stale)
    requires step.Start? ==> step.id !in done + stale
    ensures Guarded(Do(settings, w, step), key, g, built, v, done, stale)
  {
    match step {
      case ResumeCall(id, now) => ResumeKeepsGuard(settings, w, id, now, key, g, built, v, done, stale);
      case Return(id) => assert CallOk(settings, w, w.calls[id]);
      case InvalidateConfig(k) => assert forall e <- Invalidate(w.router, k).cache :: e in w.router.cache;
      case _ =>
    }
  }

  lemma {:induction false} RunKeepsGuard(settings: Settings, w: World, steps: seq<Step>, key: TenantKey, g: nat, built: nat,
                                         v: nat, done: set<CallId>, stale: set<CallId>)
    requires Inv(settings, w) && Runs(settings, w, steps) && Guarded(w, key, g, built, v, done, stale)
    requires done + stale <= w.calls.Keys
    ensures Guarded(After(settings, w, steps), key, g, built, v, done, stale)
    decreases |steps|
  {
    if steps != [] {
      StepKeepsGuard(settings, w, steps[0], key, g, built, v, done, stale);
      StepKeepsInv(settings, w, steps[0]);
      RunKeepsGuard(settings, Do(settings, w, steps[0]), steps[1..], key, g, built, v, done, stale);
    }
  }

  /** A lookup begun before invalidateTenantDbConfig can never put an old pool back.  Whatever happens
      afterwards, a pool cached for the tenant, or returned by a call not yet finished at the
      invalidation, was created after it.  A call that was not finished and answers without an error
      answers from a registry version older than the invalidation if and only if it had, by then,
      already resolved "no isolated database" from such a version. */
  lemma InvalidationIsFinal(settings: Settings, w: World, key: TenantKey, steps: seq<Step>, id: CallId)
    requires Inv(settings, w) && Runs(settings, Do(settings, w, InvalidateConfig(key)), steps)
    ensures var w' := After(settings, Do(settings, w, InvalidateConfig(key)), steps);
            && (forall e <- w'.router.cache :: e.key == key ==> e.pool >= |w.router.built|)
            && (id in w'.calls && w'.calls[id].key == key && w'.calls[id].truthy && w'.calls[id].phase.Returned?
                && !(id in w.calls && w.calls[id].phase.Returned?)
                ==> AnsweredSince(w, w'.calls[id].phase, id))
  {
    hide Normalize, Runs, After, CallOk, RouterOk, CallGuarded, Guarded;
    var w1 := Do(settings, w, InvalidateConfig(key));
    var done := set i | i in w.calls && w.calls[i].phase.Returned?;
    var stale := set i | i in w.calls && Stale(w.calls[i].phase, w.Version());
    StepKeepsInv(settings, w, InvalidateConfig(key));
    InvalidationGuards(settings, w, key, done, stale);
    RunKeepsGuard(settings, w1, steps, key, Generation(w.router, key), |w.router.built|, |w.history| - 1, done, stale);
    GuardedAnswers(settings, w, After(settings, w1, steps), key, id, done, stale);
  }

  lemma InvalidationGuards(settings: Settings, w: World, key: TenantKey, done: set<CallId>, stale: set<CallId>)
    requires Inv(settings, w) && done == (set i | i in w.calls && w.calls[i].phase.Returned?)
    requires stale == (set i | i in w.calls && Stale(w.calls[i].phase, w.Version()))
    ensures Guarded(Do(settings, w, InvalidateConfig(key)), key, Generation(w.router, key), |w.router.built|, |w.history| - 1, done, stale)
  {
    hide Normalize;
    var w1 := Do(settings, w, InvalidateConfig(key));
    InvalidateKeepsCache(settings, w.router, key);
    forall i | i in w1.calls && i !in done && w1.calls[i].key == key && w1.calls[i].truthy
      ensures CallGuarded(w1.calls[i].phase, Generation(w.router, key), |w.router.built|, |w.history| - 1, i in stale)
    {
      assert CallOk(settings, w, w.calls[i]);
    }
  }

  lemma GuardedAnswers(settings: Settings, w: World, w': World, key: TenantKey, id: CallId, done: set<CallId>, stale: set<CallId>)
    requires w.history != [] && done == (set i | i in w.calls && w.calls[i].phase.Returned?)
    requires stale == (set i | i in w.calls && Stale(w.calls[i].phase, w.Version()))
    requires Guarded(w', key, Generation(w.router, key), |w.router.built|, |w.history| - 1, done, stale)
    ensures forall e <- w'.router.cache :: e.key == key ==> e.pool >= |w.router.built|
    ensures id in w'.calls && w'.calls[id].key == key && w'.calls[id].truthy && w'.calls[id].phase.Returned?
            && !(id in w.calls && w.calls[id].phase.Returned?)
            ==> AnsweredSince(w, w'.calls[id].phase, id)
  {
  }

  /** How a call answers that was not finished when w's tenant was invalidated. */
  predicate AnsweredSince(w: World, phase: Phase, id: CallId)
    requires phase.Returned? && w.history != []
  {
    && (phase.outcome.Routed? ==> phase.outcome.pool >= |w.router.built|)
    && (!phase.outcome.Failed? ==>
          (phase.readAt < w.Version() <==> id in w.calls && Stale(w.calls[id].phase, w.Version())))
  }

  /** `w` is where `steps` leads from an empty router over this registry. */
  ghost predicate Leads(settings: Settings, registry: Registry, steps: seq<Step>, w: World) {
    Runs(settings, Initial(registry), steps) && w == After(settings, Initial(registry), steps)
  }

  lemma {:induction false} RunAppend(settings: Settings, w: World, steps: seq<Step>, step: Step)
    requires w.history != [] && Runs(settings, w, steps)
    requires After(settings, w, steps).history != [] && Enabled(After(settings, w, steps), step)
    ensures Runs(settings, w, steps + [step])
    ensures After(settings, w, steps + [step]) == Do(settings, After(settings, w, steps), step)
    decreases |steps|
  {
    hide Enabled, Resume, ReturnCall;
    if steps == [] {
      assert (steps + [step])[1..] == [];
    } else {
      assert (steps + [step])[1..] == steps[1..] + [step];
      RunAppend(settings, Do(settings, w, steps[0]), steps[1..], step);
    }
  }

  lemma Take(settings: Settings, registry: Registry, steps: seq<Step>, w: World, step: Step)
    requires Leads(settings, registry, steps, w) && w.history != [] && Enabled(w, step)
    ensures Leads(settings, registry, steps + [step], Do(settings, w, step))
  {
    RunAppend(settings, Initial(registry), steps, step);
  }

  /** A lookup of a tenant without a registry row resolves "no isolated database". */
  lemma ResolvesNone(settings: Settings, key: TenantKey) returns (steps: seq<Step>, w: World)
    ensures Leads(settings, map[], steps, w)
    ensures w.history == [map[]] && w.router == Initial(map[]).router && 1 in w.calls
    ensures w.calls[1].key == key && w.calls[1].truthy && w.calls[1].phase == Resolved(Some(Snapshot(None, 0, SharedPrint)), 0)
  {
    var w0 := Initial(map[]);
    assert Leads(settings, map[], [], w0);
    Take(settings, map[], [], w0, Start(1, true, key));
    var w1 := Do(settings, w0, Start(1, true, key));
    Take(settings, map[], [] + [Start(1, true, key)], w1, Read(1));
    var w2 := Do(settings, w1, Read(1));
    assert w2.calls[1].phase == Answered(0, 0, None, 0);
    Take(settings, map[], [] + [Start(1, true, key)] + [Read(1)], w2, Return(1));
    w := Do(settings, w2, Return(1));
    assert w.calls[1] == ReturnCall(settings, w2, w2.calls[1]);
    steps := [] + [Start(1, true, key)] + [Read(1)] + [Return(1)];
  }

  /** Such an answer is reached: the lookup resolves before the tenant gets its database, and resumes after
      the tenant's row is written and invalidated. */
  lemma StaleAnswerReached(settings: Settings, key: TenantKey, row: ConfigRow, now: int)
    returns (before: seq<Step>, w: World, w': World)
    requires Normalize(settings, Some(row)).Isolated?
    ensures Leads(settings, map[], before, w) && w.history != [] && w.history[w.Version()] == map[key := row]
    ensures Leads(settings, map[], before + [InvalidateConfig(key)] + [ResumeCall(1, now)], w')
    ensures 1 in w'.calls && w'.calls[1].key == key && w'.calls[1].truthy
    ensures w'.calls[1].phase.Returned? && w'.calls[1].phase.outcome == Primary && w'.calls[1].phase.readAt < w.Version()
  {
    var steps, w3 := ResolvesNone(settings, key);
    var write := WriteRegistry(map[key := row]);
    Take(settings, map[], steps, w3, write);
    before, w := steps + [write], Do(settings, w3, write);
    Take(settings, map[], before, w, InvalidateConfig(key));
    var w5 := Do(settings, w, InvalidateConfig(key));
    Take(settings, map[], before + [InvalidateConfig(key)], w5, ResumeCall(1, now));
    w' := Do(settings, w5, ResumeCall(1, now));
  }
}
