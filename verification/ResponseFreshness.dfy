/**
  Interleavings of cached GETs and mutations.  Each await ends a step, so a request reads the
  version, looks its key up, runs each query of its handler, and stores its body in separate steps,
  and a mutation commits, reads the counter and writes it back in separate steps.  Fields marked as
  history record what happened and no step decides by them.
*/
module ResponseFreshness {
  import opened CacheKeys
  import opened ResponseCache

  type RequestId = nat
  type MutationId = nat

  /** What the handler answers for an organization, resource and query, given the database state that each
      of its queries saw; queries are numbered and may run in any order. */
  type Renderer<!Db> = (RawScope, Query, map<nat, Db>) -> string

  /** The database version each query of a handler read; history. */
  type Sources = map<nat, nat>

  datatype Phase =
    | Keyed(version: nat)
    | Missed(version: nat, sources: Sources)
    | Rendered(version: nat, body: string, sources: Sources)
    | Answered(body: string, hit: bool, sources: Sources)

  /** `key` is the response key computed from the version read; `seen` is history: the mutations whose
      bust had completed at that read. */
  datatype Request = Request(scope: Scope, keys: seq<string>, query: Query, key: string, phase: Phase, seen: set<nat>)

  datatype BustPhase = Written | Busting(current: nat) | Busted

  /** `index` is the database version the mutation committed. */
  datatype Mutation = Mutation(scope: Scope, index: nat, phase: BustPhase)

  /** History of a stored body. */
  datatype Origin = Origin(scope: Scope, version: nat, keys: seq<string>, query: Query, sources: Sources)

  /** `dbs[i]` is the database after i commits.  `origins` and `floors` are history: floors[scope][v]
      holds the mutations whose bust completed while the counter was at most v. */
  datatype World<Db> = World(
    dbs: seq<Db>,
    store: Store,
    requests: map<RequestId, Request>,
    mutations: map<MutationId, Mutation>,
    origins: map<string, Origin>,
    floors: map<RawScope, seq<set<nat>>>)

  datatype Step<Db> =
    | Arrive(id: RequestId, scope: Scope, keys: seq<string>, query: Query)
    | Lookup(id: RequestId)
    | Read(id: RequestId, number: nat)
    | Render(id: RequestId)
    | Finish(id: RequestId, keep: bool)
    | Commit(mutation: MutationId, scope: Scope, db: Db)
    | BeginBust(mutation: MutationId)
    | EndBust(mutation: MutationId)
    | Drop(key: string)

  function Initial<Db>(db: Db): World<Db> {
    World([db], map[], map[], map[], map[], map[])
  }

  function FloorsOf(floors: map<RawScope, seq<set<nat>>>, scope: Scope): seq<set<nat>> {
    if scope in floors then floors[scope] else [{}]
  }

  /** Mutations of a scope whose bust has completed. */
  function BustedOf(mutations: map<MutationId, Mutation>, scope: Scope): set<nat> {
    set m | m in mutations && mutations[m].scope == scope && mutations[m].phase.Busted? :: mutations[m].index
  }

  ghost predicate Enabled<Db>(w: World<Db>, step: Step<Db>) {
    match step
    case Arrive(id, _, keys, query) => id !in w.requests && Enumerates(keys, query)
    case Lookup(id) => id in w.requests && w.requests[id].phase.Keyed?
    case Read(id, number) => id in w.requests && w.requests[id].phase.Missed? && number !in w.requests[id].phase.sources
    case Render(id) => id in w.requests && w.requests[id].phase.Missed?
    case Finish(id, _) => id in w.requests && w.requests[id].phase.Rendered?
    case Commit(m, _, _) => m !in w.mutations
    case BeginBust(m) => m in w.mutations && w.mutations[m].phase.Written?
    case EndBust(m) => m in w.mutations && w.mutations[m].phase.Busting?
    case Drop(_) => true
  }

  /** A request after its first await: the version is read and the key built from it. */
  function ArriveRequest(w: World, scope: Scope, keys: seq<string>, query: Query): Request {
    var version := VersionOf(w.store, scope);
    Request(scope, keys, query, ResponseKey(scope, version, QueryString(keys, query)), Keyed(version), BustedOf(w.mutations, scope))
  }

  function OriginOf(w: World, key: string): Sources {
    if key in w.origins then w.origins[key].sources else map[]
  }

  function DoLookup<Db>(w: World<Db>, id: RequestId): World<Db>
    requires id in w.requests && w.requests[id].phase.Keyed?
  {
    var r := w.requests[id];
    var phase := if r.key in w.store && w.store[r.key].Body?
                 then Answered(w.store[r.key].text, true, OriginOf(w, r.key))
                 else Missed(r.phase.version, map[]);
    w.(requests := w.requests[id := r.(phase := phase)])
  }

  /** One query of the handler reads the current database. */
  function ReadRequest(w: World, r: Request, number: nat): Request
    requires r.phase.Missed? && w.dbs != []
  {
    r.(phase := Missed(r.phase.version, r.phase.sources[number := |w.dbs| - 1]))
  }

  /** The database states the queries saw. */
  function Seen<Db>(dbs: seq<Db>, sources: Sources): map<nat, Db> {
    map number | number in sources && sources[number] < |dbs| :: dbs[sources[number]]
  }

  /** The handler answers from what its queries read. */
  function RenderRequest<Db>(render: Renderer<Db>, w: World<Db>, r: Request): Request
    requires r.phase.Missed?
  {
    r.(phase := Rendered(r.phase.version, render(r.scope, r.query, Seen(w.dbs, r.phase.sources)), r.phase.sources))
  }

  function DoFinish<Db>(w: World<Db>, id: RequestId, keep: bool): World<Db>
    requires id in w.requests && w.requests[id].phase.Rendered?
  {
    var r := w.requests[id];
    var answered := w.requests[id := r.(phase := Answered(r.phase.body, false, r.phase.sources))];
    if keep then
      w.(requests := answered,
         store := w.store[r.key := Body(r.phase.body)],
         origins := w.origins[r.key := Origin(r.scope, r.phase.version, r.keys, r.query, r.phase.sources)])
    else
      w.(requests := answered)
  }

  /** The counter is written back as one more than what this bust read. */
  function DoEndBust<Db>(w: World<Db>, m: MutationId): World<Db>
    requires m in w.mutations && w.mutations[m].phase.Busting?
  {
    var mutation := w.mutations[m];
    var next := mutation.phase.current + 1;
    var floors := FloorsOf(w.floors, mutation.scope);
    var floor := BustedOf(w.mutations, mutation.scope) + {mutation.index};
    w.(store := w.store[VersionKey(mutation.scope) := Version(next)],
       mutations := w.mutations[m := mutation.(phase := Busted)],
       floors := w.floors[mutation.scope := floors[..if next < |floors| then next else |floors|] + [floor]])
  }

  function Do<Db>(render: Renderer<Db>, w: World<Db>, step: Step<Db>): (w': World<Db>)
    requires Enabled(w, step) && w.dbs != []
    ensures w'.dbs != []
  {
    match step
    case Arrive(id, scope, keys, query) =>
      w.(requests := w.requests[id := ArriveRequest(w, scope, keys, query)])
    case Lookup(id) => DoLookup(w, id)
    case Read(id, number) => w.(requests := w.requests[id := ReadRequest(w, w.requests[id], number)])
    case Render(id) => w.(requests := w.requests[id := RenderRequest(render, w, w.requests[id])])
    case Finish(id, keep) => DoFinish(w, id, keep)
    case Commit(m, scope, db) =>
      w.(dbs := w.dbs + [db], mutations := w.mutations[m := Mutation(scope, |w.dbs|, Written)])
    case BeginBust(m) =>
      w.(mutations := w.mutations[m := w.mutations[m].(phase := Busting(VersionOf(w.store, w.mutations[m].scope)))])
    case EndBust(m) => DoEndBust(w, m)
    case Drop(key) => w.(store := w.store - {key}, origins := w.origins - {key})
  }

  // ---------------------------------------------------------------------------
  // Assumptions on the environment
  // ---------------------------------------------------------------------------

  /** A counter above 0 is never lost and no bust writes it back to an earlier value; queries are strings. */
  ghost predicate Steady<Db>(w: World<Db>, step: Step<Db>) {
    match step
    case Arrive(_, _, _, query) => StringValued(query)
    case EndBust(m) => m in w.mutations && w.mutations[m].phase.Busting?
                       && VersionOf(w.store, w.mutations[m].scope) <= w.mutations[m].phase.current + 1
    case Drop(key) => forall scope: Scope :: key == VersionKey(scope) ==> VersionOf(w.store, scope) == 0
    case _ => true
  }

  ghost predicate Runs<Db>(render: Renderer<Db>, w: World<Db>, steps: seq<Step<Db>>)
    requires w.dbs != []
    decreases |steps|
  {
    steps == [] || (Enabled(w, steps[0]) && Runs(render, Do(render, w, steps[0]), steps[1..]))
  }

  ghost predicate SteadyRun<Db>(render: Renderer<Db>, w: World<Db>, steps: seq<Step<Db>>)
    requires w.dbs != [] && Runs(render, w, steps)
    decreases |steps|
  {
    steps == [] || (Steady(w, steps[0]) && SteadyRun(render, Do(render, w, steps[0]), steps[1..]))
  }

  ghost function After<Db>(render: Renderer<Db>, w: World<Db>, steps: seq<Step<Db>>): (w': World<Db>)
    requires w.dbs != [] && Runs(render, w, steps)
    ensures w'.dbs != []
    decreases |steps|
  {
    if steps == [] then w else After(render, Do(render, w, steps[0]), steps[1..])
  }

  // ---------------------------------------------------------------------------
  // Invariant
  // ---------------------------------------------------------------------------

  predicate AboutToWrite(m: Mutation, scope: Scope, v: nat) {
    m.scope == scope && m.phase.Busting? && m.phase.current + 1 == v
  }

  /** A query that reads database version `from` on behalf of version v sees every mutation busted by v,
      and every mutation whose unfinished bust is going to write v. */
  ghost predicate FreshFor(w: World, scope: Scope, v: nat, from: nat) {
    && v < |FloorsOf(w.floors, scope)|
    && from < |w.dbs|
    && (forall m <- FloorsOf(w.floors, scope)[v] :: m <= from)
    && forall m <- w.mutations :: AboutToWrite(w.mutations[m], scope, v) ==> w.mutations[m].index <= from
  }

  ghost predicate AllFresh(w: World, scope: Scope, v: nat, sources: Sources) {
    && v < |FloorsOf(w.floors, scope)|
    && forall number <- sources :: FreshFor(w, scope, v, sources[number])
  }

  /** The body is what the handler gives when its queries saw these versions. */
  predicate RenderedFrom<Db>(render: Renderer<Db>, dbs: seq<Db>, scope: RawScope, query: Query, sources: Sources, body: string) {
    && (forall number <- sources :: sources[number] < |dbs|)
    && body == render(scope, query, Seen(dbs, sources))
  }

  /** Every query saw each of these mutations. */
  predicate AllSaw(sources: Sources, mutations: set<nat>) {
    forall number <- sources, m <- mutations :: m <= sources[number]
  }

  ghost predicate CounterOk(w: World, scope: Scope) {
    && VersionOf(w.store, scope) == |FloorsOf(w.floors, scope)| - 1
    && FloorsOf(w.floors, scope)[|FloorsOf(w.floors, scope)| - 1] == BustedOf(w.mutations, scope)
  }

  ghost predicate BodyOk<Db>(render: Renderer<Db>, w: World<Db>, key: string, text: string, o: Origin) {
    && key == ResponseKey(o.scope, o.version, QueryString(o.keys, o.query))
    && Enumerates(o.keys, o.query) && StringValued(o.query)
    && AllFresh(w, o.scope, o.version, o.sources)
    && RenderedFrom(render, w.dbs, o.scope, o.query, o.sources, text)
  }

  ghost predicate StoreOk<Db>(render: Renderer<Db>, w: World<Db>) {
    forall key <- w.store :: w.store[key].Body? ==>
      key in w.origins && BodyOk(render, w, key, w.store[key].text, w.origins[key])
  }

  ghost predicate RequestOk<Db>(render: Renderer<Db>, w: World<Db>, r: Request) {
    && Enumerates(r.keys, r.query) && StringValued(r.query)
    && (!r.phase.Answered? ==> r.key == ResponseKey(r.scope, r.phase.version, QueryString(r.keys, r.query)))
    && (forall m <- r.seen :: m < |w.dbs|)
    && match r.phase {
         case Keyed(v) => v < |FloorsOf(w.floors, r.scope)| && r.seen <= FloorsOf(w.floors, r.scope)[v]
         case Missed(v, sources) =>
           && v < |FloorsOf(w.floors, r.scope)| && r.seen <= FloorsOf(w.floors, r.scope)[v]
           && AllFresh(w, r.scope, v, sources)
         case Rendered(v, body, sources) =>
           && v < |FloorsOf(w.floors, r.scope)| && r.seen <= FloorsOf(w.floors, r.scope)[v]
           && AllFresh(w, r.scope, v, sources) && RenderedFrom(render, w.dbs, r.scope, r.query, sources, body)
         case Answered(body, _, sources) =>
           RenderedFrom(render, w.dbs, r.scope, r.query, sources, body) && AllSaw(sources, r.seen)
       }
  }

  ghost predicate MutationsOk(w: World) {
    && (forall m <- w.mutations :: w.mutations[m].index < |w.dbs|)
    && (forall m <- w.mutations :: w.mutations[m].phase.Busting? ==>
          w.mutations[m].phase.current < |FloorsOf(w.floors, w.mutations[m].scope)|)
    && forall scope: Scope :: FloorsCommitted(w, scope)
  }

  ghost predicate FloorsCommitted(w: World, scope: Scope) {
    forall v :: 0 <= v < |FloorsOf(w.floors, scope)| ==> Committed(FloorsOf(w.floors, scope)[v], |w.dbs|)
  }

  predicate Committed(floor: set<nat>, versions: nat) {
    forall m <- floor :: m < versions
  }

  ghost predicate Inv<Db>(render: Renderer<Db>, w: World<Db>) {
    && w.dbs != []
    && (forall scope: Scope :: CounterOk(w, scope))
    && MutationsOk(w)
    && StoreOk(render, w)
    && forall id <- w.requests :: RequestOk(render, w, w.requests[id])
  }

  lemma InitialInv<Db>(render: Renderer<Db>, db: Db)
    ensures Inv(render, Initial(db))
  {
  }

  // ---------------------------------------------------------------------------
  // Steps that do not touch counters
  // ---------------------------------------------------------------------------

  /** Steps after which everything known about a stored body or a request still holds. */
  ghost predicate Calm<Db>(w: World<Db>, w': World<Db>) {
    && w.dbs <= w'.dbs
    && w'.floors == w.floors
    && (forall scope: Scope :: VersionOf(w'.store, scope) == VersionOf(w.store, scope) && BustedOf(w'.mutations, scope) == BustedOf(w.mutations, scope))
    && forall m <- w'.mutations :: w'.mutations[m].phase.Busting? ==>
         (m in w.mutations && w'.mutations[m] == w.mutations[m])
         || w'.mutations[m].phase.current + 1 == |FloorsOf(w.floors, w'.mutations[m].scope)|
  }

  lemma CalmKeepsFresh<Db>(w: World<Db>, w': World<Db>, scope: Scope, v: nat, sources: Sources)
    requires Calm(w, w') && AllFresh(w, scope, v, sources)
    ensures AllFresh(w', scope, v, sources)
  {
    forall number | number in sources ensures FreshFor(w', scope, v, sources[number]) {
      assert FreshFor(w, scope, v, sources[number]);
    }
  }

  /** Old database versions are never rewritten. */
  lemma SeenStays<Db>(dbs: seq<Db>, dbs': seq<Db>, sources: Sources)
    requires dbs <= dbs' && forall number <- sources :: sources[number] < |dbs|
    ensures Seen(dbs', sources) == Seen(dbs, sources)
  {
  }

  lemma CalmKeepsRequest<Db>(render: Renderer<Db>, w: World<Db>, w': World<Db>, r: Request)
    requires Calm(w, w') && RequestOk(render, w, r)
    ensures RequestOk(render, w', r)
  {
    if r.phase.Missed? || r.phase.Rendered? {
      CalmKeepsFresh(w, w', r.scope, r.phase.version, r.phase.sources);
    }
    if r.phase.Rendered? || r.phase.Answered? {
      SeenStays(w.dbs, w'.dbs, r.phase.sources);
    }
  }

  lemma CalmKeepsBody<Db>(render: Renderer<Db>, w: World<Db>, w': World<Db>, key: string, text: string, o: Origin)
    requires Calm(w, w') && BodyOk(render, w, key, text, o)
    ensures BodyOk(render, w', key, text, o)
  {
    CalmKeepsFresh(w, w', o.scope, o.version, o.sources);
    SeenStays(w.dbs, w'.dbs, o.sources);
  }

  lemma CalmKeepsStore<Db>(render: Renderer<Db>, w: World<Db>, w': World<Db>)
    requires Calm(w, w') && StoreOk(render, w)
    requires forall key <- w'.store :: w'.store[key].Body? ==>
               key in w.store && w'.store[key] == w.store[key] && key in w.origins && key in w'.origins && w'.origins[key] == w.origins[key]
    ensures StoreOk(render, w')
  {
    forall key | key in w'.store && w'.store[key].Body?
      ensures BodyOk(render, w', key, w'.store[key].text, w'.origins[key])
    {
      CalmKeepsBody(render, w, w', key, w.store[key].text, w.origins[key]);
    }
  }

  lemma CalmKeepsRequests<Db>(render: Renderer<Db>, w: World<Db>, w': World<Db>, id: RequestId)
    requires Calm(w, w') && Inv(render, w)
    requires w'.requests.Keys <= w.requests.Keys + {id}
    requires forall other <- w'.requests :: other != id ==> w'.requests[other] == w.requests[other]
    requires id in w'.requests ==> RequestOk(render, w', w'.requests[id])
    ensures forall other <- w'.requests :: RequestOk(render, w', w'.requests[other])
  {
    forall other | other in w'.requests ensures RequestOk(render, w', w'.requests[other]) {
      if other != id {
        CalmKeepsRequest(render, w, w', w.requests[other]);
      }
    }
  }

  /** A calm step keeps the invariant when what it adds is all right. */
  lemma CalmKeepsInv<Db>(render: Renderer<Db>, w: World<Db>, w': World<Db>)
    requires Inv(render, w) && Calm(w, w') && StoreOk(render, w')
    requires forall other <- w'.requests :: RequestOk(render, w', w'.requests[other])
    requires forall m <- w'.mutations :: w'.mutations[m].index < |w'.dbs|
    ensures Inv(render, w')
  {
    forall scope: Scope ensures CounterOk(w', scope) && FloorsCommitted(w', scope) {
      assert CounterOk(w, scope) && FloorsCommitted(w, scope);
    }
    forall m | m in w'.mutations && w'.mutations[m].phase.Busting?
      ensures w'.mutations[m].phase.current < |FloorsOf(w'.floors, w'.mutations[m].scope)|
    {
    }
  }

  lemma ArriveKeepsInv<Db>(render: Renderer<Db>, w: World<Db>, step: Step<Db>)
    requires Inv(render, w) && step.Arrive? && Enabled(w, step) && Steady(w, step)
    ensures Inv(render, Do(render, w, step))
  {
    var w' := Do(render, w, step);
    assert CounterOk(w, step.scope);
    assert FloorsCommitted(w, step.scope);
    CalmKeepsStore(render, w, w');
    CalmKeepsRequests(render, w, w', step.id);
    CalmKeepsInv(render, w, w');
  }

  /** A stored body found under the key of a request is the rendering of that very request. */
  lemma HitIsOwnRendering<Db>(render: Renderer<Db>, w: World<Db>, r: Request, v: nat)
    requires StoreOk(render, w) && Enumerates(r.keys, r.query) && StringValued(r.query)
    requires r.key == ResponseKey(r.scope, v, QueryString(r.keys, r.query))
    requires r.key in w.store && w.store[r.key].Body?
    ensures r.key in w.origins
    ensures var sources := w.origins[r.key].sources;
            && AllFresh(w, r.scope, v, sources)
            && RenderedFrom(render, w.dbs, r.scope, r.query, sources, w.store[r.key].text)
  {
    var o := w.origins[r.key];
    ResponseKeyInjective(o.scope, o.version, QueryString(o.keys, o.query), r.scope, v, QueryString(r.keys, r.query));
    StringQueriesNeverShare(o.keys, o.query, r.keys, r.query);
  }

  /** What is fresh for a version has been seen by everything that version stands for. */
  lemma FreshSaw<Db>(w: World<Db>, scope: Scope, v: nat, sources: Sources, seen: set<nat>)
    requires AllFresh(w, scope, v, sources) && seen <= FloorsOf(w.floors, scope)[v]
    ensures AllSaw(sources, seen)
  {
    forall number, m | number in sources && m in seen ensures m <= sources[number] {
      assert FreshFor(w, scope, v, sources[number]) && m in FloorsOf(w.floors, scope)[v];
    }
  }

  /** A hit answers with a body that reflects every mutation the request had to see. */
  lemma LookedUpOk<Db>(render: Renderer<Db>, w: World<Db>, id: RequestId)
    requires Inv(render, w) && id in w.requests && w.requests[id].phase.Keyed?
    ensures RequestOk(render, DoLookup(w, id), DoLookup(w, id).requests[id])
  {
    var r := w.requests[id];
    assert RequestOk(render, w, r);
    if r.key in w.store && w.store[r.key].Body? {
      HitIsOwnRendering(render, w, r, r.phase.version);
      FreshSaw(w, r.scope, r.phase.version, w.origins[r.key].sources, r.seen);
    }
  }

  lemma LookupKeepsInv<Db>(render: Renderer<Db>, w: World<Db>, step: Step<Db>)
    requires Inv(render, w) && step.Lookup? && Enabled(w, step)
    ensures Inv(render, Do(render, w, step))
  {
    var w' := Do(render, w, step);
    LookedUpOk(render, w, step.id);
    CalmKeepsStore(render, w, w');
    CalmKeepsRequests(render, w, w', step.id);
    CalmKeepsInv(render, w, w');
  }

  /** The newest database version reflects everything. */
  lemma LatestIsFresh<Db>(render: Renderer<Db>, w: World<Db>, scope: Scope, v: nat)
    requires Inv(render, w) && v < |FloorsOf(w.floors, scope)|
    ensures FreshFor(w, scope, v, |w.dbs| - 1)
  {
    assert FloorsCommitted(w, scope);
  }

  lemma ReadOk<Db>(render: Renderer<Db>, w: World<Db>, r: Request, number: nat)
    requires Inv(render, w) && RequestOk(render, w, r) && r.phase.Missed?
    ensures RequestOk(render, w, ReadRequest(w, r, number))
  {
    LatestIsFresh(render, w, r.scope, r.phase.version);
    var sources := r.phase.sources[number := |w.dbs| - 1];
    forall k | k in sources ensures FreshFor(w, r.scope, r.phase.version, sources[k]) {
      if k != number {
        assert FreshFor(w, r.scope, r.phase.version, r.phase.sources[k]);
      }
    }
  }

  lemma RenderedOk<Db>(render: Renderer<Db>, w: World<Db>, r: Request)
    requires RequestOk(render, w, r) && r.phase.Missed?
    ensures RequestOk(render, w, RenderRequest(render, w, r))
  {
    forall number | number in r.phase.sources ensures r.phase.sources[number] < |w.dbs| {
      assert FreshFor(w, r.scope, r.phase.version, r.phase.sources[number]);
    }
  }

  /** A step that only moves one request. */
  lemma MoveKeepsInv<Db>(render: Renderer<Db>, w: World<Db>, id: RequestId, r: Request)
    requires Inv(render, w) && id in w.requests && RequestOk(render, w, r)
    ensures Inv(render, w.(requests := w.requests[id := r]))
  {
    var w' := w.(requests := w.requests[id := r]);
    CalmKeepsRequest(render, w, w', r);
    CalmKeepsStore(render, w, w');
    CalmKeepsRequests(render, w, w', id);
    CalmKeepsInv(render, w, w');
  }

  lemma RenderKeepsInv<Db>(render: Renderer<Db>, w: World<Db>, step: Step<Db>)
    requires Inv(render, w) && (step.Read? || step.Render?) && Enabled(w, step)
    ensures Inv(render, Do(render, w, step))
  {
    var r := w.requests[step.id];
    assert RequestOk(render, w, r);
    if step.Read? {
      ReadOk(render, w, r, step.number);
      MoveKeepsInv(render, w, step.id, ReadRequest(w, r, step.number));
    } else {
      RenderedOk(render, w, r);
      MoveKeepsInv(render, w, step.id, RenderRequest(render, w, r));
    }
  }

  lemma FinishKeepsStore<Db>(render: Renderer<Db>, w: World<Db>, w': World<Db>, key: string, text: string, o: Origin)
    requires StoreOk(render, w) && Calm(w, w') && BodyOk(render, w, key, text, o)
    requires w'.store == w.store[key := Body(text)] && w'.origins == w.origins[key := o]
    ensures StoreOk(render, w')
  {
    CalmKeepsBody(render, w, w', key, text, o);
    forall k | k in w'.store && w'.store[k].Body? && k != key
      ensures BodyOk(render, w', k, w'.store[k].text, w'.origins[k])
    {
      CalmKeepsBody(render, w, w', k, w.store[k].text, w.origins[k]);
    }
  }

  lemma FinishIsCalm<Db>(w: World<Db>, id: RequestId, keep: bool)
    requires id in w.requests && w.requests[id].phase.Rendered?
    requires var r := w.requests[id]; r.key == ResponseKey(r.scope, r.phase.version, QueryString(r.keys, r.query))
    ensures Calm(w, DoFinish(w, id, keep))
  {
    var r := w.requests[id];
    forall scope: Scope ensures VersionOf(DoFinish(w, id, keep).store, scope) == VersionOf(w.store, scope) {
      KeyKindsDiffer(scope, r.scope, r.phase.version, QueryString(r.keys, r.query));
    }
  }

  lemma FinishedOk<Db>(render: Renderer<Db>, w: World<Db>, id: RequestId, keep: bool)
    requires Inv(render, w) && id in w.requests && w.requests[id].phase.Rendered?
    ensures RequestOk(render, DoFinish(w, id, keep), DoFinish(w, id, keep).requests[id])
  {
    var r := w.requests[id];
    assert RequestOk(render, w, r);
    FreshSaw(w, r.scope, r.phase.version, r.phase.sources, r.seen);
  }

  lemma FinishKeepsInv<Db>(render: Renderer<Db>, w: World<Db>, step: Step<Db>)
    requires Inv(render, w) && step.Finish? && Enabled(w, step)
    ensures Inv(render, Do(render, w, step))
  {
    var w' := Do(render, w, step);
    var r := w.requests[step.id];
    assert RequestOk(render, w, r);
    FinishIsCalm(w, step.id, step.keep);
    FinishedOk(render, w, step.id, step.keep);
    if step.keep {
      var o := Origin(r.scope, r.phase.version, r.keys, r.query, r.phase.sources);
      FinishKeepsStore(render, w, w', r.key, r.phase.body, o);
    } else {
      CalmKeepsStore(render, w, w');
    }
    CalmKeepsRequests(render, w, w', step.id);
    CalmKeepsInv(render, w, w');
  }

  lemma CalmKeepsAllRequests<Db>(render: Renderer<Db>, w: World<Db>, w': World<Db>)
    requires Calm(w, w') && Inv(render, w) && w'.requests == w.requests
    ensures forall other <- w'.requests :: RequestOk(render, w', w'.requests[other])
  {
    forall other | other in w'.requests ensures RequestOk(render, w', w'.requests[other]) {
      CalmKeepsRequest(render, w, w', w.requests[other]);
    }
  }

  lemma DropKeepsInv<Db>(render: Renderer<Db>, w: World<Db>, step: Step<Db>)
    requires Inv(render, w) && step.Drop? && Steady(w, step)
    ensures Inv(render, Do(render, w, step))
  {
    var w' := Do(render, w, step);
    forall scope: Scope ensures VersionOf(w'.store, scope) == VersionOf(w.store, scope) {
      assert step.key == VersionKey(scope) ==> VersionOf(w.store, scope) == 0;
    }
    CalmKeepsStore(render, w, w');
    CalmKeepsAllRequests(render, w, w');
    CalmKeepsInv(render, w, w');
  }

  /** A commit or the start of a bust completes no bust. */
  lemma WriteStepIsCalm<Db>(render: Renderer<Db>, w: World<Db>, step: Step<Db>)
    requires Inv(render, w) && (step.Commit? || step.BeginBust?) && Enabled(w, step)
    ensures Calm(w, Do(render, w, step))
  {
    var w' := Do(render, w, step);
    forall scope: Scope ensures BustedOf(w'.mutations, scope) == BustedOf(w.mutations, scope) {
      forall i | i in BustedOf(w.mutations, scope) ensures i in BustedOf(w'.mutations, scope) {
        var m :| m in w.mutations && w.mutations[m].scope == scope && w.mutations[m].phase.Busted? && w.mutations[m].index == i;
        assert m in w'.mutations && w'.mutations[m] == w.mutations[m];
      }
    }
    if step.BeginBust? {
      assert CounterOk(w, w.mutations[step.mutation].scope);
    }
  }

  lemma WriteStepKeepsInv<Db>(render: Renderer<Db>, w: World<Db>, step: Step<Db>)
    requires Inv(render, w) && (step.Commit? || step.BeginBust?) && Enabled(w, step)
    ensures Inv(render, Do(render, w, step))
  {
    hide CounterOk, RequestOk;
    var w' := Do(render, w, step);
    WriteStepIsCalm(render, w, step);
    CalmKeepsStore(render, w, w');
    CalmKeepsAllRequests(render, w, w');
    CalmKeepsInv(render, w, w');
  }

  // ---------------------------------------------------------------------------
  // Completing a bust
  // ---------------------------------------------------------------------------

  lemma BustedGains(mutations: map<MutationId, Mutation>, m: MutationId, scope: Scope)
    requires m in mutations && mutations[m].phase.Busting?
    ensures var after := mutations[m := mutations[m].(phase := Busted)];
            BustedOf(after, scope) == BustedOf(mutations, scope) + if mutations[m].scope == scope then {mutations[m].index} else {}
  {
    var after := mutations[m := mutations[m].(phase := Busted)];
    forall i | i in BustedOf(mutations, scope) ensures i in BustedOf(after, scope) {
      var k :| k in mutations && mutations[k].scope == scope && mutations[k].phase.Busted? && mutations[k].index == i;
      assert k in after && after[k] == mutations[k];
    }
    if mutations[m].scope == scope {
      assert m in after && after[m].phase.Busted? && after[m].index in BustedOf(after, scope);
    }
    forall i | i in BustedOf(after, scope)
      ensures i in BustedOf(mutations, scope) + if mutations[m].scope == scope then {mutations[m].index} else {}
    {
      var k :| k in after && after[k].scope == scope && after[k].phase.Busted? && after[k].index == i;
      if k != m {
        assert k in mutations && mutations[k] == after[k];
      }
    }
  }

  lemma EndBustFloors<Db>(render: Renderer<Db>, w: World<Db>, m: MutationId)
    requires Inv(render, w) && Enabled(w, EndBust(m)) && Steady(w, EndBust(m))
    ensures var scope := w.mutations[m].scope;
            var (floors, floors') := (FloorsOf(w.floors, scope), FloorsOf(DoEndBust(w, m).floors, scope));
            && (|floors'| == |floors| || |floors'| == |floors| + 1)
            && |floors'| == w.mutations[m].phase.current + 2
            && (forall v :: 0 <= v < |floors'| - 1 ==> floors'[v] == floors[v])
            && floors'[|floors'| - 1] == floors[|floors| - 1] + {w.mutations[m].index}
  {
    assert CounterOk(w, w.mutations[m].scope);
  }

  lemma EndBustOwnCounter<Db>(render: Renderer<Db>, w: World<Db>, m: MutationId)
    requires Inv(render, w) && Enabled(w, EndBust(m)) && Steady(w, EndBust(m))
    ensures CounterOk(DoEndBust(w, m), w.mutations[m].scope)
  {
    var scope := w.mutations[m].scope;
    assert CounterOk(w, scope);
    BustedGains(w.mutations, m, scope);
    EndBustFloors(render, w, m);
  }

  lemma EndBustOtherCounter<Db>(w: World<Db>, m: MutationId, other: Scope)
    requires m in w.mutations && w.mutations[m].phase.Busting? && other != w.mutations[m].scope && CounterOk(w, other)
    ensures CounterOk(DoEndBust(w, m), other)
  {
    BustedGains(w.mutations, m, other);
    if VersionKey(other) == VersionKey(w.mutations[m].scope) {
      VersionKeyInjective(other, w.mutations[m].scope);
    }
    assert VersionOf(DoEndBust(w, m).store, other) == VersionOf(w.store, other);
  }

  /** The counter ends where the bookkeeping says, for the busted scope and for every other. */
  lemma EndBustCounter<Db>(render: Renderer<Db>, w: World<Db>, m: MutationId, other: Scope)
    requires Inv(render, w) && Enabled(w, EndBust(m)) && Steady(w, EndBust(m))
    ensures CounterOk(DoEndBust(w, m), other)
  {
    if other == w.mutations[m].scope {
      EndBustOwnCounter(render, w, m);
    } else {
      assert CounterOk(w, other);
      EndBustOtherCounter(w, m, other);
    }
  }

  lemma EndBustKeepsOneFresh<Db>(render: Renderer<Db>, w: World<Db>, m: MutationId, scope: Scope, v: nat, from: nat)
    requires Inv(render, w) && Enabled(w, EndBust(m)) && Steady(w, EndBust(m))
    requires FreshFor(w, scope, v, from)
    ensures FreshFor(DoEndBust(w, m), scope, v, from)
  {
    EndBustFloors(render, w, m);
    if scope == w.mutations[m].scope && v == w.mutations[m].phase.current + 1 {
      assert AboutToWrite(w.mutations[m], scope, v);
    }
  }

  lemma EndBustKeepsFresh<Db>(render: Renderer<Db>, w: World<Db>, m: MutationId, scope: Scope, v: nat, sources: Sources)
    requires Inv(render, w) && Enabled(w, EndBust(m)) && Steady(w, EndBust(m))
    requires AllFresh(w, scope, v, sources)
    ensures AllFresh(DoEndBust(w, m), scope, v, sources)
  {
    EndBustFloorsGrow(render, w, m, scope);
    forall number | number in sources ensures FreshFor(DoEndBust(w, m), scope, v, sources[number]) {
      EndBustKeepsOneFresh(render, w, m, scope, v, sources[number]);
    }
  }

  ghost predicate FloorsGrow(w: World, w': World, scope: Scope) {
    && |FloorsOf(w.floors, scope)| <= |FloorsOf(w'.floors, scope)|
    && forall v :: 0 <= v < |FloorsOf(w.floors, scope)| ==> FloorsOf(w.floors, scope)[v] <= FloorsOf(w'.floors, scope)[v]
  }

  lemma EndBustFloorsGrow<Db>(render: Renderer<Db>, w: World<Db>, m: MutationId, scope: Scope)
    requires Inv(render, w) && Enabled(w, EndBust(m)) && Steady(w, EndBust(m))
    ensures FloorsGrow(w, DoEndBust(w, m), scope)
  {
    hide StoreOk, RequestOk, MutationsOk, BustedOf;
    EndBustFloors(render, w, m);
  }

  lemma RequestPersists<Db>(render: Renderer<Db>, w: World<Db>, w': World<Db>, r: Request)
    requires RequestOk(render, w, r) && w'.dbs == w.dbs && FloorsGrow(w, w', r.scope)
    requires r.phase.Missed? || r.phase.Rendered? ==> AllFresh(w', r.scope, r.phase.version, r.phase.sources)
    ensures RequestOk(render, w', r)
  {
  }

  lemma EndBustKeepsRequest<Db>(render: Renderer<Db>, w: World<Db>, m: MutationId, r: Request)
    requires Inv(render, w) && Enabled(w, EndBust(m)) && Steady(w, EndBust(m))
    requires RequestOk(render, w, r)
    ensures RequestOk(render, DoEndBust(w, m), r)
  {
    EndBustFloorsGrow(render, w, m, r.scope);
    if r.phase.Missed? || r.phase.Rendered? {
      EndBustKeepsFresh(render, w, m, r.scope, r.phase.version, r.phase.sources);
    }
    RequestPersists(render, w, DoEndBust(w, m), r);
  }

  lemma EndBustKeepsStore<Db>(render: Renderer<Db>, w: World<Db>, m: MutationId)
    requires Inv(render, w) && Enabled(w, EndBust(m)) && Steady(w, EndBust(m))
    ensures StoreOk(render, DoEndBust(w, m))
  {
    var w' := DoEndBust(w, m);
    forall key | key in w'.store && w'.store[key].Body?
      ensures key in w'.origins && BodyOk(render, w', key, w'.store[key].text, w'.origins[key])
    {
      var o := w.origins[key];
      EndBustKeepsFresh(render, w, m, o.scope, o.version, o.sources);
    }
  }

  lemma EndBustFloorsCommitted<Db>(render: Renderer<Db>, w: World<Db>, m: MutationId, scope: Scope)
    requires Inv(render, w) && Enabled(w, EndBust(m)) && Steady(w, EndBust(m))
    ensures FloorsCommitted(DoEndBust(w, m), scope)
  {
    assert FloorsCommitted(w, scope);
    var (floors, floors') := (FloorsOf(w.floors, scope), FloorsOf(DoEndBust(w, m).floors, scope));
    if scope == w.mutations[m].scope {
      EndBustFloors(render, w, m);
      forall v | 0 <= v < |floors'| ensures Committed(floors'[v], |w.dbs|) {
        assert Committed(floors[if v < |floors'| - 1 then v else |floors| - 1], |w.dbs|);
      }
    } else {
      assert floors' == floors;
    }
  }

  lemma EndBustKeepsMutations<Db>(render: Renderer<Db>, w: World<Db>, m: MutationId)
    requires Inv(render, w) && Enabled(w, EndBust(m)) && Steady(w, EndBust(m))
    ensures MutationsOk(DoEndBust(w, m))
  {
    EndBustFloors(render, w, m);
    forall scope: Scope ensures FloorsCommitted(DoEndBust(w, m), scope) {
      EndBustFloorsCommitted(render, w, m, scope);
    }
  }

  lemma EndBustKeepsInv<Db>(render: Renderer<Db>, w: World<Db>, m: MutationId)
    requires Inv(render, w) && Enabled(w, EndBust(m)) && Steady(w, EndBust(m))
    ensures Inv(render, DoEndBust(w, m))
  {
    forall other: Scope ensures CounterOk(DoEndBust(w, m), other) {
      EndBustCounter(render, w, m, other);
    }
    EndBustKeepsStore(render, w, m);
    EndBustKeepsMutations(render, w, m);
    forall id | id in w.requests ensures RequestOk(render, DoEndBust(w, m), w.requests[id]) {
      EndBustKeepsRequest(render, w, m, w.requests[id]);
    }
  }

  // ---------------------------------------------------------------------------
  // Whole runs
  // ---------------------------------------------------------------------------

  lemma StepKeepsInv<Db>(render: Renderer<Db>, w: World<Db>, step: Step<Db>)
    requires Inv(render, w) && Enabled(w, step) && Steady(w, step)
    ensures Inv(render, Do(render, w, step))
  {
    match step {
      case Arrive(_, _, _, _) => ArriveKeepsInv(render, w, step);
      case Lookup(_) => LookupKeepsInv(render, w, step);
      case Read(_, _) => RenderKeepsInv(render, w, step);
      case Render(_) => RenderKeepsInv(render, w, step);
      case Finish(_, _) => FinishKeepsInv(render, w, step);
      case Commit(_, _, _) => WriteStepKeepsInv(render, w, step);
      case BeginBust(_) => WriteStepKeepsInv(render, w, step);
      case EndBust(m) => EndBustKeepsInv(render, w, m);
      case Drop(_) => DropKeepsInv(render, w, step);
    }
  }

  lemma {:induction false} RunKeepsInv<Db>(render: Renderer<Db>, w: World<Db>, steps: seq<Step<Db>>)
    requires Inv(render, w) && Runs(render, w, steps) && SteadyRun(render, w, steps)
    ensures Inv(render, After(render, w, steps))
    decreases |steps|
  {
    if steps != [] {
      StepKeepsInv(render, w, steps[0]);
      RunKeepsInv(render, Do(render, w, steps[0]), steps[1..]);
    }
  }

  ghost predicate SameQuestion<Db>(w: World<Db>, w': World<Db>, id: RequestId)
    requires id in w.requests
  {
    && w.dbs <= w'.dbs && id in w'.requests
    && w'.requests[id].scope == w.requests[id].scope
    && w'.requests[id].query == w.requests[id].query
    && w'.requests[id].seen == w.requests[id].seen
  }

  lemma RequestStepKeepsQuestion<Db>(w: World<Db>, r: RequestId, keep: bool, id: RequestId)
    requires r in w.requests && id in w.requests
    ensures w.requests[r].phase.Keyed? ==> SameQuestion(w, DoLookup(w, r), id)
    ensures w.requests[r].phase.Rendered? ==> SameQuestion(w, DoFinish(w, r, keep), id)
  {
  }

  lemma EndBustKeepsQuestion<Db>(w: World<Db>, m: MutationId, id: RequestId)
    requires m in w.mutations && w.mutations[m].phase.Busting? && id in w.requests
    ensures SameQuestion(w, DoEndBust(w, m), id)
  {
  }

  lemma StepKeepsQuestion<Db>(render: Renderer<Db>, w: World<Db>, step: Step<Db>, id: RequestId)
    requires w.dbs != [] && Enabled(w, step) && id in w.requests
    ensures SameQuestion(w, Do(render, w, step), id)
  {
    match step {
      case Lookup(r) => RequestStepKeepsQuestion(w, r, false, id);
      case Finish(r, keep) => RequestStepKeepsQuestion(w, r, keep, id);
      case EndBust(m) => EndBustKeepsQuestion(w, m, id);
      case _ =>
    }
  }

  /** A request keeps what it asked and what it had to see; database versions are never rewritten. */
  lemma {:induction false} RequestKeepsQuestion<Db>(render: Renderer<Db>, w: World<Db>, steps: seq<Step<Db>>, id: RequestId)
    requires w.dbs != [] && Runs(render, w, steps) && id in w.requests
    ensures SameQuestion(w, After(render, w, steps), id)
    decreases |steps|
  {
    if steps != [] {
      StepKeepsQuestion(render, w, steps[0], id);
      RequestKeepsQuestion(render, Do(render, w, steps[0]), steps[1..], id);
    }
  }

  /** Cache coherence.  w is any state a steady run reaches; a GET arrives there and is answered, from
      the cache or not, in a later state w'.  The answer is what the handler gives when each of its
      queries sees a database state at least as new as every mutation of that organization and resource
      whose bust had completed when the request read the version; `sources` records which. */
  lemma AnswerIsFresh<Db>(render: Renderer<Db>, w: World<Db>, id: RequestId, scope: Scope, keys: seq<string>, query: Query,
                          steps: seq<Step<Db>>, w': World<Db>)
    requires Inv(render, w) && Enabled(w, Arrive(id, scope, keys, query)) && StringValued(query)
    requires var w1 := Do(render, w, Arrive(id, scope, keys, query));
             Runs(render, w1, steps) && SteadyRun(render, w1, steps) && w' == After(render, w1, steps)
    requires id in w'.requests && w'.requests[id].phase.Answered?
    ensures var phase := w'.requests[id].phase;
            && RenderedFrom(render, w'.dbs, scope, query, phase.sources, phase.body)
            && AllSaw(phase.sources, BustedOf(w.mutations, scope))
  {
    var w1 := Do(render, w, Arrive(id, scope, keys, query));
    StepKeepsInv(render, w, Arrive(id, scope, keys, query));
    RunKeepsInv(render, w1, steps);
    RequestKeepsQuestion(render, w1, steps, id);
    assert RequestOk(render, w', w'.requests[id]);
  }

  // ---------------------------------------------------------------------------
  // Non-overlapping busts are steady
  // ---------------------------------------------------------------------------

  predicate BustsBeside(mutations: map<MutationId, Mutation>, m: MutationId, other: MutationId)
    requires m in mutations && other in mutations
  {
    other != m && mutations[other].scope == mutations[m].scope && mutations[other].phase.Busting?
  }

  /** A bust starts only when no other bust of its scope is under way, and no counter above 0 is lost. */
  ghost predicate Alone<Db>(w: World<Db>, step: Step<Db>) {
    match step
    case Arrive(_, _, _, query) => StringValued(query)
    case BeginBust(m) => m in w.mutations && forall other <- w.mutations :: !BustsBeside(w.mutations, m, other)
    case Drop(key) => forall scope: Scope :: key == VersionKey(scope) ==> VersionOf(w.store, scope) == 0
    case _ => true
  }

  ghost predicate AloneRun<Db>(render: Renderer<Db>, w: World<Db>, steps: seq<Step<Db>>)
    requires w.dbs != [] && Runs(render, w, steps)
    decreases |steps|
  {
    steps == [] || (Alone(w, steps[0]) && AloneRun(render, Do(render, w, steps[0]), steps[1..]))
  }

  /** The only unfinished bust of a scope holds the scope's current counter. */
  ghost predicate OneBust(w: World) {
    && (forall m <- w.mutations :: w.mutations[m].phase.Busting? ==>
          w.mutations[m].phase.current == VersionOf(w.store, w.mutations[m].scope))
    && forall m, other :: m in w.mutations && other in w.mutations && m != other
         && w.mutations[m].phase.Busting? && w.mutations[other].phase.Busting?
         ==> w.mutations[m].scope != w.mutations[other].scope
  }

  lemma EndBustKeepsOneBust<Db>(w: World<Db>, m: MutationId)
    requires OneBust(w) && m in w.mutations && w.mutations[m].phase.Busting?
    ensures OneBust(DoEndBust(w, m))
  {
    var w' := DoEndBust(w, m);
    forall other | other in w'.mutations && w'.mutations[other].phase.Busting?
      ensures w'.mutations[other].phase.current == VersionOf(w'.store, w'.mutations[other].scope)
    {
      assert w'.mutations[other] == w.mutations[other];
      var scope := w.mutations[other].scope;
      if VersionKey(scope) == VersionKey(w.mutations[m].scope) {
        VersionKeyInjective(scope, w.mutations[m].scope);
      }
    }
  }

  /** Unfinished busts and counters as they were. */
  lemma SameBusts<Db>(w: World<Db>, w': World<Db>)
    requires OneBust(w) && w'.mutations == w.mutations
    requires forall scope: Scope :: VersionOf(w'.store, scope) == VersionOf(w.store, scope)
    ensures OneBust(w')
  {
  }

  lemma WriteKeepsOneBust<Db>(render: Renderer<Db>, w: World<Db>, step: Step<Db>)
    requires w.dbs != [] && OneBust(w) && Enabled(w, step) && Alone(w, step) && (step.Commit? || step.BeginBust?)
    ensures OneBust(Do(render, w, step))
  {
  }

  lemma StepKeepsOneBust<Db>(render: Renderer<Db>, w: World<Db>, step: Step<Db>)
    requires Inv(render, w) && OneBust(w) && Enabled(w, step) && Alone(w, step)
    ensures Steady(w, step) && OneBust(Do(render, w, step))
  {
    match step {
      case Finish(id, keep) =>
        assert RequestOk(render, w, w.requests[id]);
        FinishIsCalm(w, id, keep);
        SameBusts(w, DoFinish(w, id, keep));
      case EndBust(m) => EndBustKeepsOneBust(w, m);
      case Commit(_, _, _) => WriteKeepsOneBust(render, w, step);
      case BeginBust(_) => WriteKeepsOneBust(render, w, step);
      case _ => SameBusts(w, Do(render, w, step));
    }
  }

  /** So freshness holds in particular on every run in which busts of one organization and resource do
      not overlap and the version key outlives the run. */
  lemma {:induction false} NonOverlappingIsSteady<Db>(render: Renderer<Db>, w: World<Db>, steps: seq<Step<Db>>)
    requires Inv(render, w) && OneBust(w) && Runs(render, w, steps) && AloneRun(render, w, steps)
    ensures SteadyRun(render, w, steps)
    decreases |steps|
  {
    if steps != [] {
      StepKeepsOneBust(render, w, steps[0]);
      StepKeepsInv(render, w, steps[0]);
      NonOverlappingIsSteady(render, Do(render, w, steps[0]), steps[1..]);
    }
  }
}
