/**
  When the response cache goes stale.  `ResponseFreshness` shows that steady steps keep answers fresh;
  here every step that is not steady is shown to lead to a stale answer, so steadiness is exactly the
  condition.
*/
module ResponseStaleness {
  import opened CacheKeys
  import opened ResponseCache
  import opened ResponseFreshness

  // ---------------------------------------------------------------------------
  // Fresh answers
  // ---------------------------------------------------------------------------

  /** The answer is what the handler gives when the queries behind it see states as new as the request had
      to see. */
  ghost predicate Fresh<Db>(render: Renderer<Db>, w: World<Db>, r: Request)
    requires r.phase.Answered?
  {
    exists sources: Sources ::
      sources.Keys == r.phase.sources.Keys && RenderedFrom(render, w.dbs, r.scope, r.query, sources, r.phase.body) && AllSaw(sources, r.seen)
  }

  ghost predicate AllAnswersFresh<Db>(render: Renderer<Db>, w: World<Db>) {
    forall id <- w.requests :: w.requests[id].phase.Answered? ==> Fresh(render, w, w.requests[id])
  }

  lemma InvIsFresh<Db>(render: Renderer<Db>, w: World<Db>)
    requires Inv(render, w)
    ensures AllAnswersFresh(render, w)
  {
    forall id | id in w.requests && w.requests[id].phase.Answered? ensures Fresh(render, w, w.requests[id]) {
      assert RequestOk(render, w, w.requests[id]);
    }
  }

  /** A handler whose answer shows what its first two queries saw. */
  function Whole(scope: RawScope, query: Query, dbs: map<nat, string>): string {
    (if 0 in dbs then dbs[0] else "") + (if 1 in dbs then dbs[1] else "")
  }

  // ---------------------------------------------------------------------------
  // Steady stretches of a run
  // ---------------------------------------------------------------------------

  /** Steady steps lead from w0 to w. */
  ghost predicate Leads(w0: World<string>, steps: seq<Step<string>>, w: World<string>) {
    w0.dbs != [] && Runs(Whole, w0, steps) && SteadyRun(Whole, w0, steps) && w == After(Whole, w0, steps)
  }

  /** A step of a GET, or the eviction of a body: no counter and no mutation is concerned. */
  ghost predicate ReadStep(step: Step<string>) {
    match step
    case Commit(_, _, _) => false
    case BeginBust(_) => false
    case EndBust(_) => false
    case Drop(key) => forall scope: Scope :: key != VersionKey(scope)
    case _ => true
  }

  ghost predicate ReadsOnly(steps: seq<Step<string>>) {
    forall step <- steps :: ReadStep(step)
  }

  /** From w: some reads, then the step, then steady steps to w'. */
  ghost predicate Path(w: World<string>, pre: seq<Step<string>>, step: Step<string>, post: seq<Step<string>>, w': World<string>) {
    && ReadsOnly(pre) && w.dbs != [] && Runs(Whole, w, pre) && SteadyRun(Whole, w, pre)
    && var w1 := After(Whole, w, pre);
       Enabled(w1, step) && Leads(Do(Whole, w1, step), post, w')
  }

  /** Whatever is cached before the step and whatever steady steps follow it, all answers are fresh. */
  ghost predicate StaysFresh(w: World<string>, step: Step<string>) {
    forall pre: seq<Step<string>>, post: seq<Step<string>>, w': World<string> ::
      Path(w, pre, step, post, w') ==> AllAnswersFresh(Whole, w')
  }

  lemma {:induction false} RunAppend(w: World<string>, steps: seq<Step<string>>, step: Step<string>)
    requires w.dbs != [] && Runs(Whole, w, steps) && Enabled(After(Whole, w, steps), step)
    requires SteadyRun(Whole, w, steps) && Steady(After(Whole, w, steps), step)
    ensures Runs(Whole, w, steps + [step]) && SteadyRun(Whole, w, steps + [step])
    ensures After(Whole, w, steps + [step]) == Do(Whole, After(Whole, w, steps), step)
    decreases |steps|
  {
    hide Do, Enabled, Steady;
    if steps == [] {
      assert (steps + [step])[1..] == [];
    } else {
      assert (steps + [step])[1..] == steps[1..] + [step];
      RunAppend(Do(Whole, w, steps[0]), steps[1..], step);
    }
  }

  lemma Take(w0: World<string>, steps: seq<Step<string>>, w: World<string>, step: Step<string>)
    requires Leads(w0, steps, w) && w.dbs != [] && Enabled(w, step) && Steady(w, step)
    ensures Leads(w0, steps + [step], Do(Whole, w, step))
    ensures ReadsOnly(steps) && ReadStep(step) ==> ReadsOnly(steps + [step])
  {
    hide Do, Enabled, Steady, ReadStep;
    RunAppend(w0, steps, step);
  }

  // ---------------------------------------------------------------------------
  // A steady step keeps all later answers fresh
  // ---------------------------------------------------------------------------

  /** Counters and mutations are the same. */
  ghost predicate SameCounters(w: World<string>, w': World<string>) {
    w'.mutations == w.mutations && forall scope: Scope :: VersionOf(w'.store, scope) == VersionOf(w.store, scope)
  }

  lemma ReadStepKeeps(w: World<string>, step: Step<string>)
    requires Inv(Whole, w) && Enabled(w, step) && ReadStep(step)
    ensures SameCounters(w, Do(Whole, w, step))
  {
    hide CounterOk, MutationsOk, StoreOk, RequestOk;
    match step {
      case Finish(id, keep) => FinishKeepsCounters(w, id, keep);
      case Drop(key) => DropKeepsCounters(w, key);
      case _ =>
    }
  }

  lemma FinishKeepsCounters(w: World<string>, id: RequestId, keep: bool)
    requires Inv(Whole, w) && Enabled(w, Finish(id, keep))
    ensures SameCounters(w, Do(Whole, w, Finish(id, keep)))
  {
    hide CounterOk, MutationsOk, StoreOk;
    assert RequestOk(Whole, w, w.requests[id]);
    FinishIsCalm(w, id, keep);
  }

  lemma DropKeepsCounters(w: World<string>, key: string)
    requires w.dbs != [] && Enabled(w, Drop(key)) && forall scope: Scope :: key != VersionKey(scope)
    ensures SameCounters(w, Do(Whole, w, Drop(key)))
  {
  }

  lemma {:induction false} ReadsKeep(w: World<string>, steps: seq<Step<string>>)
    requires Inv(Whole, w) && Runs(Whole, w, steps) && SteadyRun(Whole, w, steps) && ReadsOnly(steps)
    ensures SameCounters(w, After(Whole, w, steps))
    decreases |steps|
  {
    hide StoreOk, MutationsOk, CounterOk, RequestOk, Do, ReadStep, Enabled, Steady;
    if steps != [] {
      StepKeepsInv(Whole, w, steps[0]);
      ReadStepKeeps(w, steps[0]);
      forall step | step in steps[1..] ensures ReadStep(step) {
        assert step in steps;
      }
      ReadsKeep(Do(Whole, w, steps[0]), steps[1..]);
    }
  }

  lemma SteadyStaysFresh(w: World<string>, step: Step<string>)
    requires Inv(Whole, w) && Enabled(w, step) && Steady(w, step) && (step.EndBust? || step.Drop?)
    ensures StaysFresh(w, step)
  {
    forall pre: seq<Step<string>>, post: seq<Step<string>>, w': World<string> | Path(w, pre, step, post, w')
      ensures AllAnswersFresh(Whole, w')
    {
      SteadyPathIsFresh(w, pre, step, post, w');
    }
  }

  lemma SteadyPathIsFresh(w: World<string>, pre: seq<Step<string>>, step: Step<string>, post: seq<Step<string>>, w': World<string>)
    requires Inv(Whole, w) && Steady(w, step) && (step.EndBust? || step.Drop?) && Path(w, pre, step, post, w')
    ensures AllAnswersFresh(Whole, w')
  {
    hide Inv, Do, Enabled, AllAnswersFresh;
    var w1 := After(Whole, w, pre);
    RunKeepsInv(Whole, w, pre);
    ReadsKeep(w, pre);
    assert Steady(w1, step);
    StepKeepsInv(Whole, w1, step);
    RunKeepsInv(Whole, Do(Whole, w1, step), post);
    InvIsFresh(Whole, w');
  }

  // ---------------------------------------------------------------------------
  // Pieces of a run
  // ---------------------------------------------------------------------------

  lemma {:induction false} Above(ids: set<nat>) returns (id: nat)
    ensures id !in ids && forall i <- ids :: i < id
    decreases |ids|
  {
    if ids == {} {
      id := 0;
    } else {
      var some :| some in ids;
      var rest := Above(ids - {some});
      id := if rest <= some then some + 1 else rest;
      assert forall i <- ids :: i == some || i in ids - {some};
    }
  }

  function PlainKey(scope: Scope, version: nat): string {
    ResponseKey(scope, version, QueryString([], map[]))
  }

  predicate HasBody(w: World<string>, key: string) {
    key in w.store && w.store[key].Body?
  }

  /** A GET without parameters, up to its cache lookup. */
  lemma Ask(w0: World<string>, steps: seq<Step<string>>, w: World<string>, id: RequestId, scope: Scope)
    returns (steps': seq<Step<string>>, w': World<string>)
    requires Leads(w0, steps, w) && w.dbs != [] && id !in w.requests
    ensures Leads(w0, steps', w') && (ReadsOnly(steps) ==> ReadsOnly(steps'))
    ensures w'.dbs == w.dbs && w'.store == w.store && w'.mutations == w.mutations && w'.origins == w.origins
    ensures w'.requests.Keys == w.requests.Keys + {id}
    ensures var (r, key) := (w'.requests[id], PlainKey(scope, VersionOf(w.store, scope)));
            && r.key == key && r.scope == scope && r.query == map[] && r.seen == BustedOf(w.mutations, scope)
            && (if HasBody(w, key) then r.phase == Answered(w.store[key].text, true, OriginOf(w, key))
                else r.phase == Missed(VersionOf(w.store, scope), map[]))
  {
    hide ResponseKey, QueryString, Runs, SteadyRun, After, ReadsOnly;
    var arrive: Step<string> := Arrive(id, scope, [], map[]);
    assert Enumerates([], map[]);
    Take(w0, steps, w, arrive);
    var w1 := Do(Whole, w, arrive);
    assert w1.requests[id] == ArriveRequest(w, scope, [], map[]);
    Take(w0, steps + [arrive], w1, Lookup(id));
    steps', w' := steps + [arrive] + [Lookup(id)], Do(Whole, w1, Lookup(id));
    assert w' == DoLookup(w1, id);
  }

  /** One query of a missed GET. */
  lemma ReadNow(w0: World<string>, steps: seq<Step<string>>, w: World<string>, id: RequestId, number: nat)
    returns (steps': seq<Step<string>>, w': World<string>)
    requires Leads(w0, steps, w) && w.dbs != []
    requires id in w.requests && w.requests[id].phase.Missed? && number !in w.requests[id].phase.sources
    ensures Leads(w0, steps', w') && (ReadsOnly(steps) ==> ReadsOnly(steps'))
    ensures w' == w.(requests := w.requests[id := ReadRequest(w, w.requests[id], number)])
  {
    hide Runs, SteadyRun, After, ReadsOnly;
    Take(w0, steps, w, Read(id, number));
    steps', w' := steps + [Read(id, number)], Do(Whole, w, Read(id, number));
  }

  /** A missed GET answers from what it has read and stores its body. */
  lemma Respond(w0: World<string>, steps: seq<Step<string>>, w: World<string>, id: RequestId)
    returns (steps': seq<Step<string>>, w': World<string>)
    requires Leads(w0, steps, w) && w.dbs != [] && id in w.requests && w.requests[id].phase.Missed?
    ensures Leads(w0, steps', w') && (ReadsOnly(steps) ==> ReadsOnly(steps'))
    ensures var r := w.requests[id];
            var body := Whole(r.scope, r.query, Seen(w.dbs, r.phase.sources));
            && w'.dbs == w.dbs && w'.mutations == w.mutations
            && w'.store == w.store[r.key := Body(body)]
            && w'.origins == w.origins[r.key := Origin(r.scope, r.phase.version, r.keys, r.query, r.phase.sources)]
            && w'.requests == w.requests[id := r.(phase := Answered(body, false, r.phase.sources))]
  {
    hide Runs, SteadyRun, After, ReadsOnly;
    Take(w0, steps, w, Render(id));
    var w1 := Do(Whole, w, Render(id));
    assert w1.requests[id] == RenderRequest(Whole, w, w.requests[id]);
    Take(w0, steps + [Render(id)], w1, Finish(id, true));
    steps', w' := steps + [Render(id)] + [Finish(id, true)], Do(Whole, w1, Finish(id, true));
    assert w' == DoFinish(w1, id, true);
  }

  /** A mutation commits and starts its bust. */
  lemma Change(w0: World<string>, steps: seq<Step<string>>, w: World<string>, m: MutationId, scope: Scope, db: string)
    returns (steps': seq<Step<string>>, w': World<string>)
    requires Leads(w0, steps, w) && w.dbs != [] && m !in w.mutations
    ensures Leads(w0, steps', w')
    ensures w'.dbs == w.dbs + [db] && w'.store == w.store && w'.requests == w.requests && w'.origins == w.origins
    ensures w'.mutations == w.mutations[m := Mutation(scope, |w.dbs|, Busting(VersionOf(w.store, scope)))]
  {
    hide Runs, SteadyRun, After, ReadsOnly;
    Take(w0, steps, w, Commit(m, scope, db));
    var w1 := Do(Whole, w, Commit(m, scope, db));
    Take(w0, steps + [Commit(m, scope, db)], w1, BeginBust(m));
    steps', w' := steps + [Commit(m, scope, db)] + [BeginBust(m)], Do(Whole, w1, BeginBust(m));
  }

  /** What the end of a bust does to the shared store and the mutations. */
  lemma BustWrites(w: World<string>, m: MutationId)
    requires w.dbs != [] && Enabled(w, EndBust(m))
    ensures var (w', x) := (Do(Whole, w, EndBust(m)), w.mutations[m]);
            && w'.dbs == w.dbs && w'.requests == w.requests && w'.origins == w.origins
            && w'.mutations == w.mutations[m := x.(phase := Busted)]
            && w'.store == w.store[VersionKey(x.scope) := Version(x.phase.current + 1)]
            && VersionOf(w'.store, x.scope) == x.phase.current + 1
  {
    assert Do(Whole, w, EndBust(m)) == DoEndBust(w, m);
  }

  /** A mutation commits and moves the counter on, all at once. */
  lemma Bump(w0: World<string>, steps: seq<Step<string>>, w: World<string>, m: MutationId, scope: Scope, db: string)
    returns (steps': seq<Step<string>>, w': World<string>)
    requires Leads(w0, steps, w) && w.dbs != [] && m !in w.mutations
    ensures Leads(w0, steps', w')
    ensures w'.dbs == w.dbs + [db] && w'.requests == w.requests && w'.origins == w.origins
    ensures w'.mutations == w.mutations[m := Mutation(scope, |w.dbs|, Busted)]
    ensures w'.store == w.store[VersionKey(scope) := Version(VersionOf(w.store, scope) + 1)]
    ensures VersionOf(w'.store, scope) == VersionOf(w.store, scope) + 1
  {
    hide Runs, SteadyRun, After, ReadsOnly, Do, Leads;
    var w1;
    steps', w1 := Change(w0, steps, w, m, scope, db);
    BustWrites(w1, m);
    Take(w0, steps', w1, EndBust(m));
    steps', w' := steps' + [EndBust(m)], Do(Whole, w1, EndBust(m));
  }

  // ---------------------------------------------------------------------------
  // A step that is not steady leads to a stale answer
  // ---------------------------------------------------------------------------

  /** A body that reads `text`, made by one query, is cached for a plain GET of the version. */
  ghost predicate Caches(w: World<string>, scope: Scope, version: nat, text: string) {
    var key := PlainKey(scope, version);
    && key in w.store && w.store[key] == Body(text)
    && key in w.origins && w.origins[key].sources.Keys == {0}
  }

  lemma DropPlain(w: World<string>, scope: Scope, version: nat) returns (pre: seq<Step<string>>, w': World<string>)
    requires w.dbs != []
    ensures Leads(w, pre, w') && ReadsOnly(pre) && SameCounters(w, w') && w'.dbs == w.dbs && PlainKey(scope, version) !in w'.store
  {
    var key := PlainKey(scope, version);
    var drop: Step<string> := Drop(key);
    forall other: Scope ensures key != VersionKey(other) {
      KeyKindsDiffer(other, scope, version, QueryString([], map[]));
    }
    assert Leads(w, [], w);
    hide ResponseKey, QueryString;
    Take(w, [], w, drop);
    pre, w' := [] + [drop], Do(Whole, w, drop);
  }

  /** A body of the latest database in the store leaves every counter alone. */
  lemma StoringKeepsCounters(w: World<string>, w': World<string>, scope: Scope, version: nat, body: Stored)
    requires w'.mutations == w.mutations && w'.store == w.store[PlainKey(scope, version) := body]
    ensures SameCounters(w, w')
  {
    forall other: Scope ensures VersionOf(w'.store, other) == VersionOf(w.store, other) {
      KeyKindsDiffer(other, scope, version, QueryString([], map[]));
    }
  }

  /** Without touching counters: evict the plain GET's body of the current version and cache a new one. */
  lemma CachePlain(w: World<string>, scope: Scope) returns (pre: seq<Step<string>>, w': World<string>)
    requires w.dbs != []
    ensures Leads(w, pre, w') && ReadsOnly(pre) && SameCounters(w, w') && w'.dbs == w.dbs
    ensures Caches(w', scope, VersionOf(w.store, scope), w.dbs[|w.dbs| - 1])
  {
    hide Leads, PlainKey, ReadsOnly, VersionOf;
    var version := VersionOf(w.store, scope);
    var w1, w2, w3;
    pre, w1 := DropPlain(w, scope, version);
    var id := Above(w1.requests.Keys);
    pre, w2 := Ask(w, pre, w1, id, scope);
    pre, w3 := ReadNow(w, pre, w2, id, 0);
    pre, w' := Respond(w, pre, w3, id);
    assert w3.requests[id].phase.sources == map[0 := |w.dbs| - 1];
    OneQuery(w.dbs, |w.dbs| - 1);
    StoringKeepsCounters(w1, w', scope, version, Body(w.dbs[|w.dbs| - 1]));
  }

  lemma OneQuery(dbs: seq<string>, version: nat)
    requires version < |dbs|
    ensures forall scope: RawScope, query: Query :: Whole(scope, query, Seen(dbs, map[0 := version])) == dbs[version]
  {
    assert Seen(dbs, map[0 := version]) == map[0 := dbs[version]];
    assert dbs[version] + "" == dbs[version];
  }

  /** n mutations that leave the database at `db` move the counter on by n and keep what is cached. */
  lemma {:induction false} Climb(w0: World<string>, steps: seq<Step<string>>, w: World<string>, scope: Scope, db: string, n: nat,
                                 version: nat, text: string)
    returns (steps': seq<Step<string>>, w': World<string>)
    requires Leads(w0, steps, w) && w.dbs != [] && Caches(w, scope, version, text)
    ensures Leads(w0, steps', w') && w'.dbs != [] && Caches(w', scope, version, text)
    ensures VersionOf(w'.store, scope) == VersionOf(w.store, scope) + n
    ensures n > 0 ==> w'.dbs[|w'.dbs| - 1] == db && |w'.dbs| - 1 in BustedOf(w'.mutations, scope)
  {
    hide Leads, PlainKey;
    steps', w' := steps, w;
    if n > 0 {
      var w1;
      steps', w1 := Climb(w0, steps, w, scope, db, n - 1, version, text);
      var m := Above(w1.mutations.Keys);
      steps', w' := Bump(w0, steps', w1, m, scope, db);
      KeepsCaching(w1, w', scope, version, text, VersionOf(w1.store, scope) + 1);
      assert m in w'.mutations && w'.mutations[m] == Mutation(scope, |w1.dbs|, Busted);
    }
  }

  lemma KeepsCaching(w: World<string>, w': World<string>, scope: Scope, version: nat, text: string, n: nat)
    requires Caches(w, scope, version, text) && w'.origins == w.origins
    requires w'.store == w.store[VersionKey(scope) := Version(n)]
    ensures Caches(w', scope, version, text)
  {
    KeyKindsDiffer(scope, scope, version, QueryString([], map[]));
  }

  /** A cached body that differs from the latest database, when the mutation that made the latest database
      has completed its bust. */
  lemma HitIsStale(w0: World<string>, steps: seq<Step<string>>, w: World<string>, scope: Scope, text: string)
    returns (steps': seq<Step<string>>, w': World<string>)
    requires Leads(w0, steps, w) && w.dbs != [] && Caches(w, scope, VersionOf(w.store, scope), text)
    requires text != w.dbs[|w.dbs| - 1] && |w.dbs| - 1 in BustedOf(w.mutations, scope)
    ensures Leads(w0, steps', w') && !AllAnswersFresh(Whole, w')
  {
    var id := Above(w.requests.Keys);
    hide Leads, PlainKey;
    steps', w' := Ask(w0, steps, w, id, scope);
    var r := w'.requests[id];
    assert r.phase.Answered? && r.phase.body == text && r.phase.sources.Keys == {0};
    NotFresh(w', r);
  }

  lemma NotFresh(w: World<string>, r: Request)
    requires w.dbs != [] && r.phase.Answered? && r.phase.sources.Keys == {0}
    requires |w.dbs| - 1 in r.seen && r.phase.body != w.dbs[|w.dbs| - 1]
    ensures !Fresh(Whole, w, r)
  {
    var last := |w.dbs| - 1;
    forall sources: Sources
      ensures !(sources.Keys == r.phase.sources.Keys && RenderedFrom(Whole, w.dbs, r.scope, r.query, sources, r.phase.body) && AllSaw(sources, r.seen))
    {
      if sources.Keys == {0} && sources[0] < |w.dbs| && AllSaw(sources, r.seen) {
        assert 0 in sources && sources[0] == last;
        assert sources == map[0 := last];
        OneQuery(w.dbs, last);
      }
    }
  }

  /** What a step that is not steady does: some counter falls, and what is cached stays. */
  lemma UnsteadyFalls(w: World<string>, step: Step<string>) returns (scope: Scope)
    requires w.dbs != [] && Enabled(w, step) && (step.EndBust? || step.Drop?) && !Steady(w, step)
    ensures VersionOf(Do(Whole, w, step).store, scope) < VersionOf(w.store, scope)
  {
    if step.EndBust? {
      scope := w.mutations[step.mutation].scope;
      BustWrites(w, step.mutation);
    } else {
      scope :| step.key == VersionKey(scope) && VersionOf(w.store, scope) > 0;
    }
  }

  lemma UnsteadyKeepsCaching(w: World<string>, step: Step<string>, scope: Scope, version: nat, text: string)
    requires w.dbs != [] && Enabled(w, step) && (step.EndBust? || step.Drop?) && !Steady(w, step)
    requires Caches(w, scope, version, text)
    ensures Do(Whole, w, step).dbs == w.dbs && Caches(Do(Whole, w, step), scope, version, text)
  {
    if step.EndBust? {
      var x := w.mutations[step.mutation];
      BustWrites(w, step.mutation);
      KeyKindsDiffer(x.scope, scope, version, QueryString([], map[]));
    } else {
      var lost: Scope :| step.key == VersionKey(lost) && VersionOf(w.store, lost) > 0;
      KeyKindsDiffer(lost, scope, version, QueryString([], map[]));
    }
  }

  /** Another text than the given one. */
  function Other(text: string): (other: string)
    ensures other != text
  {
    if text == "x" then "y" else "x"
  }

  /** Reads do not change whether a step is enabled or steady. */
  lemma SameCountersSameStep(w: World<string>, w': World<string>, step: Step<string>)
    requires SameCounters(w, w') && Enabled(w, step) && (step.EndBust? || step.Drop?)
    ensures Enabled(w', step) && (Steady(w', step) <==> Steady(w, step))
  {
  }

  /** From every state in which a step can be taken that is not steady, some run takes it and serves a stale
      answer: cache a body under the current version, take the step, climb back to that version with new
      mutations, and ask again. */
  lemma UnsteadyGoesStale(w: World<string>, step: Step<string>) returns (pre: seq<Step<string>>, post: seq<Step<string>>, w': World<string>)
    requires w.dbs != [] && Enabled(w, step) && (step.EndBust? || step.Drop?) && !Steady(w, step)
    ensures Path(w, pre, step, post, w') && !AllAnswersFresh(Whole, w')
  {
    hide ReadsOnly, Runs, SteadyRun, After, Do, Enabled, Steady, AllAnswersFresh;
    var scope := UnsteadyFalls(w, step);
    var text, version := w.dbs[|w.dbs| - 1], VersionOf(w.store, scope);
    var w1, w3;
    pre, w1 := CachePlain(w, scope);
    SameCountersSameStep(w, w1, step);
    var w2 := Do(Whole, w1, step);
    UnsteadyKeepsCaching(w1, step, scope, version, text);
    FallsAlike(w, w1, step, scope);
    LeadsNowhere(w2);
    post, w3 := Climb(w2, [], w2, scope, Other(text), version - VersionOf(w2.store, scope), version, text);
    post, w' := HitIsStale(w2, post, w3, scope, text);
  }

  lemma LeadsNowhere(w: World<string>)
    requires w.dbs != []
    ensures Leads(w, [], w)
  {
  }

  lemma FallsAlike(w: World<string>, w': World<string>, step: Step<string>, scope: Scope)
    requires SameCounters(w, w') && w.dbs != [] && w'.dbs != []
    requires Enabled(w, step) && Enabled(w', step) && (step.EndBust? || step.Drop?)
    ensures VersionOf(Do(Whole, w', step).store, scope) == VersionOf(Do(Whole, w, step).store, scope)
  {
    assert VersionOf(w'.store, scope) == VersionOf(w.store, scope);
    if step.EndBust? {
      assert step == EndBust(step.mutation);
      BustWrites(w, step.mutation);
      BustWrites(w', step.mutation);
      var own := w.mutations[step.mutation].scope;
      if scope != own && VersionKey(scope) == VersionKey(own) {
        VersionKeyInjective(scope, own);
      }
    } else {
      assert step == Drop(step.key);
      DropForgets(w, step.key, scope);
      DropForgets(w', step.key, scope);
    }
  }

  lemma DropForgets(w: World<string>, key: string, scope: Scope)
    requires w.dbs != []
    ensures VersionOf(Do(Whole, w, Drop(key)).store, scope) == if key == VersionKey(scope) then 0 else VersionOf(w.store, scope)
  {
  }

  /** The end of a bust, or the loss of an entry, keeps every later answer fresh if and only if it is steady:
      it neither writes a counter back to an earlier value nor loses one above 0. */
  lemma SteadyExactly(w: World<string>, step: Step<string>)
    requires Inv(Whole, w) && Enabled(w, step) && (step.EndBust? || step.Drop?)
    ensures StaysFresh(w, step) <==> Steady(w, step)
  {
    if Steady(w, step) {
      SteadyStaysFresh(w, step);
    } else {
      var pre, post, w' := UnsteadyGoesStale(w, step);
    }
  }

  // ---------------------------------------------------------------------------
  // Two reached instances
  // ---------------------------------------------------------------------------

  /** Three mutations of which the first has read counter 0 and not yet ended its bust. */
  lemma SlowBust(scope: Scope) returns (steps: seq<Step<string>>, w: World<string>)
    ensures Leads(Initial("a"), steps, w) && w.dbs != []
    ensures 1 in w.mutations && w.mutations[1] == Mutation(scope, 1, Busting(0)) && VersionOf(w.store, scope) == 2
  {
    var w0 := Initial("a");
    LeadsNowhere(w0);
    assert VersionOf(w0.store, scope) == 0;
    hide Leads, VersionOf;
    var w1, w2;
    steps, w1 := Change(w0, [], w0, 1, scope, "b");
    assert w1.mutations[1] == Mutation(scope, 1, Busting(0));
    steps, w2 := Bump(w0, steps, w1, 2, scope, "c");
    steps, w := Bump(w0, steps, w2, 3, scope, "d");
  }

  /** Overlapping busts: a slow bust that read 0 is still to end when two others have moved the counter to
      2, and ending it leads to a stale answer. */
  lemma OverlappingBustsServeStale(scope: Scope)
    returns (before: seq<Step<string>>, w: World<string>, pre: seq<Step<string>>, post: seq<Step<string>>, w': World<string>)
    ensures Leads(Initial("a"), before, w) && Path(w, pre, EndBust(1), post, w') && !AllAnswersFresh(Whole, w')
  {
    hide Leads, Path, AllAnswersFresh, VersionOf;
    before, w := SlowBust(scope);
    pre, post, w' := UnsteadyGoesStale(w, EndBust(1));
  }

  /** A lost version key: after one mutation the counter is 1, and losing it leads to a stale answer. */
  lemma LostCounterServesStale(scope: Scope)
    returns (before: seq<Step<string>>, w: World<string>, pre: seq<Step<string>>, post: seq<Step<string>>, w': World<string>)
    ensures Leads(Initial("a"), before, w) && Path(w, pre, Drop(VersionKey(scope)), post, w') && !AllAnswersFresh(Whole, w')
  {
    var w0 := Initial("a");
    LeadsNowhere(w0);
    hide Leads, Path, AllAnswersFresh;
    before, w := Bump(w0, [], w0, 1, scope, "b");
    assert VersionOf(w.store, scope) > 0;
    pre, post, w' := UnsteadyGoesStale(w, Drop(VersionKey(scope)));
  }
}
