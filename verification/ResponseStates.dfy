/**
  When an answer is of one database state.  A handler may run several queries, and a commit may fall
  between them; the answer is of one state, whatever the handler computes, exactly when the states its
  queries saw are equal.
*/
module ResponseStates {
  import opened CacheKeys
  import opened ResponseCache
  import opened ResponseFreshness
  import opened ResponseStaleness

  /** All queries read the same database version. */
  predicate OneVersion(sources: Sources) {
    forall k, l :: k in sources && l in sources ==> sources[k] == sources[l]
  }

  /** What the queries see when they all see version s. */
  function OnState<Db>(dbs: seq<Db>, numbers: set<nat>, s: nat): map<nat, Db>
    requires s < |dbs|
  {
    map number | number in numbers :: dbs[s]
  }

  // ---------------------------------------------------------------------------
  // One answer
  // ---------------------------------------------------------------------------

  ghost predicate AnswersOneState<Db>(render: Renderer<Db>, dbs: seq<Db>, scope: RawScope, query: Query, sources: Sources) {
    exists s: nat :: s < |dbs| && render(scope, query, Seen(dbs, sources)) == render(scope, query, OnState(dbs, sources.Keys, s))
  }

  ghost predicate SawOneState<Db>(dbs: seq<Db>, sources: Sources, s: nat) {
    s < |dbs| && forall number <- sources :: sources[number] < |dbs| && dbs[sources[number]] == dbs[s]
  }

  /** The handler that tells whether its queries saw exactly these states. */
  ghost function Telling<Db(!new)>(seen: map<nat, Db>): Renderer<Db> {
    (scope, query, dbs) => if dbs == seen then "these" else "others"
  }

  /** Every handler's answer is that of one state if and only if the states its queries saw are equal. */
  lemma OneStateExactly<Db(!new)>(dbs: seq<Db>, sources: Sources, scope: RawScope, query: Query)
    requires forall number <- sources :: sources[number] < |dbs|
    ensures (forall render: Renderer<Db> :: AnswersOneState(render, dbs, scope, query, sources))
            <==> exists s: nat :: SawOneState(dbs, sources, s)
  {
    if forall render: Renderer<Db> :: AnswersOneState(render, dbs, scope, query, sources) {
      var seen := Seen(dbs, sources);
      assert AnswersOneState(Telling(seen), dbs, scope, query, sources);
      var s: nat :| s < |dbs| && Telling(seen)(scope, query, seen) == Telling(seen)(scope, query, OnState(dbs, sources.Keys, s));
      assert seen == OnState(dbs, sources.Keys, s);
      forall number | number in sources ensures dbs[sources[number]] == dbs[s] {
        assert seen[number] == OnState(dbs, sources.Keys, s)[number];
      }
      assert SawOneState(dbs, sources, s);
    }
    if s: nat :| SawOneState(dbs, sources, s) {
      assert Seen(dbs, sources) == OnState(dbs, sources.Keys, s);
    }
  }

  // ---------------------------------------------------------------------------
  // Runs in which no commit falls between the queries of a handler
  // ---------------------------------------------------------------------------

  /** A query runs on the database version that the handler's earlier queries saw. */
  predicate Untorn<Db>(w: World<Db>, step: Step<Db>) {
    step.Read? && step.id in w.requests && w.requests[step.id].phase.Missed? ==>
      forall number <- w.requests[step.id].phase.sources :: w.requests[step.id].phase.sources[number] == |w.dbs| - 1
  }

  ghost predicate UntornRun<Db>(render: Renderer<Db>, w: World<Db>, steps: seq<Step<Db>>)
    requires w.dbs != [] && Runs(render, w, steps)
    decreases |steps|
  {
    steps == [] || (Untorn(w, steps[0]) && UntornRun(render, Do(render, w, steps[0]), steps[1..]))
  }

  predicate PhaseUntorn(phase: Phase) {
    !phase.Keyed? ==> OneVersion(phase.sources)
  }

  predicate AllUntorn<Db>(w: World<Db>) {
    && (forall id <- w.requests :: PhaseUntorn(w.requests[id].phase))
    && forall key <- w.origins :: OneVersion(w.origins[key].sources)
  }

  lemma LookupKeepsUntorn<Db>(w: World<Db>, id: RequestId)
    requires AllUntorn(w) && id in w.requests && w.requests[id].phase.Keyed?
    ensures AllUntorn(DoLookup(w, id))
  {
    assert OneVersion(OriginOf(w, w.requests[id].key));
  }

  lemma ReadKeepsUntorn<Db>(w: World<Db>, step: Step<Db>)
    requires w.dbs != [] && AllUntorn(w) && step.Read? && Enabled(w, step) && Untorn(w, step)
    ensures OneVersion(ReadRequest(w, w.requests[step.id], step.number).phase.sources)
  {
  }

  lemma FinishKeepsUntorn<Db>(w: World<Db>, id: RequestId, keep: bool)
    requires AllUntorn(w) && id in w.requests && w.requests[id].phase.Rendered?
    ensures AllUntorn(DoFinish(w, id, keep))
  {
    assert PhaseUntorn(w.requests[id].phase);
  }

  lemma StepKeepsUntorn<Db>(render: Renderer<Db>, w: World<Db>, step: Step<Db>)
    requires w.dbs != [] && AllUntorn(w) && Enabled(w, step) && Untorn(w, step)
    ensures AllUntorn(Do(render, w, step))
  {
    match step {
      case Lookup(id) => LookupKeepsUntorn(w, id);
      case Read(_, _) => ReadKeepsUntorn(w, step);
      case Render(id) => assert PhaseUntorn(w.requests[id].phase);
      case Finish(id, keep) => FinishKeepsUntorn(w, id, keep);
      case _ =>
    }
  }

  lemma {:induction false} RunKeepsUntorn<Db>(render: Renderer<Db>, w: World<Db>, steps: seq<Step<Db>>)
    requires w.dbs != [] && AllUntorn(w) && Runs(render, w, steps) && UntornRun(render, w, steps)
    ensures AllUntorn(After(render, w, steps))
    decreases |steps|
  {
    if steps != [] {
      StepKeepsUntorn(render, w, steps[0]);
      RunKeepsUntorn(render, Do(render, w, steps[0]), steps[1..]);
    }
  }

  /** The answer is the handler's on one state that every mutation it had to see has reached. */
  ghost predicate OfOneState<Db>(render: Renderer<Db>, w: World<Db>, scope: RawScope, query: Query, phase: Phase, busted: set<nat>)
    requires phase.Answered?
  {
    exists s: nat :: s < |w.dbs| && (forall m <- busted :: m <= s)
      && phase.body == render(scope, query, OnState(w.dbs, phase.sources.Keys, s))
  }

  lemma OneVersionIsOneState<Db>(render: Renderer<Db>, w: World<Db>, scope: RawScope, query: Query, phase: Phase, busted: set<nat>)
    requires w.dbs != [] && phase.Answered? && OneVersion(phase.sources)
    requires RenderedFrom(render, w.dbs, scope, query, phase.sources, phase.body) && AllSaw(phase.sources, busted)
    requires forall m <- busted :: m < |w.dbs|
    ensures OfOneState(render, w, scope, query, phase, busted)
  {
    var s := |w.dbs| - 1;
    if number :| number in phase.sources {
      s := phase.sources[number];
    }
    assert Seen(w.dbs, phase.sources) == OnState(w.dbs, phase.sources.Keys, s);
    assert phase.body == render(scope, query, OnState(w.dbs, phase.sources.Keys, s));
  }

  /** Cache coherence with one state.  On a steady run in which no commit falls between the queries of a
      handler, a hit or a miss answers what the handler gives on one database state, at least as new as
      every mutation whose bust had completed when the request read the version. */
  lemma AnswerIsOfOneState<Db>(render: Renderer<Db>, w: World<Db>, id: RequestId, scope: Scope, keys: seq<string>, query: Query,
                               steps: seq<Step<Db>>, w1: World<Db>, w': World<Db>)
    requires Inv(render, w) && AllUntorn(w) && Enabled(w, Arrive(id, scope, keys, query)) && StringValued(query)
    requires w1 == Do(render, w, Arrive(id, scope, keys, query)) && Runs(render, w1, steps)
    requires SteadyRun(render, w1, steps) && UntornRun(render, w1, steps) && w' == After(render, w1, steps)
    requires id in w'.requests && w'.requests[id].phase.Answered?
    ensures OfOneState(render, w', scope, query, w'.requests[id].phase, BustedOf(w.mutations, scope))
  {
    AnswerIsFresh(render, w, id, scope, keys, query, steps, w');
    StepKeepsUntorn(render, w, Arrive(id, scope, keys, query));
    RunKeepsUntorn(render, w1, steps);
    RequestKeepsQuestion(render, w1, steps, id);
    BustedCommitted(render, w, scope);
    assert PhaseUntorn(w'.requests[id].phase);
    OneVersionIsOneState(render, w', scope, query, w'.requests[id].phase, BustedOf(w.mutations, scope));
  }

  lemma BustedCommitted<Db>(render: Renderer<Db>, w: World<Db>, scope: Scope)
    requires Inv(render, w)
    ensures forall m <- BustedOf(w.mutations, scope) :: m < |w.dbs|
  {
  }

  // ---------------------------------------------------------------------------
  // A torn answer
  // ---------------------------------------------------------------------------

  /** A list after its first query. */
  lemma FirstRead(scope: Scope) returns (steps: seq<Step<string>>, w: World<string>)
    ensures Leads(Initial("a"), steps, w) && w.dbs == ["a"] && w.mutations == map[] && 1 in w.requests && w.requests[1].phase.Missed?
    ensures w.requests[1].phase.sources == map[0 := 0]
  {
    var w0, w1 := Initial("a"), Initial("a");
    LeadsNowhere(w0);
    hide Leads;
    steps, w1 := Ask(w0, [], w0, 1, scope);
    steps, w := ReadNow(w0, steps, w1, 1, 0);
  }

  /** A list runs two queries, and a commit may come between them: this answer is on no handler's account of
      one state, though each of its queries saw a state as new as it must. */
  lemma ListMayTear(scope: Scope) returns (steps: seq<Step<string>>, w: World<string>)
    ensures Leads(Initial("a"), steps, w) && 1 in w.requests && w.requests[1].phase.Answered?
    ensures !AnswersOneState(Whole, w.dbs, scope, map[], w.requests[1].phase.sources)
    ensures w.requests[1].phase.body == Whole(scope, map[], Seen(w.dbs, w.requests[1].phase.sources))
  {
    hide Leads;
    var w2, w3, w4;
    steps, w2 := FirstRead(scope);
    steps, w3 := Change(Initial("a"), steps, w2, 1, scope, "b");
    steps, w4 := ReadNow(Initial("a"), steps, w3, 1, 1);
    steps, w := Respond(Initial("a"), steps, w4, 1);
    TornAnswer(w.dbs, w.requests[1].phase.sources, scope, map[]);
  }

  lemma TornAnswer(dbs: seq<string>, sources: Sources, scope: RawScope, query: Query)
    requires dbs == ["a"] + ["b"] && sources == map[0 := 0, 1 := 1]
    ensures !AnswersOneState(Whole, dbs, scope, query, sources)
  {
    var seen := Seen(dbs, sources);
    assert 0 in seen && 1 in seen && seen[0] == "a" && seen[1] == "b";
    forall s: nat | s < |dbs| ensures Whole(scope, query, seen) != Whole(scope, query, OnState(dbs, sources.Keys, s)) {
      var both := OnState(dbs, sources.Keys, s);
      assert 0 in both && 1 in both;
      assert Whole(scope, query, seen)[0] == 'a' && Whole(scope, query, seen)[1] == 'b';
      assert Whole(scope, query, both)[0] == Whole(scope, query, both)[1];
    }
  }
}
