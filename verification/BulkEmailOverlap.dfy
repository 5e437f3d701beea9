/**
  Overlapping calls of checkBulkEmailDailyBudget (src/middleware/rateLimit.js) for one organization.  A call
  reads the counter, awaits, and then stores what it made of it, so others may come in between.
*/
module BulkEmailOverlap {
  import opened Numbers
  import opened Wrappers
  import opened FixedWindows
  import opened BulkEmailBudget

  type CallId = nat

  /** A call between its read and its store. */
  datatype Pending = Pending(now: int, count: nat, opening: Counter)

  /** `hits` (accepted) and `log` (the accepted calls in the order of their stores) are history. */
  datatype World = World(entry: Option<Entry>, clock: int, pending: map<CallId, Pending>, hits: seq<Hit>, log: seq<Call>)

  datatype Step = Read(id: CallId, now: int, count: nat) | Store(id: CallId, storedAt: int)

  predicate Accepted(p: Pending, limit: nat) {
    p.opening.count + p.count <= limit
  }

  predicate Enabled(w: World, step: Step) {
    match step
    case Read(id, now, _) => id !in w.pending && w.clock <= now
    case Store(id, storedAt) => id in w.pending && w.clock <= storedAt
  }

  function Do(w: World, step: Step, limit: nat): World
    requires Enabled(w, step)
  {
    match step
    case Read(id, now, count) =>
      w.(clock := now, pending := w.pending[id := Pending(now, count, Opening(Fetch(w.entry, now), now))])
    case Store(id, storedAt) =>
      var p := w.pending[id];
      if Accepted(p, limit) then
        World(Some(Entry(Counter(p.opening.count + p.count, p.opening.resetAt), storedAt + TtlSeconds(p.opening.resetAt, p.now) * 1000)),
              storedAt, w.pending - {id}, w.hits + [Hit(p.now, p.count, p.opening.resetAt)], w.log + [Call(p.now, storedAt, p.count)])
      else w.(clock := storedAt, pending := w.pending - {id})
  }

  function Initial(clock: int): World {
    World(None, clock, map[], [], [])
  }

  predicate Runs(w: World, steps: seq<Step>, limit: nat)
    decreases |steps|
  {
    steps == [] || (Enabled(w, steps[0]) && Runs(Do(w, steps[0], limit), steps[1..], limit))
  }

  function After(w: World, steps: seq<Step>, limit: nat): World
    requires Runs(w, steps, limit)
    decreases |steps|
  {
    if steps == [] then w else After(Do(w, steps[0], limit), steps[1..], limit)
  }

  // ---------------------------------------------------------------------------
  // Accepted calls that do not overlap
  // ---------------------------------------------------------------------------

  /** A call reads only when no other call that will be accepted is on its way. */
  predicate AloneStep(w: World, step: Step, limit: nat) {
    step.Read? ==> forall id <- w.pending :: !Accepted(w.pending[id], limit)
  }

  predicate AloneRun(w: World, steps: seq<Step>, limit: nat)
    requires Runs(w, steps, limit)
    decreases |steps|
  {
    steps == [] || (AloneStep(w, steps[0], limit) && AloneRun(Do(w, steps[0], limit), steps[1..], limit))
  }

  /** A call to be accepted has read the counter that is still there, and is the only one. */
  predicate PendingInv(w: World, id: CallId, limit: nat)
    requires id in w.pending
  {
    var p := w.pending[id];
    Accepted(p, limit) ==>
      && p.opening == Opening(Fetch(w.entry, p.now), p.now) && p.now <= w.clock
      && (forall i :: 0 <= i < |w.log| ==> w.log[i].now <= p.now)
      && forall other <- w.pending :: other != id ==> !Accepted(w.pending[other], limit)
  }

  /** The state is that of the accepted calls served one after another. */
  predicate Serial(w: World, limit: nat) {
    && InOrder(w.log) && w.entry == EntryAfter(w.log, limit) && w.hits == Hits(w.log, limit)
    && (forall i :: 0 <= i < |w.log| ==> w.log[i].now <= w.clock)
    && forall id <- w.pending :: PendingInv(w, id, limit)
  }

  /** One more accepted call served. */
  lemma ServedOne(log: seq<Call>, call: Call, limit: nat)
    requires Opening(Fetch(EntryAfter(log, limit), call.now), call.now).count + call.count <= limit
    ensures var opening := Opening(Fetch(EntryAfter(log, limit), call.now), call.now);
            && EntryAfter(log + [call], limit) == Some(Entry(Counter(opening.count + call.count, opening.resetAt),
                                                             call.storedAt + TtlSeconds(opening.resetAt, call.now) * 1000))
            && Hits(log + [call], limit) == Hits(log, limit) + [Hit(call.now, call.count, opening.resetAt)]
  {
    assert (log + [call])[..|log|] == log;
  }

  lemma StoreKeepsSerial(w: World, id: CallId, storedAt: int, limit: nat)
    requires Serial(w, limit) && Enabled(w, Store(id, storedAt))
    ensures Serial(Do(w, Store(id, storedAt), limit), limit)
  {
    hide EntryAfter, Hits, TtlSeconds;
    var p, w' := w.pending[id], Do(w, Store(id, storedAt), limit);
    assert PendingInv(w, id, limit);
    if Accepted(p, limit) {
      ServedOne(w.log, Call(p.now, storedAt, p.count), limit);
    }
    forall other | other in w'.pending ensures PendingInv(w', other, limit) {
      assert PendingInv(w, other, limit);
    }
  }

  lemma ReadKeepsSerial(w: World, id: CallId, now: int, count: nat, limit: nat)
    requires Serial(w, limit) && Enabled(w, Read(id, now, count)) && AloneStep(w, Read(id, now, count), limit)
    ensures Serial(Do(w, Read(id, now, count), limit), limit)
  {
    hide EntryAfter, Hits, Opening, Fetch;
    var w' := Do(w, Read(id, now, count), limit);
    forall other | other in w'.pending ensures PendingInv(w', other, limit) {
      if other != id {
        assert PendingInv(w, other, limit);
      }
    }
  }

  lemma {:induction false} RunKeepsSerial(w: World, steps: seq<Step>, limit: nat)
    requires Serial(w, limit) && Runs(w, steps, limit) && AloneRun(w, steps, limit)
    ensures Serial(After(w, steps, limit), limit)
    decreases |steps|
  {
    hide Serial;
    if steps != [] {
      match steps[0] {
        case Read(id, now, count) => ReadKeepsSerial(w, id, now, count, limit);
        case Store(id, storedAt) => StoreKeepsSerial(w, id, storedAt, limit);
      }
      RunKeepsSerial(Do(w, steps[0], limit), steps[1..], limit);
    }
  }

  /** Calls may overlap as long as no two accepted ones do: then every window stays within the limit and
      every 24 hours within twice the limit. */
  lemma AloneKeepsBudget(clock: int, steps: seq<Step>, limit: nat, r: int, from: int)
    requires Runs(Initial(clock), steps, limit) && AloneRun(Initial(clock), steps, limit)
    ensures WindowSum(After(Initial(clock), steps, limit).hits, r) <= limit
    ensures IntervalSum(After(Initial(clock), steps, limit).hits, from, WINDOW_MS) <= 2 * limit
  {
    RunKeepsSerial(Initial(clock), steps, limit);
    var log := After(Initial(clock), steps, limit).log;
    WindowsHold(log, limit, r);
    RollingDay(log, limit, from);
  }

  // ---------------------------------------------------------------------------
  // Two accepted calls that overlap
  // ---------------------------------------------------------------------------

  /** Two calls that both read before either stores. */
  function Race(a: Call, b: Call): seq<Step> {
    [Read(1, a.now, a.count), Read(2, b.now, b.count), Store(1, a.storedAt), Store(2, b.storedAt)]
  }

  lemma RaceGives(w: World, a: Call, b: Call, limit: nat)
    requires w.pending == map[] && w.clock <= a.now <= b.now <= a.storedAt <= b.storedAt
    ensures Runs(w, Race(a, b), limit)
    ensures var oa, ob := Opening(Fetch(w.entry, a.now), a.now), Opening(Fetch(w.entry, b.now), b.now);
            After(w, Race(a, b), limit).hits
            == w.hits + (if oa.count + a.count <= limit then [Hit(a.now, a.count, oa.resetAt)] else [])
                      + (if ob.count + b.count <= limit then [Hit(b.now, b.count, ob.resetAt)] else [])
  {
    hide Opening, Fetch, TtlSeconds;
    var steps := Race(a, b);
    var w1 := Do(w, steps[0], limit);
    var w2 := Do(w1, steps[1], limit);
    var w3 := Do(w2, steps[2], limit);
    var w4 := Do(w3, steps[3], limit);
    var s1, s2, s3 := steps[1..], steps[2..], steps[3..];
    assert s1[1..] == s2 && s2[1..] == s3 && s3[1..] == [];
    assert Runs(w3, s3, limit) && After(w3, s3, limit) == w4;
    assert Runs(w2, s2, limit) && After(w2, s2, limit) == w4;
    assert Runs(w1, s1, limit) && After(w1, s1, limit) == w4;
  }

  lemma SumMore(hits: seq<Hit>, h: Hit, r: int)
    ensures WindowSum(hits + [h], r) == WindowSum(hits, r) + if h.resetAt == r then h.cost else 0
  {
    assert (hits + [h])[..|hits|] == hits;
  }

  /** In a serial state a call's opening counts exactly what its window has accepted. */
  lemma OpeningCounts(w: World, limit: nat, now: int)
    requires Serial(w, limit) && w.clock <= now
    ensures var opening := Opening(Fetch(w.entry, now), now);
            WindowSum(w.hits, opening.resetAt) == opening.count
  {
    hide EntryAfter, KeptAfter, Hits, AnswerTo;
    CacheHoldsKept(w.log, limit);
    RunTracks(w.log, limit);
    var kept := KeptAfter(w.log, limit);
    assert Opening(Fetch(w.entry, now), now) == Opening(kept, now);
    if !(kept.Some? && kept.value.resetAt > now) {
      NoSumBeyond(w.hits, now + WINDOW_MS);
    }
  }

  /** Two calls of one window that both read before either stores take it beyond the limit if and only if
      each fits on its own and both together do not. */
  lemma OverlapExceedsExactly(w: World, a: Call, b: Call, limit: nat)
    requires Serial(w, limit) && w.pending == map[] && w.clock <= a.now <= b.now <= a.storedAt <= b.storedAt
    requires Opening(Fetch(w.entry, a.now), a.now) == Opening(Fetch(w.entry, b.now), b.now)
    ensures Runs(w, Race(a, b), limit)
    ensures var opening := Opening(Fetch(w.entry, a.now), a.now);
            WindowSum(After(w, Race(a, b), limit).hits, opening.resetAt) > limit
            <==> opening.count + a.count <= limit && opening.count + b.count <= limit && opening.count + a.count + b.count > limit
  {
    hide Serial, Opening, Fetch, Runs, After, Race, Windowed;
    var opening := Opening(Fetch(w.entry, a.now), a.now);
    RaceGives(w, a, b, limit);
    OpeningCounts(w, limit, a.now);
    OpeningWithin(w, limit, a.now);
    var ha, hb := Hit(a.now, a.count, opening.resetAt), Hit(b.now, b.count, opening.resetAt);
    SumMore(w.hits, ha, opening.resetAt);
    SumMore(w.hits, hb, opening.resetAt);
    SumMore(w.hits + [ha], hb, opening.resetAt);
    assert w.hits + [] == w.hits && w.hits + [ha] + [] == w.hits + [ha];
  }

  lemma OpeningWithin(w: World, limit: nat, now: int)
    requires Serial(w, limit) && w.clock <= now
    ensures Opening(Fetch(w.entry, now), now).count <= limit
  {
    OpeningCounts(w, limit, now);
    WindowsHold(w.log, limit, Opening(Fetch(w.entry, now), now).resetAt);
  }

  // ---------------------------------------------------------------------------
  // Any number of calls at once
  // ---------------------------------------------------------------------------

  predicate Between(id: CallId, k: nat, n: nat) {
    k <= id < n
  }

  /** Calls k to n - 1, of a whole budget each, have read the empty counter. */
  function Waiting(limit: nat, k: nat, n: nat): map<CallId, Pending> {
    map id: CallId | id < n && Between(id, k, n) :: Pending(0, limit, Counter(0, WINDOW_MS))
  }

  function AllRead(limit: nat, n: nat): World {
    World(None, 0, Waiting(limit, 0, n), [], [])
  }

  lemma {:induction false} StoresAdd(w: World, limit: nat, k: nat, n: nat) returns (steps: seq<Step>)
    requires k <= n && w.clock == 0
    requires w.pending == Waiting(limit, k, n)
    ensures Runs(w, steps, limit)
    ensures IntervalSum(After(w, steps, limit).hits, 0, WINDOW_MS) == IntervalSum(w.hits, 0, WINDOW_MS) + (n - k) * limit
    decreases n - k
  {
    hide IntervalSum, Waiting, Do, Enabled;
    if k == n {
      steps := [];
    } else {
      assert Enabled(w, Store(k, 0)) by { OneStored(w, limit, k, n); }
      var w' := Do(w, Store(k, 0), limit);
      OneStored(w, limit, k, n);
      var rest := StoresAdd(w', limit, k + 1, n);
      steps := [Store(k, 0)] + rest;
      assert steps[1..] == rest;
      IntervalAppend(w.hits, Hit(0, limit, WINDOW_MS), 0);
      OneLess(n, k, limit);
    }
  }

  lemma OneLess(n: nat, k: nat, limit: nat)
    requires k < n
    ensures (n - k) * limit == limit + (n - (k + 1)) * limit
  {
  }

  lemma OneStored(w: World, limit: nat, k: nat, n: nat)
    requires k < n && w.clock == 0 && w.pending == Waiting(limit, k, n)
    ensures Enabled(w, Store(k, 0))
    ensures var w' := Do(w, Store(k, 0), limit);
            w'.clock == 0 && w'.pending == Waiting(limit, k + 1, n) && w'.hits == w.hits + [Hit(0, limit, WINDOW_MS)]
  {
    hide TtlSeconds;
    assert Between(k, k, n);
    assert w.pending[k] == Pending(0, limit, Counter(0, WINDOW_MS));
    var w' := Do(w, Store(k, 0), limit);
    assert forall id :: Between(id, k + 1, n) <==> Between(id, k, n) && id != k;
    assert w'.pending == Waiting(limit, k + 1, n);
  }

  lemma {:induction false} ReadsThenStores(limit: nat, k: nat, n: nat) returns (steps: seq<Step>)
    requires k <= n
    ensures Runs(AllRead(limit, k), steps, limit)
    ensures IntervalSum(After(AllRead(limit, k), steps, limit).hits, 0, WINDOW_MS) == n * limit
    decreases n - k
  {
    if k == n {
      steps := StoresAdd(AllRead(limit, n), limit, 0, n);
    } else {
      var w := AllRead(limit, k);
      assert Do(w, Read(k, 0, limit), limit) == AllRead(limit, k + 1);
      var rest := ReadsThenStores(limit, k + 1, n);
      steps := [Read(k, 0, limit)] + rest;
      assert steps[1..] == rest;
    }
  }

  /** With overlapping calls no multiple of the limit bounds a day: n calls at once pass n budgets. */
  lemma OverlapUnbounded(limit: nat, n: nat) returns (steps: seq<Step>)
    ensures Runs(Initial(0), steps, limit)
    ensures IntervalSum(After(Initial(0), steps, limit).hits, 0, WINDOW_MS) == n * limit
  {
    assert AllRead(limit, 0) == Initial(0);
    steps := ReadsThenStores(limit, 0, n);
  }
}
