/**
  Per-organization recipient budget for bulk email: checkBulkEmailDailyBudget of
  src/middleware/rateLimit.js over the cache of src/services/cacheService.js.  Calls do not overlap
  here (`BulkEmailOverlap` lets them); times are milliseconds.
*/
module BulkEmailBudget {
  import opened Numbers
  import opened Wrappers
  import opened FixedWindows

  const WINDOW_MS: nat := 24 * 60 * 60 * 1000

  datatype Counter = Counter(count: nat, resetAt: int)

  /** A cached counter and when the cache forgets it. */
  datatype Entry = Entry(counter: Counter, expiresAt: int)

  datatype Budget = Budget(allowed: bool, remaining: int, resetAt: int)

  /** `storedAt` is when cacheService.set runs, no earlier than `now`. */
  datatype Call = Call(now: int, storedAt: int, count: nat)

  /** cacheService.get: null once the entry has expired. */
  function Fetch(entry: Option<Entry>, now: int): Option<Counter> {
    if entry.None? || now > entry.value.expiresAt then None else Some(entry.value.counter)
  }

  /** Budget used and reset time that a call starts from. */
  function Opening(existing: Option<Counter>, now: int): Counter {
    if existing.Some? && existing.value.resetAt > now then existing.value else Counter(0, now + WINDOW_MS)
  }

  function CeilSeconds(ms: int): int {
    (ms + 999) / 1000
  }

  function TtlSeconds(resetAt: int, now: int): int {
    if CeilSeconds(resetAt - now) < 1 then 1 else CeilSeconds(resetAt - now)
  }

  function Answer(opening: Counter, count: nat, limit: nat): Budget {
    if opening.count + count > limit then Budget(false, Max(0, limit - opening.count), opening.resetAt)
    else Budget(true, limit - opening.count - count, opening.resetAt)
  }

  class BudgetStore {
    var entries: map<string, Entry>

    constructor ()
      ensures entries == map[]
    {
      entries := map[];
    }

    function EntryOf(org: string): Option<Entry>
      reads this
    {
      if org in entries then Some(entries[org]) else None
    }

    method CheckBulkEmailDailyBudget(org: string, call: Call, limit: nat) returns (budget: Budget)
      requires call.now <= call.storedAt
      modifies this
      ensures var opening := Opening(Fetch(old(EntryOf(org)), call.now), call.now);
              && budget == Answer(opening, call.count, limit)
              && (budget.allowed ==> EntryOf(org).Some? && EntryOf(org).value.expiresAt >= opening.resetAt)
      ensures EntryOf(org) == Cached(old(EntryOf(org)), call, limit)
      ensures forall other: string :: other != org ==> EntryOf(other) == old(EntryOf(other))
    {
      var now := call.now;
      var existing := Fetch(EntryOf(org), now);
      var used := 0;
      var resetAt := now + WINDOW_MS;
      if existing.Some? && existing.value.resetAt > now {
        used := existing.value.count;
        resetAt := existing.value.resetAt;
      }
      if used + call.count > limit {
        return Budget(false, Max(0, limit - used), resetAt);
      }
      var ttlSeconds := Max(1, CeilSeconds(resetAt - now));
      entries := entries[org := Entry(Counter(used + call.count, resetAt), call.storedAt + ttlSeconds * 1000)];
      budget := Budget(true, limit - used - call.count, resetAt);
    }
  }

  /** The cached entry after one call. */
  function Cached(entry: Option<Entry>, call: Call, limit: nat): Option<Entry> {
    var opening := Opening(Fetch(entry, call.now), call.now);
    if opening.count + call.count > limit then entry
    else Some(Entry(Counter(opening.count + call.count, opening.resetAt),
                    call.storedAt + TtlSeconds(opening.resetAt, call.now) * 1000))
  }

  // ---------------------------------------------------------------------------
  // Runs
  // ---------------------------------------------------------------------------

  /** The clock does not run backwards between calls. */
  predicate InOrder(calls: seq<Call>) {
    && (forall i :: 0 <= i < |calls| ==> calls[i].now <= calls[i].storedAt)
    && forall i, j :: 0 <= i < j < |calls| ==> calls[i].now <= calls[j].now
  }

  /** The cache entry after a run of calls on one organization. */
  function EntryAfter(calls: seq<Call>, limit: nat): Option<Entry> {
    if calls == [] then None else Cached(EntryAfter(calls[..|calls| - 1], limit), calls[|calls| - 1], limit)
  }

  function AnswerTo(calls: seq<Call>, limit: nat): Budget
    requires calls != []
  {
    var last := calls[|calls| - 1];
    Answer(Opening(Fetch(EntryAfter(calls[..|calls| - 1], limit), last.now), last.now), last.count, limit)
  }

  /** The accepted hits of a run. */
  function Hits(calls: seq<Call>, limit: nat): seq<Hit> {
    if calls == [] then []
    else
      var before := Hits(calls[..|calls| - 1], limit);
      var answer := AnswerTo(calls, limit);
      if answer.allowed then before + [Hit(calls[|calls| - 1].now, calls[|calls| - 1].count, answer.resetAt)] else before
  }

  // ---------------------------------------------------------------------------
  // The cache's expiry makes no difference
  // ---------------------------------------------------------------------------

  /** A counter kept for ever: the window rule alone, with no cache in between. */
  function KeptAfter(calls: seq<Call>, limit: nat): Option<Counter> {
    if calls == [] then None
    else
      var last := calls[|calls| - 1];
      var kept := KeptAfter(calls[..|calls| - 1], limit);
      var opening := Opening(kept, last.now);
      if opening.count + last.count > limit then kept else Some(Counter(opening.count + last.count, opening.resetAt))
  }

  lemma {:induction false} CacheHoldsKept(calls: seq<Call>, limit: nat)
    requires InOrder(calls)
    ensures var entry := EntryAfter(calls, limit);
            && (entry.Some? <==> KeptAfter(calls, limit).Some?)
            && (entry.Some? ==> entry.value.counter == KeptAfter(calls, limit).value
                                && entry.value.counter.resetAt <= entry.value.expiresAt)
  {
    if calls != [] {
      CacheHoldsKept(calls[..|calls| - 1], limit);
    }
  }

  /** The TTL, rounded up to whole seconds, neither shortens nor extends a window: every call gets the
      answer a counter that is never forgotten would give. */
  lemma ExpiryInvisible(calls: seq<Call>, limit: nat)
    requires calls != [] && InOrder(calls)
    ensures var last := calls[|calls| - 1];
            AnswerTo(calls, limit) == Answer(Opening(KeptAfter(calls[..|calls| - 1], limit), last.now), last.count, limit)
  {
    CacheHoldsKept(calls[..|calls| - 1], limit);
  }

  // ---------------------------------------------------------------------------
  // Windows of a run
  // ---------------------------------------------------------------------------

  /** What the kept counter says about the accepted hits so far. */
  ghost predicate Tracks(hits: seq<Hit>, kept: Option<Counter>, limit: nat) {
    && Windowed(hits, WINDOW_MS) && Capped(hits, limit)
    && (kept.None? ==> hits == [])
    && (kept.Some? ==> WindowSum(hits, kept.value.resetAt) == kept.value.count
                       && forall i :: 0 <= i < |hits| ==>
                            hits[i].resetAt == kept.value.resetAt || kept.value.resetAt - WINDOW_MS >= hits[i].resetAt)
  }

  lemma AcceptTracks(hits: seq<Hit>, kept: Option<Counter>, limit: nat, call: Call)
    requires Tracks(hits, kept, limit)
    requires kept.Some? ==> kept.value.resetAt - WINDOW_MS <= call.now
    requires forall i :: 0 <= i < |hits| ==> hits[i].time <= call.now
    requires Opening(kept, call.now).count + call.count <= limit
    ensures var opening := Opening(kept, call.now);
            Tracks(hits + [Hit(call.now, call.count, opening.resetAt)],
                   Some(Counter(opening.count + call.count, opening.resetAt)), limit)
  {
    var opening := Opening(kept, call.now);
    var h := Hit(call.now, call.count, opening.resetAt);
    var after := hits + [h];
    assert after[..|hits|] == hits;
    if !(kept.Some? && kept.value.resetAt > call.now) {
      NoSumBeyond(hits, opening.resetAt);
    }
    forall r: int ensures WindowSum(after, r) <= limit {
      assert WindowSum(after, r) == WindowSum(hits, r) + if r == h.resetAt then h.cost else 0;
    }
    forall i | 0 <= i < |hits| ensures Successive(hits[i], h, WINDOW_MS) {
    }
  }

  /** A run seen from its last call. */
  lemma LastCall(calls: seq<Call>, last: Call, limit: nat)
    requires InOrder(calls + [last])
    ensures var kept := KeptAfter(calls, limit);
            var opening := Opening(kept, last.now);
            if opening.count + last.count > limit then
              Hits(calls + [last], limit) == Hits(calls, limit) && KeptAfter(calls + [last], limit) == kept
            else
              && Hits(calls + [last], limit) == Hits(calls, limit) + [Hit(last.now, last.count, opening.resetAt)]
              && KeptAfter(calls + [last], limit) == Some(Counter(opening.count + last.count, opening.resetAt))
  {
    hide AnswerTo, EntryAfter;
    assert (calls + [last])[..|calls|] == calls;
    ExpiryInvisible(calls + [last], limit);
  }

  /** The accepted hits and the kept counter, step by step. */
  datatype Run = Run(hits: seq<Hit>, kept: Option<Counter>)

  function Served(run: Run, call: Call, limit: nat): Run {
    var opening := Opening(run.kept, call.now);
    if opening.count + call.count > limit then run
    else Run(run.hits + [Hit(call.now, call.count, opening.resetAt)], Some(Counter(opening.count + call.count, opening.resetAt)))
  }

  function RunOf(calls: seq<Call>, limit: nat): Run {
    if calls == [] then Run([], None) else Served(RunOf(calls[..|calls| - 1], limit), calls[|calls| - 1], limit)
  }

  lemma {:induction false} RunIs(calls: seq<Call>, limit: nat)
    requires InOrder(calls)
    ensures RunOf(calls, limit) == Run(Hits(calls, limit), KeptAfter(calls, limit))
  {
    if calls != [] {
      hide Hits, KeptAfter;
      var before, last := calls[..|calls| - 1], calls[|calls| - 1];
      RunIs(before, limit);
      LastCallOf(calls, before, last, limit);
    }
  }

  lemma LastCallOf(calls: seq<Call>, before: seq<Call>, last: Call, limit: nat)
    requires InOrder(calls) && calls == before + [last]
    ensures Run(Hits(calls, limit), KeptAfter(calls, limit)) == Served(Run(Hits(before, limit), KeptAfter(before, limit)), last, limit)
  {
    hide Hits, KeptAfter;
    LastCall(before, last, limit);
  }

  /** Every accepted hit, and the opening of the kept window, lies before the present. */
  predicate NothingAhead(run: Run, now: int) {
    && (forall h <- run.hits :: h.time <= now)
    && (run.kept.Some? ==> run.kept.value.resetAt - WINDOW_MS <= now)
  }

  lemma {:induction false} RunOfTracks(calls: seq<Call>, limit: nat, now: int)
    requires InOrder(calls) && (calls != [] ==> calls[|calls| - 1].now <= now)
    ensures NothingAhead(RunOf(calls, limit), now)
    ensures Tracks(RunOf(calls, limit).hits, RunOf(calls, limit).kept, limit)
  {
    if calls != [] {
      var before, last := calls[..|calls| - 1], calls[|calls| - 1];
      RunOfTracks(before, limit, last.now);
      ServedTracks(RunOf(before, limit), last, limit, now);
    }
  }

  lemma ServedTracks(run: Run, call: Call, limit: nat, now: int)
    requires NothingAhead(run, call.now) && Tracks(run.hits, run.kept, limit) && call.now <= now
    ensures NothingAhead(Served(run, call, limit), now)
    ensures Tracks(Served(run, call, limit).hits, Served(run, call, limit).kept, limit)
  {
    if Opening(run.kept, call.now).count + call.count <= limit {
      AcceptTracks(run.hits, run.kept, limit, call);
    }
  }

  lemma RunTracks(calls: seq<Call>, limit: nat)
    requires InOrder(calls)
    ensures Tracks(Hits(calls, limit), KeptAfter(calls, limit), limit)
  {
    RunOfTracks(calls, limit, if calls == [] then 0 else calls[|calls| - 1].now);
    RunIs(calls, limit);
  }

  /** Recipients accepted inside one window never exceed the limit; hits of one window never move its
      reset time, and the next window opens only after it. */
  lemma WindowsHold(calls: seq<Call>, limit: nat, r: int)
    requires InOrder(calls)
    ensures WindowSum(Hits(calls, limit), r) <= limit
    ensures Windowed(Hits(calls, limit), WINDOW_MS)
  {
    RunTracks(calls, limit);
  }

  /** Any 24 hours see at most twice the limit. */
  lemma RollingDay(calls: seq<Call>, limit: nat, from: int)
    requires InOrder(calls)
    ensures IntervalSum(Hits(calls, limit), from, WINDOW_MS) <= 2 * limit
  {
    RunTracks(calls, limit);
    RollingBound(Hits(calls, limit), WINDOW_MS, limit, from);
  }

  /** The window of the kept counter was opened by a hit. */
  ghost predicate KeptOpened(hits: seq<Hit>, kept: Option<Counter>) {
    kept.Some? ==> HasOpener(hits, kept.value.resetAt, WINDOW_MS)
  }

  lemma OpenerStays(hits: seq<Hit>, h: Hit, r: int)
    requires HasOpener(hits, r, WINDOW_MS)
    ensures HasOpener(hits + [h], r, WINDOW_MS)
  {
    var j :| 0 <= j < |hits| && Opens(hits[j], r, WINDOW_MS);
    assert (hits + [h])[j] == hits[j];
  }

  lemma AcceptOpens(hits: seq<Hit>, kept: Option<Counter>, call: Call, h: Hit)
    requires Opened(hits, WINDOW_MS) && KeptOpened(hits, kept) && call.count >= 1
    requires h == Hit(call.now, call.count, Opening(kept, call.now).resetAt)
    ensures Opened(hits + [h], WINDOW_MS) && HasOpener(hits + [h], h.resetAt, WINDOW_MS)
  {
    var after := hits + [h];
    if kept.Some? && kept.value.resetAt > call.now {
      OpenerStays(hits, h, h.resetAt);
    } else {
      assert Opens(after[|hits|], h.resetAt, WINDOW_MS);
    }
    forall i | 0 <= i < |hits| ensures HasOpener(after, after[i].resetAt, WINDOW_MS) {
      OpenerStays(hits, h, hits[i].resetAt);
    }
  }

  lemma {:induction false} RunOpens(calls: seq<Call>, limit: nat)
    requires InOrder(calls) && forall i :: 0 <= i < |calls| ==> calls[i].count >= 1
    ensures Opened(Hits(calls, limit), WINDOW_MS) && KeptOpened(Hits(calls, limit), KeptAfter(calls, limit))
  {
    if calls != [] {
      var before, last := calls[..|calls| - 1], calls[|calls| - 1];
      RunOpens(before, limit);
      assert calls == before + [last];
      LastCall(before, last, limit);
      var kept := KeptAfter(before, limit);
      AcceptOpens(Hits(before, limit), kept, last, Hit(last.now, last.count, Opening(kept, last.now).resetAt));
    }
  }

  /** When every request has at least one recipient, any 24 hours see at most one less than twice the
      limit. */
  lemma SharpRollingDay(calls: seq<Call>, limit: nat, from: int)
    requires InOrder(calls) && (forall i :: 0 <= i < |calls| ==> calls[i].count >= 1) && limit >= 1
    ensures IntervalSum(Hits(calls, limit), from, WINDOW_MS) <= 2 * limit - 1
  {
    RunTracks(calls, limit);
    RunOpens(calls, limit);
    SharpRollingBound(Hits(calls, limit), WINDOW_MS, limit, from);
  }

  /** Two calls in one window: one recipient opens it and the rest of the budget goes later. */
  lemma WindowUsedUp(a: Call, b: Call, limit: nat)
    requires a.now <= a.storedAt && b.now <= b.storedAt && a.now <= b.now < a.now + WINDOW_MS
    requires a.count + b.count == limit
    ensures Hits([a] + [b], limit) == [Hit(a.now, a.count, a.now + WINDOW_MS)] + [Hit(b.now, b.count, a.now + WINDOW_MS)]
    ensures KeptAfter([a] + [b], limit) == Some(Counter(limit, a.now + WINDOW_MS))
  {
    var open := Counter(a.count, a.now + WINDOW_MS);
    OneCall(a, limit);
    LastCall([a], b, limit);
    assert Opening(Some(open), b.now) == open;
  }

  lemma OneCall(a: Call, limit: nat)
    requires a.now <= a.storedAt && a.count <= limit
    ensures Hits([a], limit) == [Hit(a.now, a.count, a.now + WINDOW_MS)]
    ensures KeptAfter([a], limit) == Some(Counter(a.count, a.now + WINDOW_MS))
  {
    assert Hits([], limit) == [] && KeptAfter([], limit) == None;
    hide Hits, KeptAfter;
    LastCall([], a, limit);
    assert [] + [a] == [a];
  }

  /** And that many do pass: one recipient opens a window, the rest of the budget goes in its last
      millisecond, and a full budget at the start of the next. */
  lemma SharpBoundReached(limit: nat) returns (calls: seq<Call>, from: int)
    requires limit >= 2
    ensures InOrder(calls) && forall i :: 0 <= i < |calls| ==> calls[i].count >= 1
    ensures IntervalSum(Hits(calls, limit), from, WINDOW_MS) == 2 * limit - 1
  {
    var a := Call(0, 0, 1);
    var b := Call(WINDOW_MS - 1, WINDOW_MS - 1, limit - 1);
    var c := Call(WINDOW_MS, WINDOW_MS, limit);
    from := WINDOW_MS - 1;
    calls := [a] + [b] + [c];
    WindowUsedUp(a, b, limit);
    LastCall([a] + [b], c, limit);
    var ha, hb, hc := Hit(0, 1, WINDOW_MS), Hit(WINDOW_MS - 1, limit - 1, WINDOW_MS), Hit(WINDOW_MS, limit, WINDOW_MS + WINDOW_MS);
    ThreeHits(ha, hb, hc, from);
  }

  lemma ThreeHits(a: Hit, b: Hit, c: Hit, from: int)
    ensures IntervalSum([a] + [b] + [c], from, WINDOW_MS)
            == (if Inside(a, from, WINDOW_MS) then a.cost else 0)
               + (if Inside(b, from, WINDOW_MS) then b.cost else 0)
               + (if Inside(c, from, WINDOW_MS) then c.cost else 0)
  {
    assert [] + [a] == [a];
    IntervalAppend([], a, from);
    IntervalAppend([a], b, from);
    IntervalAppend([a] + [b], c, from);
  }

  lemma IntervalAppend(hits: seq<Hit>, h: Hit, from: int)
    ensures IntervalSum(hits + [h], from, WINDOW_MS)
            == IntervalSum(hits, from, WINDOW_MS) + if Inside(h, from, WINDOW_MS) then h.cost else 0
  {
    assert (hits + [h])[..|hits|] == hits;
  }

  /** The answer to a call from the hits accepted so far: it is accepted exactly when its window still has
      room, and told what the window has left afterwards; the window is that of an accepted hit which is still
      running, and otherwise one of 24 hours that starts now. */
  lemma AnswerExact(calls: seq<Call>, limit: nat)
    requires calls != [] && InOrder(calls)
    ensures var (last, answer, hits) := (calls[|calls| - 1], AnswerTo(calls, limit), Hits(calls[..|calls| - 1], limit));
            && (forall h <- hits :: h.resetAt > last.now ==> answer.resetAt == h.resetAt)
            && ((forall h <- hits :: h.resetAt <= last.now) ==> answer.resetAt == last.now + 86400000)
            && (answer.allowed <==> WindowSum(hits, answer.resetAt) + last.count <= limit)
            && answer.remaining == limit - WindowSum(Hits(calls, limit), answer.resetAt)
  {
    hide KeptAfter, EntryAfter, AnswerTo, Hits, WindowSum, Tracks, Opening;
    var before, last := calls[..|calls| - 1], calls[|calls| - 1];
    assert calls == before + [last];
    ExpiryInvisible(calls, limit);
    LastCall(before, last, limit);
    RunTracks(before, limit);
    KeptBegan(before, limit, last.now);
    KeptRuns(before, limit);
    CountedInWindow(Hits(before, limit), KeptAfter(before, limit), limit, last);
    WindowsHold(before, limit, Opening(KeptAfter(before, limit), last.now).resetAt);
    SumAfter(Hits(before, limit), Hit(last.now, last.count, Opening(KeptAfter(before, limit), last.now).resetAt));
  }

  lemma KeptBegan(calls: seq<Call>, limit: nat, now: int)
    requires InOrder(calls) && forall i :: 0 <= i < |calls| ==> calls[i].now <= now
    ensures KeptAfter(calls, limit).Some? ==> KeptAfter(calls, limit).value.resetAt - WINDOW_MS <= now
  {
    hide KeptAfter, Hits, Tracks;
    RunOfTracks(calls, limit, now);
    RunIs(calls, limit);
  }

  lemma SumAfter(hits: seq<Hit>, h: Hit)
    ensures WindowSum(hits + [h], h.resetAt) == WindowSum(hits, h.resetAt) + h.cost
  {
    assert (hits + [h])[..|hits|] == hits;
  }

  /** A kept counter has a hit of its own. */
  lemma {:induction false} KeptRuns(calls: seq<Call>, limit: nat)
    requires InOrder(calls)
    ensures KeptAfter(calls, limit).Some? ==> exists h <- Hits(calls, limit) :: h.resetAt == KeptAfter(calls, limit).value.resetAt
  {
    if calls != [] {
      hide EntryAfter, AnswerTo;
      var before, last := calls[..|calls| - 1], calls[|calls| - 1];
      assert calls == before + [last];
      KeptRuns(before, limit);
      LastCall(before, last, limit);
      var h := Hit(last.now, last.count, Opening(KeptAfter(before, limit), last.now).resetAt);
      assert h in Hits(before, limit) + [h];
    }
  }

  lemma CountedInWindow(hits: seq<Hit>, kept: Option<Counter>, limit: nat, call: Call)
    requires Tracks(hits, kept, limit) && (kept.Some? ==> exists h <- hits :: h.resetAt == kept.value.resetAt)
    requires kept.Some? ==> kept.value.resetAt - WINDOW_MS <= call.now
    ensures var opening := Opening(kept, call.now);
            && (forall h <- hits :: h.resetAt > call.now ==> opening.resetAt == h.resetAt)
            && ((forall h <- hits :: h.resetAt <= call.now) ==> opening.resetAt == call.now + 86400000)
            && WindowSum(hits, opening.resetAt) == opening.count
  {
    forall h | h in hits ensures kept.Some? && h.resetAt <= kept.value.resetAt && (h.resetAt > call.now ==> h.resetAt == kept.value.resetAt) {
      var i :| 0 <= i < |hits| && hits[i] == h;
    }
    if !(kept.Some? && kept.value.resetAt > call.now) {
      NoSumBeyond(hits, call.now + WINDOW_MS);
    }
  }
}
