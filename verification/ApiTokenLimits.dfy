/**
  The database-configured limits of an API token: apiTokenConfiguredLimiter and configuredLimit of
  src/middleware/rateLimit.js over incrementFixedWindow of src/services/cacheService.js.  One token
  of one organization; times are milliseconds.
*/
module ApiTokenLimits {
  import opened Wrappers
  import opened FixedWindows

  /** A row of API_TOKEN_RATE_LIMIT_WINDOWS with its default. */
  datatype Window = Window(name: string, windowMs: nat, max: nat, defaultLimit: nat)

  const WINDOWS: seq<Window> := [
    Window("burst", 1000, 65535, 20),
    Window("minute", 60000, 0xFFFFFFFF, 60),
    Window("hour", 3600000, 0xFFFFFFFF, 1000),
    Window("day", 86400000, 0xFFFFFFFF, 10000)]

  /** A policy column: NULL, an integer, or anything else. */
  datatype Setting = Unset | Whole(n: int) | Unusable

  datatype Activity = Active | Inactive | Unreadable

  /** An api_key_rate_limits row; the settings stand in the order of the windows. */
  datatype Policy = Policy(activity: Activity, settings: seq<Setting>)

  datatype Slot = Slot(count: nat, expiresAt: int)

  datatype Decision = Pass | Limited(window: nat, retryAfter: int) | Misconfigured

  function ConfiguredLimit(setting: Setting, window: Window): Option<nat> {
    match setting
    case Unset => if 1 <= window.defaultLimit <= window.max then Some(window.defaultLimit) else None
    case Whole(n) => if 1 <= n <= window.max then Some(n) else None
    case Unusable => None
  }

  /** Memory form of the shared primitive: the window is anchored at the first hit. */
  function Increment(slot: Option<Slot>, windowMs: nat, now: int): Slot {
    if slot.None? || slot.value.expiresAt <= now then Slot(1, now + windowMs)
    else Slot(slot.value.count + 1, slot.value.expiresAt)
  }

  function Incremented(slots: seq<Option<Slot>>, windows: seq<Window>, now: int): (r: seq<Option<Slot>>)
    requires |slots| == |windows|
    ensures |r| == |slots|
  {
    seq(|slots|, i requires 0 <= i < |slots| => Some(Increment(slots[i], windows[i].windowMs, now)))
  }

  predicate Exceeds(slot: Option<Slot>, limit: nat) {
    slot.Some? && slot.value.count > limit
  }

  /** The least positive number of seconds after which the window is over. */
  predicate RetryAt(seconds: int, now: int, expiresAt: int) {
    seconds >= 1 && now + 1000 * seconds >= expiresAt && (seconds == 1 || now + 1000 * (seconds - 1) < expiresAt)
  }

  class TokenLimiter {
    var slots: seq<Option<Slot>>

    constructor (n: nat)
      ensures |slots| == n && forall i :: 0 <= i < n ==> slots[i] == None
    {
      slots := seq(n, i => None);
    }

    /** Limits in window order, or None for a row that must be refused. */
    static method ReadLimits(policy: Policy, windows: seq<Window>) returns (limits: Option<seq<nat>>)
      requires |policy.settings| == |windows|
      ensures limits.Some? <==> forall i :: 0 <= i < |windows| ==> ConfiguredLimit(policy.settings[i], windows[i]).Some?
      ensures limits.Some? ==> |limits.value| == |windows| && forall i :: 0 <= i < |windows| ==>
                Some(limits.value[i]) == ConfiguredLimit(policy.settings[i], windows[i])
    {
      var found: seq<nat> := [];
      for i := 0 to |windows|
        invariant |found| == i
        invariant forall j :: 0 <= j < i ==> Some(found[j]) == ConfiguredLimit(policy.settings[j], windows[j])
      {
        var limit := ConfiguredLimit(policy.settings[i], windows[i]);
        if limit.None? {
          return None;
        }
        found := found + [limit.value];
      }
      limits := Some(found);
    }

    /** A misconfigured row fails closed without counting, a missing or inactive one passes without
        counting, and otherwise every window counts the request whether or not it passes. */
    method Check(policy: Option<Policy>, windows: seq<Window>, now: int) returns (decision: Decision)
      requires |slots| == |windows| && (policy.Some? ==> |policy.value.settings| == |windows|)
      modifies this
      ensures |slots| == |windows|
      ensures policy.None? || policy.value.activity.Inactive? ==> decision.Pass? && slots == old(slots)
      ensures policy.Some? && policy.value.activity.Unreadable? ==> decision.Misconfigured?
      ensures decision.Misconfigured? ==> slots == old(slots)
      ensures policy.Some? && policy.value.activity.Active? ==>
                (decision.Misconfigured? <==> exists i :: 0 <= i < |windows| && ConfiguredLimit(policy.value.settings[i], windows[i]).None?)
      ensures policy.Some? && policy.value.activity.Active? && !decision.Misconfigured? ==>
                && slots == Incremented(old(slots), windows, now)
                && (decision.Pass? <==> forall i :: 0 <= i < |windows| ==>
                      !Exceeds(slots[i], ConfiguredLimit(policy.value.settings[i], windows[i]).GetOr(0)))
      ensures decision.Limited? ==>
                && policy.Some? && decision.window < |windows|
                && Exceeds(slots[decision.window], ConfiguredLimit(policy.value.settings[decision.window], windows[decision.window]).GetOr(0))
                && (forall j :: 0 <= j < decision.window ==>
                      !Exceeds(slots[j], ConfiguredLimit(policy.value.settings[j], windows[j]).GetOr(0)))
                && RetryAt(decision.retryAfter, now, slots[decision.window].value.expiresAt)
    {
      if policy.None? {
        return Pass;
      }
      match policy.value.activity {
        case Inactive => return Pass;
        case Unreadable => return Misconfigured;
        case Active =>
      }
      var limits := ReadLimits(policy.value, windows);
      if limits.None? {
        return Misconfigured;
      }
      slots := Incremented(slots, windows, now);
      decision := FirstExceeded(limits.value, windows, now);
    }

    /** findIndex over the counters, and the Retry-After of the first exceeded window. */
    method FirstExceeded(limits: seq<nat>, windows: seq<Window>, now: int) returns (decision: Decision)
      requires |limits| == |windows| == |slots|
      requires forall i :: 0 <= i < |slots| ==> slots[i].Some?
      ensures decision.Pass? <==> forall i :: 0 <= i < |slots| ==> !Exceeds(slots[i], limits[i])
      ensures !decision.Misconfigured?
      ensures decision.Limited? ==>
                && decision.window < |slots| && Exceeds(slots[decision.window], limits[decision.window])
                && (forall j :: 0 <= j < decision.window ==> !Exceeds(slots[j], limits[j]))
                && RetryAt(decision.retryAfter, now, slots[decision.window].value.expiresAt)
    {
      for i := 0 to |slots|
        invariant forall j :: 0 <= j < i ==> !Exceeds(slots[j], limits[j])
      {
        if slots[i].value.count > limits[i] {
          var wait := (slots[i].value.expiresAt - now + 999) / 1000;
          return Limited(i, if wait < 1 then 1 else wait);
        }
      }
      decision := Pass;
    }
  }

  // ---------------------------------------------------------------------------
  // Runs under one active policy
  // ---------------------------------------------------------------------------

  function SlotsAfter(windows: seq<Window>, times: seq<int>): (r: seq<Option<Slot>>)
    ensures |r| == |windows|
  {
    if times == [] then seq(|windows|, i => None)
    else Incremented(SlotsAfter(windows, times[..|times| - 1]), windows, times[|times| - 1])
  }

  /** The last request of a run passes all windows. */
  predicate Passes(windows: seq<Window>, limits: seq<nat>, times: seq<int>)
    requires |limits| == |windows|
  {
    forall i :: 0 <= i < |windows| ==> !Exceeds(SlotsAfter(windows, times)[i], limits[i])
  }

  /** The requests that passed, as hits of window w. */
  function Passed(windows: seq<Window>, limits: seq<nat>, times: seq<int>, w: nat): seq<Hit>
    requires |limits| == |windows| && w < |windows|
  {
    if times == [] then []
    else
      var before := Passed(windows, limits, times[..|times| - 1], w);
      var slot := SlotsAfter(windows, times)[w];
      if Passes(windows, limits, times) && slot.Some? then before + [Hit(times[|times| - 1], 1, slot.value.expiresAt)] else before
  }

  predicate Clocked(times: seq<int>) {
    forall i, j :: 0 <= i < j < |times| ==> times[i] <= times[j]
  }

  /** Every passed request of the running window is one of the counted ones. */
  ghost predicate Counts(hits: seq<Hit>, slot: Option<Slot>, windowMs: nat, limit: nat) {
    && Windowed(hits, windowMs) && Capped(hits, limit)
    && (slot.None? ==> hits == [])
    && (slot.Some? ==> WindowSum(hits, slot.value.expiresAt) <= slot.value.count
                       && forall i :: 0 <= i < |hits| ==>
                            hits[i].resetAt == slot.value.expiresAt || slot.value.expiresAt - windowMs >= hits[i].resetAt)
  }

  lemma CountOne(hits: seq<Hit>, slot: Option<Slot>, windowMs: nat, limit: nat, now: int, pass: bool)
    requires windowMs >= 1 && Counts(hits, slot, windowMs, limit)
    requires slot.Some? ==> slot.value.expiresAt - windowMs <= now
    requires forall i :: 0 <= i < |hits| ==> hits[i].time <= now
    requires pass ==> Increment(slot, windowMs, now).count <= limit
    ensures var after := Increment(slot, windowMs, now);
            && after.expiresAt - windowMs <= now
            && Counts(if pass then hits + [Hit(now, 1, after.expiresAt)] else hits, Some(after), windowMs, limit)
  {
    var after := Increment(slot, windowMs, now);
    if slot.None? || slot.value.expiresAt <= now {
      NoSumBeyond(hits, after.expiresAt);
    }
    if pass {
      var h := Hit(now, 1, after.expiresAt);
      var hits' := hits + [h];
      assert hits'[..|hits|] == hits;
      forall r: int ensures WindowSum(hits', r) <= limit {
        assert WindowSum(hits', r) == WindowSum(hits, r) + if r == h.resetAt then 1 else 0;
      }
      forall i | 0 <= i < |hits| ensures Successive(hits[i], h, windowMs) {
      }
    }
  }

  lemma LastCounted(windows: seq<Window>, limits: seq<nat>, times: seq<int>, w: nat)
    requires |limits| == |windows| && w < |windows| && times != []
    ensures var last := |times| - 1;
            var after := Increment(SlotsAfter(windows, times[..last])[w], windows[w].windowMs, times[last]);
            && SlotsAfter(windows, times)[w] == Some(after)
            && (Passes(windows, limits, times) ==> after.count <= limits[w])
  {
  }

  lemma NothingCounts(windowMs: nat, limit: nat)
    ensures Counts([], None, windowMs, limit)
  {
  }

  lemma {:induction false} RunCounts(windows: seq<Window>, limits: seq<nat>, times: seq<int>, w: nat)
    requires |limits| == |windows| && w < |windows| && windows[w].windowMs >= 1 && Clocked(times)
    ensures Counts(Passed(windows, limits, times, w), SlotsAfter(windows, times)[w], windows[w].windowMs, limits[w])
    ensures times != [] ==> forall i :: 0 <= i < |Passed(windows, limits, times, w)| ==>
              Passed(windows, limits, times, w)[i].time <= times[|times| - 1]
    ensures times != [] ==>
              var slot := SlotsAfter(windows, times)[w];
              slot.Some? && slot.value.expiresAt - windows[w].windowMs <= times[|times| - 1]
  {
    hide Counts, Passes, Increment, Exceeds, Windowed;
    if times == [] {
      NothingCounts(windows[w].windowMs, limits[w]);
    } else {
      var before := times[..|times| - 1];
      RunCounts(windows, limits, before, w);
      var now := times[|times| - 1];
      if before != [] {
        assert before[|before| - 1] <= now;
      }
      LastCounted(windows, limits, times, w);
      CountOne(Passed(windows, limits, before, w), SlotsAfter(windows, before)[w], windows[w].windowMs, limits[w], now,
               Passes(windows, limits, times));
    }
  }

  /** Under every active policy and any clocked run of requests, each of the four windows lets at most
      its limit pass between two resets, and at most twice its limit in any rolling interval of its
      length. */
  lemma EveryWindowHolds(limits: seq<nat>, times: seq<int>, w: nat, from: int, r: int)
    requires |limits| == |WINDOWS| && w < |WINDOWS| && Clocked(times)
    ensures WindowSum(Passed(WINDOWS, limits, times, w), r) <= limits[w]
    ensures IntervalSum(Passed(WINDOWS, limits, times, w), from, WINDOWS[w].windowMs) <= 2 * limits[w]
  {
    RunCounts(WINDOWS, limits, times, w);
    RollingBound(Passed(WINDOWS, limits, times, w), WINDOWS[w].windowMs, limits[w], from);
  }

  // ---------------------------------------------------------------------------
  // The limits in force, and exactly which requests pass
  // ---------------------------------------------------------------------------

  /** What a policy column says of the window of this name: its own number when that is in range, the default
      when it is NULL. */
  predicate InForce(name: string, setting: Setting, limit: nat) {
    match setting
    case Unset =>
      (name == "burst" && limit == 20) || (name == "minute" && limit == 60) || (name == "hour" && limit == 1000) || (name == "day" && limit == 10000)
    case Whole(n) =>
      n == limit && n >= 1 && (name == "burst" ==> n <= 65535) && n <= 4294967295
    case Unusable => false
  }

  lemma ConfiguredExact(setting: Setting, w: nat, limit: nat)
    requires w < |WINDOWS|
    ensures ConfiguredLimit(setting, WINDOWS[w]) == Some(limit) <==> InForce(WINDOWS[w].name, setting, limit)
  {
    FourWindows();
  }

  lemma FourWindows()
    ensures |WINDOWS| == 4
    ensures WINDOWS[0].name == "burst" && WINDOWS[0].windowMs == 1000
    ensures WINDOWS[1].name == "minute" && WINDOWS[1].windowMs == 60 * 1000
    ensures WINDOWS[2].name == "hour" && WINDOWS[2].windowMs == 60 * 60 * 1000
    ensures WINDOWS[3].name == "day" && WINDOWS[3].windowMs == 24 * 60 * 60 * 1000
  {
  }

  /** When the window of the last request opened: at the first request that found no window open. */
  function Opened(times: seq<int>, length: nat): int
    requires times != []
  {
    var last := times[|times| - 1];
    if |times| == 1 then last
    else
      var before := Opened(times[..|times| - 1], length);
      if last >= before + length then last else before
  }

  /** Requests since then, passed or not. */
  function CountSince(times: seq<int>, start: int): nat {
    if times == [] then 0
    else CountSince(times[..|times| - 1], start) + if times[|times| - 1] >= start then 1 else 0
  }

  lemma {:induction false} CountNone(times: seq<int>, start: int)
    requires forall i :: 0 <= i < |times| ==> times[i] < start
    ensures CountSince(times, start) == 0
  {
    if times != [] {
      CountNone(times[..|times| - 1], start);
    }
  }

  lemma {:induction false} SlotExact(windows: seq<Window>, times: seq<int>, w: nat)
    requires w < |windows| && windows[w].windowMs >= 1 && times != [] && Clocked(times)
    ensures var start := Opened(times, windows[w].windowMs);
            && start <= times[|times| - 1] < start + windows[w].windowMs
            && SlotsAfter(windows, times)[w] == Some(Slot(CountSince(times, start), start + windows[w].windowMs))
  {
    var length, last, before := windows[w].windowMs, times[|times| - 1], times[..|times| - 1];
    if before == [] {
      assert times == [last] && SlotsAfter(windows, before)[w] == None;
      assert CountSince(before, last) == 0;
    } else {
      SlotExact(windows, before, w);
      assert before[|before| - 1] <= last;
      if last >= Opened(before, length) + length {
        AllBefore(before, last);
        CountNone(before, last);
      }
    }
  }

  lemma AllBefore(times: seq<int>, start: int)
    requires Clocked(times) && times != [] && times[|times| - 1] < start
    ensures forall i :: 0 <= i < |times| ==> times[i] < start
  {
    forall i | 0 <= i < |times| ensures times[i] < start {
      assert i < |times| - 1 ==> times[i] <= times[|times| - 1];
    }
  }

  /** Exactly when a request passes: in each of the windows it is in, it is not beyond the limit's number of
      requests since that window opened. */
  lemma PassExact(limits: seq<nat>, times: seq<int>)
    requires |limits| == |WINDOWS| && times != [] && Clocked(times)
    ensures Passes(WINDOWS, limits, times)
            <==> forall w :: 0 <= w < |WINDOWS| ==> CountSince(times, Opened(times, WINDOWS[w].windowMs)) <= limits[w]
  {
    hide SlotsAfter, Opened, CountSince;
    forall w | 0 <= w < |WINDOWS|
      ensures Exceeds(SlotsAfter(WINDOWS, times)[w], limits[w]) <==> CountSince(times, Opened(times, WINDOWS[w].windowMs)) > limits[w] {
      FourWindows();
      SlotExact(WINDOWS, times, w);
    }
  }

  /** Under a policy every column of which is in range or NULL, each window lets through what the column or
      its default says, and at most twice that in any interval of its length. */
  lemma PolicyHolds(settings: seq<Setting>, limits: seq<nat>, times: seq<int>, w: nat, from: int, r: int)
    requires |settings| == |limits| == |WINDOWS| && w < |WINDOWS| && Clocked(times)
    requires forall i: nat :: i < |WINDOWS| ==> ConfiguredLimit(settings[i], WINDOWS[i]) == Some(limits[i])
    ensures InForce(WINDOWS[w].name, settings[w], limits[w])
    ensures WindowSum(Passed(WINDOWS, limits, times, w), r) <= limits[w]
    ensures IntervalSum(Passed(WINDOWS, limits, times, w), from, WINDOWS[w].windowMs) <= 2 * limits[w]
  {
    hide InForce, Passed, ConfiguredLimit;
    ConfiguredExact(settings[w], w, limits[w]);
    EveryWindowHolds(limits, times, w, from, r);
  }
}
