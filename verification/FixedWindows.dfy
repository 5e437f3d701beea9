/**
  What a fixed window anchored at its first hit guarantees over any rolling interval.  Both budgets
  of src/middleware/rateLimit.js record their accepted hits in this form.
*/
module FixedWindows {

  /** An accepted hit: when, how much of the budget it took, and when its window resets. */
  datatype Hit = Hit(time: int, cost: nat, resetAt: int)

  /** Windows are `length` long, a hit lies inside its window, and a later hit shares the window of an
      earlier one or belongs to one that starts no sooner than the earlier one ends. */
  ghost predicate Windowed(hits: seq<Hit>, length: nat) {
    && (forall i :: 0 <= i < |hits| ==> InWindow(hits[i], length))
    && forall i, j :: 0 <= i < j < |hits| ==> Successive(hits[i], hits[j], length)
  }

  predicate InWindow(h: Hit, length: nat) {
    h.resetAt - length <= h.time < h.resetAt
  }

  predicate Successive(a: Hit, b: Hit, length: nat) {
    a.time <= b.time && (b.resetAt == a.resetAt || b.resetAt - length >= a.resetAt)
  }

  /** Budget taken inside the window that resets at r. */
  function WindowSum(hits: seq<Hit>, r: int): nat {
    if hits == [] then 0
    else WindowSum(hits[..|hits| - 1], r) + if hits[|hits| - 1].resetAt == r then hits[|hits| - 1].cost else 0
  }

  /** Budget taken in the half-open interval [from, from + length). */
  function IntervalSum(hits: seq<Hit>, from: int, length: nat): nat {
    if hits == [] then 0
    else IntervalSum(hits[..|hits| - 1], from, length)
         + if from <= hits[|hits| - 1].time < from + length then hits[|hits| - 1].cost else 0
  }

  lemma {:induction false} NoSumBeyond(hits: seq<Hit>, r: int)
    requires forall i :: 0 <= i < |hits| ==> hits[i].resetAt != r
    ensures WindowSum(hits, r) == 0
  {
    if hits != [] {
      NoSumBeyond(hits[..|hits| - 1], r);
    }
  }

  predicate Inside(h: Hit, from: int, length: nat) {
    from <= h.time < from + length
  }

  ghost predicate Capped(hits: seq<Hit>, limit: nat) {
    forall r: int :: WindowSum(hits, r) <= limit
  }

  /** Hits inside an interval all belong to one of two windows. */
  ghost predicate TwoWindows(hits: seq<Hit>, from: int, length: nat, r: int, s: int) {
    forall i :: 0 <= i < |hits| && Inside(hits[i], from, length) ==> hits[i].resetAt == r || hits[i].resetAt == s
  }

  lemma {:induction false} SumOverTwo(hits: seq<Hit>, from: int, length: nat, r: int, s: int)
    requires r != s && TwoWindows(hits, from, length, r, s)
    ensures IntervalSum(hits, from, length) <= WindowSum(hits, r) + WindowSum(hits, s)
  {
    if hits != [] {
      SumOverTwo(hits[..|hits| - 1], from, length, r, s);
      var last := hits[|hits| - 1];
      assert Inside(last, from, length) ==> last.resetAt == r || last.resetAt == s;
    }
  }

  /** The first and the last window seen in the interval; there is no room for a third. */
  lemma FindTwo(hits: seq<Hit>, from: int, length: nat) returns (r: int, s: int)
    requires Windowed(hits, length)
    ensures r < s && TwoWindows(hits, from, length, r, s)
  {
    if i :| 0 <= i < |hits| && Inside(hits[i], from, length) {
      var first := FirstInside(hits, from, length, i);
      r := hits[first].resetAt;
      if k :| first < k < |hits| && Inside(hits[k], from, length) && hits[k].resetAt != r {
        s := hits[k].resetAt;
        assert Successive(hits[first], hits[k], length);
        forall j | 0 <= j < |hits| && Inside(hits[j], from, length) && hits[j].resetAt != r
          ensures hits[j].resetAt == s
        {
          assert first < j;
          assert Successive(hits[first], hits[j], length);
          if j < k {
            assert Successive(hits[j], hits[k], length);
          } else if k < j {
            assert Successive(hits[k], hits[j], length);
          }
          assert InWindow(hits[first], length) && InWindow(hits[j], length) && InWindow(hits[k], length);
        }
      } else {
        s := r + 1;
      }
    } else {
      r, s := 0, 1;
    }
  }

  lemma FirstInside(hits: seq<Hit>, from: int, length: nat, i: nat) returns (first: nat)
    requires i < |hits| && Inside(hits[i], from, length)
    ensures first <= i && Inside(hits[first], from, length)
    ensures forall j :: 0 <= j < first ==> !Inside(hits[j], from, length)
  {
    if j :| 0 <= j < i && Inside(hits[j], from, length) {
      first := FirstInside(hits, from, length, j);
    } else {
      first := i;
    }
  }

  /** No rolling interval of the window's length takes more than two budgets. */
  lemma RollingBound(hits: seq<Hit>, length: nat, limit: nat, from: int)
    requires Windowed(hits, length) && Capped(hits, limit)
    ensures IntervalSum(hits, from, length) <= 2 * limit
  {
    var r, s := FindTwo(hits, from, length);
    SumOverTwo(hits, from, length, r, s);
  }

  // ---------------------------------------------------------------------------
  // The sharp bound when every window opens with an accepted, positive hit
  // ---------------------------------------------------------------------------

  /** The window of every hit was opened by a hit that cost something. */
  ghost predicate Opened(hits: seq<Hit>, length: nat) {
    forall i :: 0 <= i < |hits| ==> HasOpener(hits, hits[i].resetAt, length)
  }

  ghost predicate HasOpener(hits: seq<Hit>, r: int, length: nat) {
    exists j :: 0 <= j < |hits| && Opens(hits[j], r, length)
  }

  predicate Opens(h: Hit, r: int, length: nat) {
    h.resetAt == r && h.time == r - length && h.cost >= 1
  }

  lemma {:induction false} SumOverTwoStrict(hits: seq<Hit>, from: int, length: nat, r: int, s: int, j: nat)
    requires r != s && TwoWindows(hits, from, length, r, s)
    requires j < |hits| && Opens(hits[j], r, length) && !Inside(hits[j], from, length)
    ensures IntervalSum(hits, from, length) + 1 <= WindowSum(hits, r) + WindowSum(hits, s)
  {
    var last := hits[|hits| - 1];
    assert Inside(last, from, length) ==> last.resetAt == r || last.resetAt == s;
    if j == |hits| - 1 {
      SumOverTwo(hits[..|hits| - 1], from, length, r, s);
    } else {
      SumOverTwoStrict(hits[..|hits| - 1], from, length, r, s, j);
    }
  }

  lemma {:induction false} NothingOutside(hits: seq<Hit>, from: int, length: nat, r: int)
    requires forall i :: 0 <= i < |hits| && Inside(hits[i], from, length) ==> hits[i].resetAt == r
    ensures IntervalSum(hits, from, length) <= WindowSum(hits, r)
  {
    if hits != [] {
      NothingOutside(hits[..|hits| - 1], from, length, r);
      assert Inside(hits[|hits| - 1], from, length) ==> hits[|hits| - 1].resetAt == r;
    }
  }

  /** When both windows are seen, the hit that opened the earlier one lies before the interval. */
  lemma BothSeen(hits: seq<Hit>, length: nat, from: int, r: int, s: int, i: nat, k: nat)
    requires Windowed(hits, length) && Opened(hits, length) && r < s && TwoWindows(hits, from, length, r, s)
    requires i < |hits| && Inside(hits[i], from, length) && hits[i].resetAt == r
    requires k < |hits| && Inside(hits[k], from, length) && hits[k].resetAt == s
    ensures IntervalSum(hits, from, length) + 1 <= WindowSum(hits, r) + WindowSum(hits, s)
  {
    assert HasOpener(hits, r, length);
    var j :| 0 <= j < |hits| && Opens(hits[j], r, length);
    assert InWindow(hits[i], length) && InWindow(hits[k], length);
    assert i < k ==> Successive(hits[i], hits[k], length);
    assert k < i ==> Successive(hits[k], hits[i], length);
    SumOverTwoStrict(hits, from, length, r, s, j);
  }

  /** With positive costs the worst case is one less than two budgets. */
  lemma SharpRollingBound(hits: seq<Hit>, length: nat, limit: nat, from: int)
    requires Windowed(hits, length) && Capped(hits, limit) && Opened(hits, length) && limit >= 1
    ensures IntervalSum(hits, from, length) <= 2 * limit - 1
  {
    var r, s := FindTwo(hits, from, length);
    if i :| 0 <= i < |hits| && Inside(hits[i], from, length) && hits[i].resetAt == r {
      if k :| 0 <= k < |hits| && Inside(hits[k], from, length) && hits[k].resetAt == s {
        BothSeen(hits, length, from, r, s, i, k);
      } else {
        NothingOutside(hits, from, length, r);
      }
    } else {
      NothingOutside(hits, from, length, s);
    }
  }
}
