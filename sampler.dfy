/**
 * The arithmetic of TickersAggregator.serveOutput: the sleep that aligns the
 * sampler to the next minute boundary, the times its ticks fire, and the
 * unweighted mean of the prices held by the slots.
 */
module Sampler {
  import opened Wrappers
  import GoInt

  /** time.Second and time.Minute, in nanoseconds. */
  const Second: int := 1_000_000_000
  const Minute: int := 60 * Second

  /** The instant (in nanoseconds since the epoch) is the start of a minute. */
  predicate OnMinute(t: int)
  {
    t % Minute == 0
  }

  /**
   * The initial sleep, time.Minute - now % time.Minute, for `now` in
   * nanoseconds (Go's truncating `%`). It ends exactly on a minute boundary;
   * for a clock at or after the epoch it is positive, at most a minute, and
   * no boundary lies strictly between now and its end.
   */
  function AlignDelay(now: int): (d: int)
    ensures OnMinute(now + d)
    ensures now >= 0 ==> 0 < d <= Minute
    ensures now >= 0 ==> forall t :: now < t < now + d ==> !OnMinute(t)
  {
    var qr := GoInt.QuotRem(now, Minute);
    NoBoundaryBefore(now, Minute - qr.1);
    Minute - qr.1
  }

  lemma NoBoundaryBefore(now: int, d: int)
    requires d == Minute - GoInt.QuotRem(now, Minute).1
    ensures now >= 0 ==> forall t :: now < t < now + d ==> !OnMinute(t)
  {
    forall t | now >= 0 && now < t < now + d
      ensures !OnMinute(t)
    {
      var q, r := now / Minute, now % Minute;
      assert now == q * Minute + r;
      assert t == q * Minute + (r + (t - now));
      assert 0 < r + (t - now) < Minute;
      assert t % Minute == r + (t - now);
    }
  }

  /** The instant of the k-th tick (from 0): time.NewTicker(time.Minute) started when the sleep ends. */
  function TickTime(now: int, k: nat): (t: int)
    ensures now >= 0 ==> now + (k + 1) * Minute < t <= now + (k + 2) * Minute
  {
    now + AlignDelay(now) + (k + 1) * Minute
  }

  /** What currentTime.Unix() prints for an instant: whole seconds, rounded down. */
  function UnixSeconds(t: int): (sec: int)
    ensures sec * Second <= t < (sec + 1) * Second
  {
    t / Second
  }

  /** Every tick falls on a minute boundary, so every printed timestamp is a whole minute. */
  lemma TickOnMinute(now: int, k: nat)
    ensures OnMinute(TickTime(now, k))
    ensures UnixSeconds(TickTime(now, k)) % 60 == 0
  {
    var b := now + AlignDelay(now);
    var q := b / Minute;
    assert b == q * Minute;
    assert TickTime(now, k) == (q + k + 1) * Minute;
    assert (q + k + 1) * Minute == ((q + k + 1) * 60) * Second;
  }

  /** Consecutive ticks are one minute apart. */
  lemma TicksOneMinuteApart(now: int, k: nat)
    ensures TickTime(now, k + 1) == TickTime(now, k) + Minute
    ensures UnixSeconds(TickTime(now, k + 1)) == UnixSeconds(TickTime(now, k)) + 60
  {
    assert TickTime(now, k) + Minute == TickTime(now, k) + 60 * Second;
  }

  /**
   * A start 37 seconds into a minute sleeps 23 seconds, to the next minute;
   * the first tick comes one minute later.
   */
  lemma StartAtSecond37(minute: nat)
    ensures AlignDelay(minute * Minute + 37 * Second) == 23 * Second
    ensures TickTime(minute * Minute + 37 * Second, 0) == (minute + 2) * Minute
  {
    var now := minute * Minute + 37 * Second;
    assert now % Minute == 37 * Second;
  }

  /** The sum of a sequence of prices. */
  function Sum(s: seq<real>): real
  {
    if s == [] then 0.0 else Sum(s[..|s| - 1]) + s[|s| - 1]
  }

  /** decimal.Avg: the sum divided by the count. */
  function Mean(s: seq<real>): (mean: real)
    requires |s| > 0
    ensures mean * |s| as real == Sum(s)
  {
    Sum(s) / |s| as real
  }

  /** All keys of the map are slots below n. */
  predicate SlotsBelow(m: map<int, real>, n: nat)
  {
    forall k :: k in m ==> 0 <= k < n
  }

  /** The sum of the prices held by slots 0 .. n-1. */
  function SlotSum(m: map<int, real>, n: nat): real
  {
    if n == 0 then 0.0 else SlotSum(m, n - 1) + (if n - 1 in m then m[n - 1] else 0.0)
  }

  /**
   * The consensus of the last prices of n slots: nothing when no slot holds
   * a price, else the mean of the prices held.
   */
  function Consensus(m: map<int, real>, n: nat): (r: Option<real>)
    ensures r.None? <==> m == map[]
    ensures r.Some? ==> r.value * |m| as real == SlotSum(m, n)
  {
    if |m| == 0 then None else Some(SlotSum(m, n) / |m| as real)
  }

  /** Taking one slot's price out of the map takes it out of the sum. */
  lemma {:induction false} SlotSumRemove(m: map<int, real>, n: nat, k: int)
    requires k in m && 0 <= k < n
    ensures SlotSum(m, n) == m[k] + SlotSum(m - {k}, n)
  {
    if k < n - 1 {
      SlotSumRemove(m, n - 1, k);
    } else {
      SlotSumUnaffected(m, n - 1, k);
    }
  }

  /** Keys outside the slots 0 .. n-1 do not count in their sum. */
  lemma {:induction false} SlotSumUnaffected(m: map<int, real>, n: nat, k: int)
    requires !(0 <= k < n)
    ensures SlotSum(m - {k}, n) == SlotSum(m, n)
  {
    if n > 0 {
      SlotSumUnaffected(m, n - 1, k);
    }
  }

  /** `order` lists every key of `m` exactly once: the order a map range visits them. */
  ghost predicate Enumerates(order: seq<int>, m: map<int, real>)
  {
    && (forall i, j :: 0 <= i < j < |order| ==> order[i] != order[j])
    && (forall j :: 0 <= j < |order| ==> order[j] in m)
    && (forall k :: k in m ==> k in order)
  }

  /**
   * The prices copied in any order of the keys add up to the slots' sum: a
   * snapshot taken in whatever order the map range visits the keys has the
   * same total.
   */
  lemma {:induction false} SumEnumeration(m: map<int, real>, n: nat, order: seq<int>, values: seq<real>)
    requires SlotsBelow(m, n) && Enumerates(order, m) && |values| == |order|
    requires forall j :: 0 <= j < |order| ==> values[j] == m[order[j]]
    ensures Sum(values) == SlotSum(m, n)
  {
    if order == [] {
      assert forall k :: k in m ==> k in order;
      assert m.Keys == {};
      assert m == map[];
      SlotSumEmpty(n);
    } else {
      var last := |order| - 1;
      var k := order[last];
      var m' := m - {k};
      var order', values' := order[..last], values[..last];
      assert Enumerates(order', m') by {
        forall x | x in m' ensures x in order' {
          assert x in order;
          var j :| 0 <= j < |order| && order[j] == x;
          assert j != last;
          assert order'[j] == x;
        }
      }
      SumEnumeration(m', n, order', values');
      SlotSumRemove(m, n, k);
    }
  }

  lemma {:induction false} SlotSumEmpty(n: nat)
    ensures SlotSum(map[], n) == 0.0
  {
    if n > 0 {
      SlotSumEmpty(n - 1);
    }
  }

  /** The mean of a snapshot that enumerates the map is the slots' consensus. */
  lemma MeanOfSnapshot(m: map<int, real>, n: nat, order: seq<int>, values: seq<real>)
    requires SlotsBelow(m, n) && Enumerates(order, m) && |values| == |order| && |m| > 0
    requires forall j :: 0 <= j < |order| ==> values[j] == m[order[j]]
    ensures |values| == |m|
    ensures Consensus(m, n) == Some(Mean(values))
  {
    SumEnumeration(m, n, order, values);
    EnumerationSize(order, m);
  }

  lemma EnumeratedKeys(order: seq<int>, m: map<int, real>)
    requires Enumerates(order, m)
    ensures (set j | 0 <= j < |order| :: order[j]) == m.Keys
  {
    forall k | k in m ensures k in (set j | 0 <= j < |order| :: order[j]) {
      assert k in order;
      var j :| 0 <= j < |order| && order[j] == k;
    }
  }

  /** A list of distinct keys covering a map is as long as the map. */
  lemma {:induction false} EnumerationSize(order: seq<int>, m: map<int, real>)
    requires Enumerates(order, m)
    ensures |order| == |m|
  {
    EnumeratedKeys(order, m);
    DistinctSize(order);
  }

  lemma {:induction false} DistinctSize(order: seq<int>)
    requires forall i, j :: 0 <= i < j < |order| ==> order[i] != order[j]
    ensures |set j | 0 <= j < |order| :: order[j]| == |order|
  {
    if order != [] {
      var n := |order| - 1;
      DistinctSize(order[..n]);
      var before := set j | 0 <= j < n :: order[..n][j];
      var all := set j | 0 <= j < |order| :: order[j];
      assert all == before + {order[n]} by {
        forall x | x in all ensures x in before || x == order[n] {
          var j :| 0 <= j < |order| && order[j] == x;
          if j < n { assert order[..n][j] == x; }
        }
      }
      assert order[n] !in before;
    }
  }
}
