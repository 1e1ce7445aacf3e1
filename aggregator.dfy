/**
 * TickersAggregator (internal/aggregator.go): the map from feed slot to last
 * parsed price, the supervisors that update it, and the sampler that prints
 * the mean of its values every minute. The goroutines, channels and the
 * mutex are replaced by one sequential interleaving: each step is either one
 * turn of one supervisor or one tick of the sampler.
 */
module Aggregator {
  import opened Wrappers
  import opened Feed
  import opened Decimal
  import opened Supervisor
  import opened Sampler

  /** One output line: the tick's Unix time in seconds and the mean price. */
  datatype ConsensusSample = ConsensusSample(timestamp: int, mean: real)

  type Trace = seq<(int, Event)>

  /** The events offered to slot i's supervisor, in the order they arrived. */
  function Project(trace: Trace, i: int): (evs: seq<Event>)
    ensures |evs| <= |trace|
    ensures forall e :: e in evs ==> (i, e) in trace
  {
    if trace == [] then []
    else
      var last := trace[|trace| - 1];
      Project(trace[..|trace| - 1], i) + (if last.0 == i then [last.1] else [])
  }

  /** Slot i after the interleaved trace: only its own events count. */
  function SlotAfter(trace: Trace, i: int): (s: Slot)
    ensures s.status == Running ==> forall e :: e in Project(trace, i) ==> e.Price?
  {
    Replay(Idle, Project(trace, i))
  }

  /** lastPrices after the interleaved trace of n supervisors. */
  function Prices(n: nat, trace: Trace): (m: map<int, real>)
    ensures SlotsBelow(m, n)
  {
    map i | 0 <= i < n && SlotAfter(trace, i).price.Some? :: SlotAfter(trace, i).price.value
  }

  lemma SlotAfterAppend(trace: Trace, slot: int, e: Event, i: int)
    ensures SlotAfter(trace + [(slot, e)], i)
         == if i == slot then Step(SlotAfter(trace, i), e) else SlotAfter(trace, i)
  {
    assert (trace + [(slot, e)])[..|trace|] == trace;
    var evs := Project(trace, i);
    if i == slot {
      assert Project(trace + [(slot, e)], i) == evs + [e];
      assert (evs + [e])[..|evs|] == evs;
    } else {
      assert Project(trace + [(slot, e)], i) == evs;
    }
  }

  /** Two maps over the slots that agree on every slot are equal. */
  lemma MapsEqual(a: map<int, real>, b: map<int, real>, n: nat)
    requires SlotsBelow(a, n) && SlotsBelow(b, n)
    requires forall k :: 0 <= k < n ==> Get(a, k) == Get(b, k)
    ensures a == b
  {
    forall k | k in a ensures k in b && a[k] == b[k] {
      assert Get(a, k) == Get(b, k);
    }
    forall k | k in b ensures k in a {
      assert Get(a, k) == Get(b, k);
    }
  }

  /** lastPrices is determined slot by slot. */
  lemma PricesFromSlots(n: nat, trace: Trace, m: map<int, real>)
    requires SlotsBelow(m, n)
    requires forall k :: 0 <= k < n ==> Get(m, k) == SlotAfter(trace, k).price
    ensures Prices(n, trace) == m
  {
    MapsEqual(Prices(n, trace), m, n);
  }

  /**
   * One supervisor turn changes only that supervisor's own key: a parsed
   * price is written, anything else that stops the price (a bad price or
   * an error) deletes the key, and every other slot keeps its value.
   */
  lemma PricesAfter(n: nat, trace: Trace, slot: int, e: Event)
    requires 0 <= slot < n
    ensures var before, after := Prices(n, trace), Prices(n, trace + [(slot, e)]);
      && (forall k :: k != slot ==> Get(after, k) == Get(before, k))
      && Get(after, slot) == Step(SlotAfter(trace, slot), e).price
  {
    var before, after := Prices(n, trace), Prices(n, trace + [(slot, e)]);
    forall k ensures k != slot ==> Get(after, k) == Get(before, k) {
      SlotAfterAppend(trace, slot, e, k);
    }
    SlotAfterAppend(trace, slot, e, slot);
  }

  /**
   * The per-slot meaning of lastPrices after any interleaving: slot i holds
   * exactly what its own events determine (Supervisor.Expected), whatever
   * the other slots received in between.
   */
  lemma PricesPerSlot(n: nat, trace: Trace, i: int)
    requires 0 <= i < n
    ensures Get(Prices(n, trace), i) == Expected(Project(trace, i)).price
  {
    ReplayIsExpected(Project(trace, i));
  }

  /** A failed slot stays out of lastPrices whatever the trace goes on to contain. */
  lemma FailedSlotStaysAbsent(n: nat, trace: Trace, later: Trace, i: int)
    requires 0 <= i < n && SlotAfter(trace, i).status == Failed
    ensures i !in Prices(n, trace + later)
  {
    ProjectConcat(trace, later, i);
    StoppedIsFinal(Idle, Project(trace, i), Project(later, i));
    ReplayIsExpected(Project(trace, i));
    assert SlotAfter(trace + later, i) == SlotAfter(trace, i);
  }

  lemma {:induction false} ProjectConcat(a: Trace, b: Trace, i: int)
    ensures Project(a + b, i) == Project(a, i) + Project(b, i)
  {
    if b == [] {
      assert a + b == a;
    } else {
      var b' := b[..|b| - 1];
      assert (a + b)[..|a + b| - 1] == a + b';
      ProjectConcat(a, b', i);
    }
  }

  /**
   * Two feeds: A (slot 0) sends a1 then a2, B (slot 1) sends b, all valid:
   * lastPrices holds A's second price and B's price. Once B fails only A's
   * price is left.
   */
  lemma TwoFeeds(a1: TickerPrice, a2: TickerPrice, b: TickerPrice)
    requires Parse(a1.price).Some? && Parse(a2.price).Some? && Parse(b.price).Some?
    ensures var trace := [(0, Price(a1)), (1, Price(b)), (0, Price(a2))];
      && Prices(2, trace) == map[0 := Parse(a2.price).value, 1 := Parse(b.price).value]
      && Prices(2, trace + [(1, Error)]) == map[0 := Parse(a2.price).value]
  {
    var x2, y := Parse(a2.price).value, Parse(b.price).value;
    var trace := [(0, Price(a1)), (1, Price(b)), (0, Price(a2))];
    TwoFeedSlots(a1, a2, b);
    TwoSlotPrices(trace, map[0 := x2, 1 := y]);
    TwoSlotPrices(trace + [(1, Error)], map[0 := x2]);
  }

  /**
   * The worked example: A sends "100.00" then "102.50", B sends "101.00";
   * the consensus is 101.75, and 102.50 once B has failed.
   */
  lemma WorkedExample()
    ensures var a1, a2, b := Quote("100.00"), Quote("102.50"), Quote("101.00");
      var trace := [(0, Price(a1)), (1, Price(b)), (0, Price(a2))];
      && Prices(2, trace) == map[0 := 102.5, 1 := 101.0]
      && Consensus(map[0 := 102.5, 1 := 101.0], 2) == Some(101.75)
      && Prices(2, trace + [(1, Error)]) == map[0 := 102.5]
      && Consensus(map[0 := 102.5], 2) == Some(102.5)
  {
    Quote100();
    Quote102();
    Quote101();
    TwoFeeds(Quote("100.00"), Quote("102.50"), Quote("101.00"));
    TwoFeedMaps(102.5, 101.0);
  }

  lemma Quote100() ensures Parse("100.00") == Some(100.0) { QuoteValue('1', '0', '0', '0', '0'); }
  lemma Quote102() ensures Parse("102.50") == Some(102.5) { QuoteValue('1', '0', '2', '5', '0'); }
  lemma Quote101() ensures Parse("101.00") == Some(101.0) { QuoteValue('1', '0', '1', '0', '0'); }

  /** What each slot holds in the two-feed run. */
  lemma TwoFeedSlots(a1: TickerPrice, a2: TickerPrice, b: TickerPrice)
    requires Parse(a1.price).Some? && Parse(a2.price).Some? && Parse(b.price).Some?
    ensures var trace := [(0, Price(a1)), (1, Price(b)), (0, Price(a2))];
      && SlotAfter(trace, 0).price == Parse(a2.price)
      && SlotAfter(trace, 1).price == Parse(b.price)
      && SlotAfter(trace + [(1, Error)], 0).price == Parse(a2.price)
      && SlotAfter(trace + [(1, Error)], 1).price == None
  {
    var t1 := [(0, Price(a1))];
    var t2 := t1 + [(1, Price(b))];
    var t3 := t2 + [(0, Price(a2))];
    assert t3 == [(0, Price(a1)), (1, Price(b)), (0, Price(a2))];
    SlotAfterAppend([], 0, Price(a1), 0);
    SlotAfterAppend([], 0, Price(a1), 1);
    assert [] + [(0, Price(a1))] == t1;
    SlotAfterAppend(t1, 1, Price(b), 0);
    SlotAfterAppend(t1, 1, Price(b), 1);
    SlotAfterAppend(t2, 0, Price(a2), 0);
    SlotAfterAppend(t2, 0, Price(a2), 1);
    SlotAfterAppend(t3, 1, Error, 0);
    SlotAfterAppend(t3, 1, Error, 1);
  }

  /** lastPrices of two slots from what each slot holds. */
  lemma TwoSlotPrices(trace: Trace, m: map<int, real>)
    requires SlotsBelow(m, 2)
    requires Get(m, 0) == SlotAfter(trace, 0).price && Get(m, 1) == SlotAfter(trace, 1).price
    ensures Prices(2, trace) == m
  {
    PricesFromSlots(2, trace, m);
  }

  /** The maps of the two-feed run, and their consensus. */
  lemma TwoFeedMaps(x2: real, y: real)
    ensures Consensus(map[0 := x2, 1 := y], 2) == Some((x2 + y) / 2.0)
    ensures Consensus(map[0 := x2], 2) == Some(x2)
  {
    var both, one := map[0 := x2, 1 := y], map[0 := x2];
    assert |both| == 2 by { assert both.Keys == {0, 1}; }
    assert |one| == 1 by { assert one.Keys == {0}; }
    assert SlotSum(both, 1) == x2 by { assert SlotSum(both, 0) == 0.0; }
    assert SlotSum(one, 1) == x2 by { assert SlotSum(one, 0) == 0.0; }
    assert SlotSum(both, 2) == x2 + y;
    assert SlotSum(one, 2) == x2;
  }

  function DigitOf(c: char): int { c as int - '0' as int }

  /** A price of the form ddd.dd parses to its value. */
  lemma QuoteValue(a: char, b: char, c: char, d: char, e: char)
    requires IsDigit(a) && IsDigit(b) && IsDigit(c) && IsDigit(d) && IsDigit(e)
    ensures Parse([a, b, c, '.', d, e])
         == Some((100 * DigitOf(a) + 10 * DigitOf(b) + DigitOf(c)) as real
                 + (10 * DigitOf(d) + DigitOf(e)) as real / 100.0)
  {
    var whole, frac := [a, b, c], [d, e];
    assert [a, b, c, '.', d, e] == whole + "." + frac;
    ParseDecimal(whole, frac);
    ThreeDigits(a, b, c);
    TwoDigits(d, e);
    assert Pow10(2) == 100;
  }

  lemma TwoDigits(a: char, b: char)
    requires IsDigit(a) && IsDigit(b)
    ensures DigitsValue([a, b]) == 10 * DigitOf(a) + DigitOf(b)
  {
    var s := [a, b];
    assert s[..1] == [a] && [a][..0] == [];
    assert DigitsValue([a]) == 10 * DigitsValue([]) + DigitOf(a);
    assert DigitsValue(s) == 10 * DigitsValue([a]) + DigitOf(b);
  }

  lemma ThreeDigits(a: char, b: char, c: char)
    requires IsDigit(a) && IsDigit(b) && IsDigit(c)
    ensures DigitsValue([a, b, c]) == 100 * DigitOf(a) + 10 * DigitOf(b) + DigitOf(c)
  {
    TwoDigits(a, b);
    assert [a, b, c][..2] == [a, b];
  }

  /** A BTCUSD sample with the given price text. */
  function Quote(price: string): TickerPrice
  {
    TickerPrice(price, UnixTime(0, 0), "BTCUSD")
  }

  /** What the orchestration interleaves: a supervisor turn, a sampler tick, or the sampler seeing ctx.Done(). */
  datatype Action = Deliver(slot: int, event: Event) | Tick | SamplerDone

  /** The supervisor turns among the actions, in order. */
  function Deliveries(actions: seq<Action>): Trace
  {
    if actions == [] then []
    else
      var last := actions[|actions| - 1];
      Deliveries(actions[..|actions| - 1]) + (if last.Deliver? then [(last.slot, last.event)] else [])
  }

  /** The ticks among the actions that the sampler handled. */
  function Ticks(actions: seq<Action>): nat
  {
    if actions == [] then 0
    else Ticks(actions[..|actions| - 1]) + (if actions[|actions| - 1].Tick? then 1 else 0)
  }

  /** Whether the sampler has seen ctx.Done() among the actions. */
  predicate SamplerStopped(actions: seq<Action>)
  {
    actions != [] && (SamplerStopped(actions[..|actions| - 1]) || actions[|actions| - 1].SamplerDone?)
  }

  /**
   * The lines printed for the actions, started at `now` nanoseconds with n
   * supervisors: at each tick before the sampler stops, the consensus of the
   * prices held at that moment, stamped with the tick's whole second;
   * nothing at a tick where no slot holds a price.
   */
  function Emitted(n: nat, now: int, actions: seq<Action>): (lines: seq<ConsensusSample>)
    ensures |lines| <= Ticks(actions)
  {
    if actions == [] then []
    else
      var pre := actions[..|actions| - 1];
      Emitted(n, now, pre)
        + if actions[|actions| - 1].Tick? && !SamplerStopped(pre) then
            Printed(Prices(n, Deliveries(pre)), n, TickTime(now, Ticks(pre)))
          else []
  }

  /** What one tick at `time` prints: nothing, or the consensus line. */
  function Printed(m: map<int, real>, n: nat, time: int): (lines: seq<ConsensusSample>)
    ensures |lines| <= 1
    ensures lines == [] <==> m == map[]
  {
    match Consensus(m, n)
    case None => []
    case Some(mean) => [ConsensusSample(UnixSeconds(time), mean)]
  }

  /** How each of the functions above extends by one action. */
  lemma ActionStep(n: nat, now: int, actions: seq<Action>, i: nat)
    requires i < |actions|
    ensures var pre, a, post := actions[..i], actions[i], actions[..i + 1];
      && Deliveries(post) == Deliveries(pre) + (if a.Deliver? then [(a.slot, a.event)] else [])
      && Ticks(post) == Ticks(pre) + (if a.Tick? then 1 else 0)
      && (SamplerStopped(post) <==> SamplerStopped(pre) || a.SamplerDone?)
      && Emitted(n, now, post) == Emitted(n, now, pre)
           + if a.Tick? && !SamplerStopped(pre) then Printed(Prices(n, Deliveries(pre)), n, TickTime(now, Ticks(pre))) else []
  {
    assert actions[..i + 1][..i] == actions[..i];
  }

  /** Once the sampler has seen ctx.Done(), it stays stopped. */
  lemma {:induction false} StoppedStaysStopped(pre: seq<Action>, post: seq<Action>)
    requires SamplerStopped(pre)
    ensures SamplerStopped(pre + post)
  {
    if post != [] {
      var post' := post[..|post| - 1];
      assert (pre + post)[..|pre + post| - 1] == pre + post';
      StoppedStaysStopped(pre, post');
    } else {
      assert pre + post == pre;
    }
  }

  /** After the sampler has seen ctx.Done() it prints nothing more, whatever happens next. */
  lemma NothingAfterDone(n: nat, now: int, pre: seq<Action>, post: seq<Action>)
    ensures Emitted(n, now, pre + [SamplerDone] + post) == Emitted(n, now, pre)
  {
    var stop := pre + [SamplerDone];
    assert stop[..|stop| - 1] == pre;
    assert SamplerStopped(stop);
    EmittedOnceStopped(n, now, stop, post);
  }

  lemma {:induction false} EmittedOnceStopped(n: nat, now: int, stop: seq<Action>, post: seq<Action>)
    requires SamplerStopped(stop)
    ensures Emitted(n, now, stop + post) == Emitted(n, now, stop)
  {
    if post == [] {
      assert stop + post == stop;
    } else {
      var post' := post[..|post| - 1];
      assert (stop + post)[..|stop + post| - 1] == stop + post';
      StoppedStaysStopped(stop, post');
      EmittedOnceStopped(n, now, stop, post');
    }
  }

  /** Every printed timestamp is a whole minute. */
  lemma {:induction false} EmittedOnMinutes(n: nat, now: int, actions: seq<Action>)
    ensures forall j :: 0 <= j < |Emitted(n, now, actions)| ==> Emitted(n, now, actions)[j].timestamp % 60 == 0
  {
    if actions != [] {
      var pre := actions[..|actions| - 1];
      EmittedOnMinutes(n, now, pre);
      TickOnMinute(now, Ticks(pre));
    }
  }

  /** A set with an element: the range of a non-empty map has a first key. */
  lemma NonEmpty(s: set<int>)
    requires s != {}
    ensures exists x :: x in s
  {
    if forall x :: x !in s {
      assert false;
    }
  }

  class TickersAggregator {
    const ticker: string
    /** len(t.subscribers): slot i belongs to subscriber i. */
    const slots: nat
    var lastPrices: map<int, real>
    /** Whether each supervisor still runs its loop. */
    var status: seq<Status>
    /** The supervisor turns taken so far, in order. */
    ghost var trace: Trace

    ghost predicate Valid()
      reads this
    {
      && |status| == slots
      && lastPrices == Prices(slots, trace)
      && forall i :: 0 <= i < slots ==> status[i] == SlotAfter(trace, i).status
    }

    /** NewTickersAggregator: an empty lastPrices and every supervisor about to start. */
    constructor (ticker: string, slots: nat)
      ensures Valid() && this.ticker == ticker && this.slots == slots
      ensures lastPrices == map[] && trace == []
      ensures forall i :: 0 <= i < slots ==> status[i] == Running
    {
      this.ticker := ticker;
      this.slots := slots;
      lastPrices := map[];
      status := seq(slots, _ => Running);
      trace := [];
    }

    /**
     * One turn of supervisor `slot` (the body of its select loop). Nothing
     * happens once that supervisor has returned.
     */
    method Deliver(slot: int, e: Event)
      requires Valid() && 0 <= slot < slots
      modifies this
      ensures Valid() && trace == old(trace) + [(slot, e)]
      ensures old(status[slot]) != Running ==> lastPrices == old(lastPrices) && status == old(status)
      ensures old(status[slot]) == Running && e.Price? && Parse(e.sample.price).Some? ==>
        lastPrices == old(lastPrices)[slot := Parse(e.sample.price).value] && status == old(status)
      ensures old(status[slot]) == Running && e.Price? && Parse(e.sample.price).None? ==>
        lastPrices == old(lastPrices) - {slot} && status == old(status)
      ensures old(status[slot]) == Running && e.Error? ==>
        lastPrices == old(lastPrices) - {slot} && status == old(status)[slot := Failed]
      ensures old(status[slot]) == Running && e.Done? ==>
        lastPrices == old(lastPrices) && status == old(status)[slot := Cancelled]
    {
      ghost var before := trace;
      if status[slot] == Running {
        match e
        case Price(sample) =>
          var price := Parse(sample.price);
          if price.Some? {
            lastPrices := lastPrices[slot := price.value];
          } else {
            // an invalid value must not stay the last known price
            lastPrices := lastPrices - {slot};
          }
        case Error =>
          lastPrices := lastPrices - {slot};
          status := status[slot := Failed];
        case Done =>
          status := status[slot := Cancelled];
      }
      trace := trace + [(slot, e)];
      DeliverKeepsValid(slots, before, slot, e, old(lastPrices), lastPrices);
      forall i | 0 <= i < slots ensures status[i] == SlotAfter(trace, i).status {
        SlotAfterAppend(before, slot, e, i);
      }
    }

    /**
     * The map Deliver leaves behind is lastPrices after the longer trace:
     * the supervisor's own key follows its slot's Step, the others stay.
     */
    static lemma DeliverKeepsValid(n: nat, trace: Trace, slot: int, e: Event, m: map<int, real>, m': map<int, real>)
      requires 0 <= slot < n && m == Prices(n, trace)
      requires forall k :: k != slot ==> Get(m', k) == Get(m, k)
      requires Get(m', slot) == Step(SlotAfter(trace, slot), e).price
      requires SlotsBelow(m', n)
      ensures m' == Prices(n, trace + [(slot, e)])
    {
      PricesAfter(n, trace, slot, e);
      MapsEqual(m', Prices(n, trace + [(slot, e)]), n);
    }

    /**
     * The copy the sampler takes under the read lock: a slice of
     * len(lastPrices) prices, filled in whatever order the map range visits
     * the keys (`order`).
     */
    method Snapshot() returns (prices: array<real>, ghost order: seq<int>)
      ensures fresh(prices) && prices.Length == |lastPrices|
      ensures Enumerates(order, lastPrices) && |order| == prices.Length
      ensures forall j :: 0 <= j < prices.Length ==> prices[j] == lastPrices[order[j]]
    {
      prices := new real[|lastPrices|];
      var remaining := lastPrices.Keys;
      order := [];
      var i := 0;
      while remaining != {}
        invariant remaining <= lastPrices.Keys
        invariant i == |order| && i + |remaining| == prices.Length
        invariant forall j :: 0 <= j < i ==> order[j] in lastPrices && order[j] !in remaining
        invariant forall j :: 0 <= j < i ==> prices[j] == lastPrices[order[j]]
        invariant forall j, l :: 0 <= j < l < i ==> order[j] != order[l]
        invariant forall k :: k in lastPrices ==> k in remaining || k in order
        decreases remaining
      {
        NonEmpty(remaining);
        var k :| k in remaining;
        prices[i] := lastPrices[k];
        order := order + [k];
        remaining := remaining - {k};
        i := i + 1;
      }
    }

    /**
     * One tick of serveOutput at `time` nanoseconds: no line when no slot
     * holds a price, else the tick's second and the mean of the copied
     * prices, which is the consensus of lastPrices.
     *
     * In the Go code the empty case `continue`s while still holding the read
     * lock; here the empty case is "no output, state unchanged", the intended
     * behaviour. Module LockLeak models the leak and what it costs.
     */
    method Tick(time: int) returns (line: Option<ConsensusSample>)
      requires Valid()
      ensures line.None? <==> lastPrices == map[]
      ensures line == match Consensus(lastPrices, slots)
                      case None => None
                      case Some(mean) => Some(ConsensusSample(UnixSeconds(time), mean))
    {
      if |lastPrices| == 0 {
        return None;
      }
      var prices, order := Snapshot();
      MeanOfSnapshot(lastPrices, slots, order, prices[..]);
      return Some(ConsensusSample(UnixSeconds(time), Mean(prices[..])));
    }

    /**
     * Start followed by serveOutput, run as one interleaving of supervisor
     * turns and sampler ticks, from a clock reading of `now` nanoseconds.
     * Returns the lines printed.
     */
    method Start(now: int, actions: seq<Action>) returns (lines: seq<ConsensusSample>)
      requires Valid() && trace == []
      requires forall j :: 0 <= j < |actions| && actions[j].Deliver? ==> 0 <= actions[j].slot < slots
      modifies this
      ensures Valid() && trace == Deliveries(actions)
      ensures lines == Emitted(slots, now, actions)
    {
      lines := [];
      var sampling := true;
      var ticks := 0;
      var i := 0;
      while i < |actions|
        invariant 0 <= i <= |actions|
        invariant Valid() && trace == Deliveries(actions[..i])
        invariant ticks == Ticks(actions[..i])
        invariant sampling <==> !SamplerStopped(actions[..i])
        invariant lines == Emitted(slots, now, actions[..i])
        decreases |actions| - i
      {
        ActionStep(slots, now, actions, i);
        match actions[i] {
          case Deliver(slot, e) =>
            Deliver(slot, e);
          case Tick =>
            if sampling {
              var line := Tick(TickTime(now, ticks));
              if line.Some? {
                lines := lines + [line.value];
              }
            }
            ticks := ticks + 1;
          case SamplerDone =>
            sampling := false;
        }
        i := i + 1;
      }
      assert actions[..i] == actions;
    }
  }
}
