/**
 * serveOutput as written, with the RWMutex it shares with the supervisors.
 * On a tick that finds lastPrices empty it takes the read lock and
 * `continue`s without RUnlock, so the read lock is never given back. From
 * then on every supervisor Lock() blocks for good, and once a writer waits,
 * the sampler's own next RLock blocks too. The rest of the model
 * (Aggregator.Emitted, TickersAggregator.Tick) releases the lock on every
 * path; this module shows what the leak costs.
 */
module LockLeak {
  import opened Wrappers
  import opened Feed
  import opened Decimal
  import opened Supervisor
  import opened Sampler
  import opened Aggregator

  /**
   * The state of the run as written: the supervisor turns that took effect,
   * the supervisors stuck in Lock(), whether a read lock has leaked, whether
   * the sampler is stuck in RLock(), whether it has seen ctx.Done(), the
   * ticks so far and the lines printed.
   */
  datatype Run = Run(applied: Trace, stuck: set<int>, leaked: bool, samplerStuck: bool,
                     stopped: bool, ticks: nat, lines: seq<ConsensusSample>)

  /** A supervisor turn that touches lastPrices takes the write lock; cancellation does not. */
  predicate Locks(e: Event) { !e.Done? }

  /** One action of the interleaving, with the lock. */
  function LockedStep(n: nat, now: int, r: Run, a: Action): (r': Run)
    ensures r'.ticks == r.ticks + (if a.Tick? then 1 else 0)
    ensures r.leaked ==> r'.leaked
    ensures r.samplerStuck ==> r'.samplerStuck && r'.lines == r.lines
    ensures r.stuck <= r'.stuck
    ensures |r.lines| <= |r'.lines| <= |r.lines| + (if a.Tick? then 1 else 0)
    ensures r'.lines[..|r.lines|] == r.lines
  {
    match a
    case Deliver(slot, e) =>
      if slot in r.stuck || SlotAfter(r.applied, slot).status != Running then r
      else if Locks(e) && r.leaked then r.(stuck := r.stuck + {slot})
      else r.(applied := r.applied + [(slot, e)])
    case Tick =>
      var r' := r.(ticks := r.ticks + 1);
      if r.stopped || r.samplerStuck then r'
      else if r.stuck != {} then r'.(samplerStuck := true)
      else if Prices(n, r.applied) == map[] then r'.(leaked := true)
      else r'.(lines := r.lines + Printed(Prices(n, r.applied), n, TickTime(now, r.ticks)))
    case SamplerDone =>
      if r.samplerStuck then r else r.(stopped := true)
  }

  const Initial: Run := Run([], {}, false, false, false, 0, [])

  /** The run as written after the actions. */
  function AsWritten(n: nat, now: int, actions: seq<Action>): (r: Run)
    ensures r.ticks == Ticks(actions)
    ensures |r.lines| <= r.ticks
  {
    if actions == [] then Initial
    else LockedStep(n, now, AsWritten(n, now, actions[..|actions| - 1]), actions[|actions| - 1])
  }

  /** Cancellation does not change lastPrices. */
  lemma DoneKeepsPrices(n: nat, trace: Trace, slot: int)
    requires 0 <= slot < n
    ensures Prices(n, trace + [(slot, Done)]) == Prices(n, trace)
  {
    PricesAfter(n, trace, slot, Done);
    MapsEqual(Prices(n, trace + [(slot, Done)]), Prices(n, trace), n);
  }

  /** Once the lock has leaked, lastPrices stays empty and nothing is printed. */
  ghost predicate Silenced(n: nat, r: Run, lines: seq<ConsensusSample>)
  {
    r.leaked && Prices(n, r.applied) == map[] && r.lines == lines
  }

  lemma SilencedStep(n: nat, now: int, r: Run, a: Action, lines: seq<ConsensusSample>)
    requires Silenced(n, r, lines)
    requires a.Deliver? ==> 0 <= a.slot < n
    ensures Silenced(n, LockedStep(n, now, r, a), lines)
  {
    if a.Deliver? && a.slot !in r.stuck && SlotAfter(r.applied, a.slot).status == Running && !Locks(a.event) {
      DoneKeepsPrices(n, r.applied, a.slot);
    }
  }

  /**
   * As written: after a tick that finds lastPrices empty, no line is ever
   * printed again, whatever the feeds send.
   */
  lemma {:induction false} NothingAfterEmptyTick(n: nat, now: int, pre: seq<Action>, post: seq<Action>)
    requires forall j :: 0 <= j < |pre| && pre[j].Deliver? ==> 0 <= pre[j].slot < n
    requires forall j :: 0 <= j < |post| && post[j].Deliver? ==> 0 <= post[j].slot < n
    requires AsWritten(n, now, pre).leaked
    ensures AsWritten(n, now, pre + post).lines == AsWritten(n, now, pre).lines
    ensures AsWritten(n, now, pre + post).leaked
  {
    LeakedMeansEmpty(n, now, pre);
    SilencedAfter(n, now, pre, post);
  }

  /** The read lock leaks only on an empty map, and the map stays empty after it. */
  lemma {:induction false} LeakedMeansEmpty(n: nat, now: int, actions: seq<Action>)
    requires forall j :: 0 <= j < |actions| && actions[j].Deliver? ==> 0 <= actions[j].slot < n
    ensures AsWritten(n, now, actions).leaked ==> Prices(n, AsWritten(n, now, actions).applied) == map[]
  {
    if actions != [] {
      var pre, a := actions[..|actions| - 1], actions[|actions| - 1];
      assert forall j :: 0 <= j < |pre| ==> pre[j] == actions[j];
      LeakedMeansEmpty(n, now, pre);
      var r := AsWritten(n, now, pre);
      if r.leaked {
        SilencedStep(n, now, r, a, r.lines);
      }
    }
  }

  lemma {:induction false} SilencedAfter(n: nat, now: int, pre: seq<Action>, post: seq<Action>)
    requires forall j :: 0 <= j < |post| && post[j].Deliver? ==> 0 <= post[j].slot < n
    requires Silenced(n, AsWritten(n, now, pre), AsWritten(n, now, pre).lines)
    ensures Silenced(n, AsWritten(n, now, pre + post), AsWritten(n, now, pre).lines)
  {
    if post == [] {
      assert pre + post == pre;
    } else {
      var post' := post[..|post| - 1];
      assert (pre + post)[..|pre + post| - 1] == pre + post';
      SilencedAfter(n, now, pre, post');
      SilencedStep(n, now, AsWritten(n, now, pre + post'), post[|post| - 1], AsWritten(n, now, pre).lines);
    }
  }

  /** A supervisor stuck in Lock() stays stuck: it never sees ctx.Done(), so Start never returns. */
  lemma {:induction false} StuckForever(n: nat, now: int, pre: seq<Action>, post: seq<Action>, slot: int)
    requires slot in AsWritten(n, now, pre).stuck
    ensures slot in AsWritten(n, now, pre + post).stuck
  {
    if post == [] {
      assert pre + post == pre;
    } else {
      var post' := post[..|post| - 1];
      assert (pre + post)[..|pre + post| - 1] == pre + post';
      StuckForever(n, now, pre, post', slot);
    }
  }

  /**
   * The interleaving that shows it, for one feed: a tick before any sample
   * arrives, then a valid sample, then a tick, then cancellation. As written
   * nothing is printed and the supervisor is stuck; with the lock released
   * the second tick prints the sample's price.
   */
  lemma EarlyTick(now: int, p: TickerPrice)
    requires Parse(p.price).Some?
    ensures var actions := [Tick, Deliver(0, Price(p)), Tick, Deliver(0, Done)];
      && AsWritten(1, now, actions).lines == []
      && 0 in AsWritten(1, now, actions).stuck
      && Emitted(1, now, actions)
         == [ConsensusSample(UnixSeconds(TickTime(now, 1)), Parse(p.price).value)]
  {
    var a1 := [Tick];
    var a2 := a1 + [Deliver(0, Price(p))];
    var a3 := a2 + [Tick];
    var a4 := a3 + [Deliver(0, Done)];
    assert a4 == [Tick, Deliver(0, Price(p)), Tick, Deliver(0, Done)];
    AsWrittenEarlyTick(now, p, a1, a2, a3, a4);
    EmittedEarlyTick(now, p, a1, a2, a3, a4);
  }

  lemma AsWrittenEarlyTick(now: int, p: TickerPrice, a1: seq<Action>, a2: seq<Action>, a3: seq<Action>, a4: seq<Action>)
    requires a1 == [Tick] && a2 == a1 + [Deliver(0, Price(p))] && a3 == a2 + [Tick] && a4 == a3 + [Deliver(0, Done)]
    ensures AsWritten(1, now, a4).lines == [] && 0 in AsWritten(1, now, a4).stuck
  {
    assert a1[..0] == [];
    assert Prices(1, []) == map[];
    assert a2[..1] == a1 && a3[..2] == a2 && a4[..3] == a3;
    assert AsWritten(1, now, a1) == Initial.(leaked := true, ticks := 1);
    assert AsWritten(1, now, a2).stuck == {0};
  }

  lemma EmittedEarlyTick(now: int, p: TickerPrice, a1: seq<Action>, a2: seq<Action>, a3: seq<Action>, a4: seq<Action>)
    requires Parse(p.price).Some?
    requires a1 == [Tick] && a2 == a1 + [Deliver(0, Price(p))] && a3 == a2 + [Tick] && a4 == a3 + [Deliver(0, Done)]
    ensures Emitted(1, now, a4) == [ConsensusSample(UnixSeconds(TickTime(now, 1)), Parse(p.price).value)]
  {
    assert a1[..0] == [];
    assert a2[..1] == a1 && a3[..2] == a2 && a4[..3] == a3;
    assert Prices(1, []) == map[];
    assert Emitted(1, now, a1) == [];
    assert Ticks(a2) == 1;
    assert Deliveries(a2) == [(0, Price(p))];
    var m := map[0 := Parse(p.price).value];
    OneSample(p);
    assert !SamplerStopped(a1) && !SamplerStopped(a2);
    assert Emitted(1, now, a2) == [];
    assert Emitted(1, now, a3) == Printed(m, 1, TickTime(now, 1));
  }

  /** One feed that has sent one valid sample: its price is the consensus. */
  lemma OneSample(p: TickerPrice)
    requires Parse(p.price).Some?
    ensures Prices(1, [(0, Price(p))]) == map[0 := Parse(p.price).value]
    ensures Consensus(map[0 := Parse(p.price).value], 1) == Some(Parse(p.price).value)
  {
    var m := map[0 := Parse(p.price).value];
    SlotAfterAppend([], 0, Price(p), 0);
    assert [] + [(0, Price(p))] == [(0, Price(p))];
    PricesFromSlots(1, [(0, Price(p))], m);
    assert |m| == 1 by { assert m.Keys == {0}; }
    assert SlotSum(m, 1) == Parse(p.price).value by { assert SlotSum(m, 0) == 0.0; }
  }
}
