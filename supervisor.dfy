/**
 * The rules one feed supervisor of TickersAggregator.Start applies to its
 * slot, as a function of the events it receives in order. A slot's state is
 * whether its supervisor still runs and the price it holds in lastPrices
 * (None: the key is absent).
 */
module Supervisor {
  import opened Wrappers
  import opened Feed
  import opened Decimal

  /** What a supervisor's select loop can pick: a sample, an error, or ctx.Done(). */
  datatype Event = Price(sample: TickerPrice) | Error | Done

  datatype Status = Running | Failed | Cancelled

  datatype Slot = Slot(status: Status, price: Option<real>)

  /** A slot before its supervisor has received anything: running, no key. */
  const Idle: Slot := Slot(Running, None)

  /**
   * One turn of the loop. A stopped supervisor reads nothing more. A sample
   * whose price parses overwrites the slot's price; one that does not removes
   * it and the loop goes on; an error removes it and stops the supervisor;
   * cancellation stops it and leaves the price alone.
   */
  function Step(s: Slot, e: Event): (r: Slot)
    ensures r.status == Running <==> s.status == Running && e.Price?
    ensures r.status == Failed <==> s.status == Failed || (s.status == Running && e.Error?)
    ensures r.price != s.price ==> s.status == Running && !e.Done?
  {
    if s.status != Running then s
    else
      match e
      case Price(sample) => Slot(Running, Parse(sample.price))
      case Error => Slot(Failed, None)
      case Done => Slot(Cancelled, s.price)
  }

  /** The slot after the supervisor has been offered `evs`, in order. */
  function Replay(s: Slot, evs: seq<Event>): (r: Slot)
    ensures s.status != Running ==> r == s
    ensures r.status == Running ==> s.status == Running && forall j :: 0 <= j < |evs| ==> evs[j].Price?
  {
    if evs == [] then s
    else
      var pre := evs[..|evs| - 1];
      assert forall j :: 0 <= j < |pre| ==> pre[j] == evs[j];
      Step(Replay(s, pre), evs[|evs| - 1])
  }

  /** The index of the first event that stops a supervisor, or |evs| if none does. */
  function StopIndex(evs: seq<Event>): (k: nat)
    ensures k <= |evs|
    ensures forall j :: 0 <= j < k ==> evs[j].Price?
    ensures k < |evs| ==> !evs[k].Price?
  {
    if evs == [] || !evs[0].Price? then 0 else 1 + StopIndex(evs[1..])
  }

  /**
   * The slot that the events determine, stated without replaying them: every
   * event before the first error or cancellation is a sample, and only those
   * and that one are consumed. The slot has failed if that event is an error,
   * and then holds nothing; otherwise it holds the parse of the last sample
   * consumed, if there is one.
   */
  function Expected(evs: seq<Event>): (r: Slot)
    ensures r.status == Running <==> forall j :: 0 <= j < |evs| ==> evs[j].Price?
    ensures r.status == Failed ==> r.price == None
    ensures r.price.Some? ==> exists j :: 0 <= j < |evs| && evs[j].Price? && Parse(evs[j].sample.price) == r.price
  {
    var k := StopIndex(evs);
    var status := if k == |evs| then Running else if evs[k].Error? then Failed else Cancelled;
    var price := if status == Failed || k == 0 then None else Parse(evs[k - 1].sample.price);
    Slot(status, price)
  }

  lemma StopIndexAt(evs: seq<Event>, k: nat)
    requires k <= |evs| && (k < |evs| ==> !evs[k].Price?)
    requires forall j :: 0 <= j < k ==> evs[j].Price?
    ensures StopIndex(evs) == k
  {
  }

  /** Replaying the events from an idle slot gives the slot they determine. */
  lemma {:induction false} ReplayIsExpected(evs: seq<Event>)
    ensures Replay(Idle, evs) == Expected(evs)
  {
    if evs != [] {
      var pre, e := evs[..|evs| - 1], evs[|evs| - 1];
      assert evs == pre + [e];
      ReplayIsExpected(pre);
      var k := StopIndex(pre);
      assert forall j :: 0 <= j < |pre| ==> evs[j] == pre[j];
      if k < |pre| {
        StopIndexAt(evs, k);
      } else if e.Price? {
        StopIndexAt(evs, |evs|);
      } else {
        StopIndexAt(evs, |pre|);
      }
    }
  }

  /** Once a supervisor has stopped, no later event changes its slot. */
  lemma {:induction false} StoppedIsFinal(s: Slot, pre: seq<Event>, post: seq<Event>)
    requires Replay(s, pre).status != Running
    ensures Replay(s, pre + post) == Replay(s, pre)
  {
    if post != [] {
      var post' := post[..|post| - 1];
      assert (pre + post)[..|pre + post| - 1] == pre + post';
      StoppedIsFinal(s, pre, post');
    } else {
      assert pre + post == pre;
    }
  }

  /**
   * A feed error removes the slot's key for good: after it, whatever the
   * feed sends, the key stays absent and the supervisor stays failed.
   */
  lemma ErrorIsPermanent(pre: seq<Event>, post: seq<Event>)
    requires Replay(Idle, pre).status == Running
    ensures Replay(Idle, pre + [Error] + post) == Slot(Failed, None)
  {
    assert (pre + [Error])[..|pre|] == pre;
    StoppedIsFinal(Idle, pre + [Error], post);
  }

  /** Cancellation stops the supervisor and keeps the price it held, whatever follows. */
  lemma CancelKeepsPrice(pre: seq<Event>, post: seq<Event>)
    requires Replay(Idle, pre).status == Running
    ensures Replay(Idle, pre + [Done] + post) == Slot(Cancelled, Replay(Idle, pre).price)
  {
    assert (pre + [Done])[..|pre|] == pre;
    StoppedIsFinal(Idle, pre + [Done], post);
  }

  /**
   * Last write wins: a running supervisor's slot holds the parse of the
   * latest sample, or nothing when that sample's price does not parse, and
   * the supervisor keeps running either way.
   */
  lemma LastSampleWins(pre: seq<Event>, p: TickerPrice)
    requires Replay(Idle, pre).status == Running
    ensures Replay(Idle, pre + [Price(p)]) == Slot(Running, Parse(p.price))
  {
    assert (pre + [Price(p)])[..|pre|] == pre;
  }
}
