/**
 * The EXMO subscriber (internal/sources/exmocom): it connects, translates the
 * ticker to an EXMO topic, subscribes, and then turns every "update" message
 * it reads into a sample until a read fails or the context is cancelled.
 * The websocket client's outcomes are inputs: whether Connect and
 * SubscribeToTicker succeed, and the turns of the read loop.
 */
module Exmocom {
  import opened Wrappers
  import opened Feed

  /** The part of the message payload the subscriber reads (Message.Data). */
  datatype TickerData = TickerData(buyPrice: string)

  /** A message read from the EXMO socket. Data is taken to be present. */
  datatype Message = Message(timestamp: int, event: string, data: TickerData)

  type Turns = seq<Turn<Message>>

  const UpdateEvent: string := "update"

  /** Generic ticker to EXMO topic (tickersMap). */
  const TickersMap: map<string, string> := map["BTCUSD" := "spot/ticker:BTC_USD"]

  /** The sample an update message becomes: its buy price, stamped, under the generic ticker. */
  function ToSample(ticker: string, m: Message): (p: TickerPrice)
    ensures p.price == m.data.buyPrice && p.ticker == ticker
    ensures p.time == FromMillis(m.timestamp)
  {
    TickerPrice(m.data.buyPrice, FromMillis(m.timestamp), ticker)
  }

  /** The turn is a message the loop forwards: a message read whose event is "update". */
  predicate IsUpdate(t: Turn<Message>): (forwarded: bool)
    ensures forwarded ==> t.Received?
  {
    t.Received? && t.message.event == UpdateEvent
  }

  /** The samples the read loop pushes for the given turns, in read order. */
  function Updates(ticker: string, turns: Turns): (r: seq<TickerPrice>)
    ensures |r| <= |turns|
    ensures forall j :: 0 <= j < |r| ==> r[j].ticker == ticker
  {
    if turns == [] then []
    else
      var last := turns[|turns| - 1];
      Updates(ticker, turns[..|turns| - 1]) + (if IsUpdate(last) then [ToSample(ticker, last.message)] else [])
  }

  /**
   * The reference outcome of SubscribePriceStream: the setup steps in order,
   * each failure giving one error; then the samples of every update message
   * read before the first turn that ends the loop, and that turn's error.
   */
  function Subscribe(ticker: string, connected: bool, subscribed: bool, turns: Turns): (r: Streams)
    ensures |r.errors| <= 1
    ensures r.errors != [] ==> r.closed
    ensures forall j :: 0 <= j < |r.samples| ==> r.samples[j].ticker == ticker
    ensures r.topic.Some? <==> connected && ticker in TickersMap
    ensures r.samples != [] ==> connected && subscribed && ticker in TickersMap
  {
    if !connected then SetupFailure(None, ConnectFailed)
    else if ticker !in TickersMap then SetupFailure(None, TickerNotSupported)
    else if !subscribed then SetupFailure(Some(TickersMap[ticker]), SubscribeFailed)
    else
      var k := FirstStop(turns);
      Streams(Some(TickersMap[ticker]), Updates(ticker, turns[..k]),
              if k < |turns| then StopErrors(turns[k]) else [], k < |turns|)
  }

  /**
   * SubscribePriceStream: the setup sequence and the read loop that appends to
   * the result and error channels.
   */
  method SubscribePriceStream(ticker: string, connected: bool, subscribed: bool, turns: Turns)
    returns (out: Streams)
    ensures out == Subscribe(ticker, connected, subscribed, turns)
  {
    if !connected {
      // the client is disconnected and both channels closed
      return Streams(None, [], [ConnectFailed], true);
    }
    if ticker !in TickersMap {
      return Streams(None, [], [TickerNotSupported], true);
    }
    var topic := TickersMap[ticker];
    if !subscribed {
      return Streams(Some(topic), [], [SubscribeFailed], true);
    }
    var samples: seq<TickerPrice> := [];
    var i := 0;
    while i < |turns|
      invariant i <= FirstStop(turns)
      invariant samples == Updates(ticker, turns[..i])
    {
      match turns[i]
      case Cancel(disconnected) =>
        return Streams(Some(topic), samples, if disconnected then [] else [ShutdownFailed], true);
      case ReadError =>
        return Streams(Some(topic), samples, [ReadFailed], true);
      case Received(m) =>
        if m.event == UpdateEvent {
          samples := samples + [ToSample(ticker, m)];
        }
      assert turns[..i + 1][..i] == turns[..i];
      i := i + 1;
    }
    assert turns[..i] == turns;
    // no turn ended the loop yet: the channels stay open
    return Streams(Some(topic), samples, [], false);
  }

  /** Only BTCUSD has an EXMO topic; every other ticker fails with one error and no samples. */
  lemma UnsupportedTicker(ticker: string, subscribed: bool, turns: Turns)
    requires ticker != "BTCUSD"
    ensures Subscribe(ticker, true, subscribed, turns) == Streams(None, [], [TickerNotSupported], true)
    ensures ErrorText(Subscribe(ticker, true, subscribed, turns).errors[0]) == "ticker is not supported"
  {
  }

  /** tickersMap holds BTCUSD alone, under its EXMO topic. */
  lemma TickersMapEntries()
    ensures forall t :: t in TickersMap <==> t == "BTCUSD"
    ensures TickersMap["BTCUSD"] == "spot/ticker:BTC_USD"
  {
  }

  /**
   * Whichever setup step fails (connect, ticker lookup, subscribe), the
   * subscriber pushes exactly one error, no sample, and closes both channels.
   */
  lemma SetupFails(ticker: string, connected: bool, subscribed: bool, turns: Turns)
    requires !connected || ticker !in TickersMap || !subscribed
    ensures var r := Subscribe(ticker, connected, subscribed, turns);
      r.samples == [] && |r.errors| == 1 && r.closed
    ensures !connected ==> Subscribe(ticker, connected, subscribed, turns).errors == [ConnectFailed]
    ensures connected && ticker !in TickersMap ==> Subscribe(ticker, connected, subscribed, turns).errors == [TickerNotSupported]
    ensures connected && ticker in TickersMap && !subscribed ==> Subscribe(ticker, connected, subscribed, turns).errors == [SubscribeFailed]
  {
  }

  /** Connect is checked before the ticker: a failed connect reports only that. */
  lemma ConnectFirst(ticker: string, subscribed: bool, turns: Turns)
    ensures Subscribe(ticker, false, subscribed, turns) == Streams(None, [], [ConnectFailed], true)
  {
  }

  /** Samples of a concatenation are the samples of each part, in order. */
  lemma {:induction false} UpdatesAppend(ticker: string, a: Turns, b: Turns)
    ensures Updates(ticker, a + b) == Updates(ticker, a) + Updates(ticker, b)
  {
    if b == [] {
      assert a + b == a;
    } else {
      var b' := b[..|b| - 1];
      assert (a + b)[..|a + b| - 1] == a + b';
      UpdatesAppend(ticker, a, b');
    }
  }

  /**
   * A message whose event is not "update" produces nothing; an update
   * produces its sample: the buy price, stamped with the split timestamp,
   * under the requested generic ticker.
   */
  lemma UpdatesStep(ticker: string, turns: Turns, m: Message)
    ensures m.event != UpdateEvent ==> Updates(ticker, turns + [Received(m)]) == Updates(ticker, turns)
    ensures m.event == UpdateEvent ==>
              Updates(ticker, turns + [Received(m)]) == Updates(ticker, turns) + [TickerPrice(m.data.buyPrice, FromMillis(m.timestamp), ticker)]
  {
    assert (turns + [Received(m)])[..|turns|] == turns;
  }

  /**
   * The first read error or cancellation ends the stream: after the messages
   * read before it come their samples, the one error (if any) that turn
   * pushes, and nothing from any later turn.
   */
  lemma StopIsFinal(ticker: string, read: Turns, stop: Turn<Message>, later: Turns)
    requires ticker in TickersMap
    requires forall j :: 0 <= j < |read| ==> read[j].Received?
    requires !stop.Received?
    ensures Subscribe(ticker, true, true, read + [stop] + later)
         == Streams(Some(TickersMap[ticker]), Updates(ticker, read), StopErrors(stop), true)
  {
    var turns := read + [stop] + later;
    FirstStopAt(turns, |read|);
    assert turns[..|read|] == read;
  }

  /** A read error pushes exactly one error; a cancellation pushes one only if Disconnect fails. */
  lemma StopErrorCount(ticker: string, read: Turns, stop: Turn<Message>, later: Turns)
    requires ticker in TickersMap
    requires forall j :: 0 <= j < |read| ==> read[j].Received?
    requires !stop.Received?
    ensures stop.ReadError? ==> Subscribe(ticker, true, true, read + [stop] + later).errors == [ReadFailed]
    ensures stop.Cancel? ==> (Subscribe(ticker, true, true, read + [stop] + later).errors == [] <==> stop.disconnected)
  {
    StopIsFinal(ticker, read, stop, later);
  }
}
