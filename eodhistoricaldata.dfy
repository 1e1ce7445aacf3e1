/**
 * The EOD Historical Data subscriber (internal/sources/eodhistoricaldata): it
 * connects (dial and authentication), translates the ticker to an EOD
 * symbol, subscribes, and then turns every message it reads into a sample,
 * without filtering, until a read fails or the context is cancelled. The
 * websocket client's outcomes are inputs.
 */
module Eodhistoricaldata {
  import opened Wrappers
  import opened Feed

  /** A trade message read from the EOD socket; only the fields the subscriber uses. */
  datatype TickerMessage = TickerMessage(price: string, timestamp: int)

  type Turns = seq<Turn<TickerMessage>>

  /** Generic ticker to EOD symbol (tickersMap). */
  const TickersMap: map<string, string> := map["BTCUSD" := "BTC-USD"]

  /** The sample a message becomes: its price, stamped, under the generic ticker. */
  function ToSample(ticker: string, m: TickerMessage): (p: TickerPrice)
    ensures p.price == m.price && p.ticker == ticker
    ensures p.time == FromMillis(m.timestamp)
  {
    TickerPrice(m.price, FromMillis(m.timestamp), ticker)
  }

  /** The samples the read loop pushes for the given turns, in read order. */
  function Samples(ticker: string, turns: Turns): (r: seq<TickerPrice>)
    ensures |r| <= |turns|
    ensures forall j :: 0 <= j < |r| ==> r[j].ticker == ticker
  {
    if turns == [] then []
    else
      var last := turns[|turns| - 1];
      Samples(ticker, turns[..|turns| - 1]) + (if last.Received? then [ToSample(ticker, last.message)] else [])
  }

  /** The reference outcome of SubscribePriceStream (see Exmocom.Subscribe). */
  function Subscribe(ticker: string, connected: bool, subscribed: bool, turns: Turns): (r: Streams)
    ensures |r.errors| <= 1
    ensures r.errors != [] ==> r.closed
    ensures forall j :: 0 <= j < |r.samples| ==> r.samples[j].ticker == ticker
    ensures r.topic.Some? <==> connected && ticker in TickersMap
    ensures r.samples != [] ==> connected && subscribed && ticker in TickersMap
  {
    if !connected then SetupFailure(None, ConnectFailed)
    else if ticker !in TickersMap then SetupFailure(None, TickerNotSupported)
    else if !subscribed then SetupFailure(Some(TickersMap[ticker]), SubscribeFailed)
    else
      var k := FirstStop(turns);
      Streams(Some(TickersMap[ticker]), Samples(ticker, turns[..k]),
              if k < |turns| then StopErrors(turns[k]) else [], k < |turns|)
  }

  /** SubscribePriceStream: the setup sequence and the read loop. */
  method SubscribePriceStream(ticker: string, connected: bool, subscribed: bool, turns: Turns)
    returns (out: Streams)
    ensures out == Subscribe(ticker, connected, subscribed, turns)
  {
    if !connected {
      return Streams(None, [], [ConnectFailed], true);
    }
    if ticker !in TickersMap {
      return Streams(None, [], [TickerNotSupported], true);
    }
    var topic := TickersMap[ticker];
    if !subscribed {
      return Streams(Some(topic), [], [SubscribeFailed], true);
    }
    var samples: seq<TickerPrice> := [];
    var i := 0;
    while i < |turns|
      invariant i <= FirstStop(turns)
      invariant samples == Samples(ticker, turns[..i])
    {
      match turns[i]
      case Cancel(disconnected) =>
        return Streams(Some(topic), samples, if disconnected then [] else [ShutdownFailed], true);
      case ReadError =>
        return Streams(Some(topic), samples, [ReadFailed], true);
      case Received(m) =>
        samples := samples + [ToSample(ticker, m)];
      assert turns[..i + 1][..i] == turns[..i];
      i := i + 1;
    }
    assert turns[..i] == turns;
    return Streams(Some(topic), samples, [], false);
  }

  /** Only BTCUSD has an EOD symbol; every other ticker fails with one error and no samples. */
  lemma UnsupportedTicker(ticker: string, subscribed: bool, turns: Turns)
    requires ticker != "BTCUSD"
    ensures Subscribe(ticker, true, subscribed, turns) == Streams(None, [], [TickerNotSupported], true)
    ensures ErrorText(Subscribe(ticker, true, subscribed, turns).errors[0]) == "ticker is not supported"
  {
  }

  /** tickersMap holds BTCUSD alone, under its EOD symbol. */
  lemma TickersMapEntries()
    ensures forall t :: t in TickersMap <==> t == "BTCUSD"
    ensures TickersMap["BTCUSD"] == "BTC-USD"
  {
  }

  /**
   * Whichever setup step fails (connect, ticker lookup, subscribe), the
   * subscriber pushes exactly one error, no sample, and closes both channels.
   */
  lemma SetupFails(ticker: string, connected: bool, subscribed: bool, turns: Turns)
    requires !connected || ticker !in TickersMap || !subscribed
    ensures var r := Subscribe(ticker, connected, subscribed, turns);
      r.samples == [] && |r.errors| == 1 && r.closed
    ensures !connected ==> Subscribe(ticker, connected, subscribed, turns).errors == [ConnectFailed]
    ensures connected && ticker !in TickersMap ==> Subscribe(ticker, connected, subscribed, turns).errors == [TickerNotSupported]
    ensures connected && ticker in TickersMap && !subscribed ==> Subscribe(ticker, connected, subscribed, turns).errors == [SubscribeFailed]
  {
  }

  /** Connect is checked before the ticker: a failed connect reports only that. */
  lemma ConnectFirst(ticker: string, subscribed: bool, turns: Turns)
    ensures Subscribe(ticker, false, subscribed, turns) == Streams(None, [], [ConnectFailed], true)
  {
  }

  /**
   * Every message read yields exactly one sample, position for position: its
   * price, stamped with the split timestamp, under the requested ticker.
   */
  lemma {:induction false} OneSamplePerMessage(ticker: string, read: Turns)
    requires forall j :: 0 <= j < |read| ==> read[j].Received?
    ensures |Samples(ticker, read)| == |read|
    ensures forall j :: 0 <= j < |read| ==>
              Samples(ticker, read)[j] == TickerPrice(read[j].message.price, FromMillis(read[j].message.timestamp), ticker)
  {
    if read != [] {
      OneSamplePerMessage(ticker, read[..|read| - 1]);
    }
  }

  /**
   * The first read error or cancellation ends the stream: one sample for each
   * message read before it, in read order, the one error (if any) that turn
   * pushes, and nothing from any later turn.
   */
  lemma StopIsFinal(ticker: string, read: Turns, stop: Turn<TickerMessage>, later: Turns)
    requires ticker in TickersMap
    requires forall j :: 0 <= j < |read| ==> read[j].Received?
    requires !stop.Received?
    ensures var r := Subscribe(ticker, true, true, read + [stop] + later);
      && r == Streams(Some(TickersMap[ticker]), Samples(ticker, read), StopErrors(stop), true)
      && |r.samples| == |read|
      && forall j :: 0 <= j < |read| ==> r.samples[j] == ToSample(ticker, read[j].message)
  {
    var turns := read + [stop] + later;
    FirstStopAt(turns, |read|);
    assert turns[..|read|] == read;
    OneSamplePerMessage(ticker, read);
  }
}
