/**
 * What a price subscriber produces and consumes: the samples it pushes on its
 * result channel (internal.TickerPrice), the errors it pushes on its error
 * channel, and the outcomes of its websocket client, given as inputs.
 */
module Feed {
  import opened Wrappers
  import GoInt

  /** The arguments of time.Unix(sec, nsec) that stamp a sample. */
  datatype UnixTime = UnixTime(sec: int, nsec: int)

  datatype TickerPrice = TickerPrice(price: string, time: UnixTime, ticker: string)

  /**
   * The stamp of a message whose timestamp is `ts` milliseconds:
   * time.Unix(ts / 1000, ts % 1000 * 1000000) with Go's truncating operators.
   */
  function FromMillis(ts: int): (t: UnixTime)
    ensures t.sec * 1000 + t.nsec / 1_000_000 == ts
    ensures t.sec * 1_000_000_000 + t.nsec == ts * 1_000_000
    ensures t.nsec % 1_000_000 == 0
    ensures ts >= 0 ==> 0 <= t.nsec <= 999_000_000 && t.sec == ts / 1000
    ensures ts < 0 ==> -999_000_000 <= t.nsec <= 0
  {
    var qr := GoInt.QuotRem(ts, 1000);
    UnixTime(qr.0, qr.1 * 1_000_000)
  }

  /** The errors a subscriber can push, one kind per failing step. */
  datatype FeedError =
    | ConnectFailed       // e.client.Connect
    | TickerNotSupported  // the ticker has no exchange symbol
    | SubscribeFailed     // e.client.SubscribeToTicker
    | ReadFailed          // e.client.ReadMessage
    | ShutdownFailed      // e.client.Disconnect on cancellation

  /** The text of the unsupported-ticker error. */
  const TickerNotSupportedText: string := "ticker is not supported"

  /**
   * The text of the error pushed for each kind, up to the wrapped cause that
   * fmt.Errorf appends after the colon. Only the unsupported ticker has a
   * text of its own, without a cause.
   */
  function ErrorText(e: FeedError): (text: string)
    ensures text == TickerNotSupportedText <==> e.TickerNotSupported?
  {
    match e
    case ConnectFailed => "e.client.Connect: "
    case TickerNotSupported => TickerNotSupportedText
    case SubscribeFailed => "e.client.SubscribeToTicker: "
    case ReadFailed => "e.client.ReadMessage: "
    case ShutdownFailed => "e.shutdown: "
  }

  /**
   * One turn of a subscriber's read loop, as its environment decides it: the
   * context was cancelled (with the outcome of the Disconnect that follows),
   * or ReadMessage returned a message (Received) or an error.
   */
  datatype Turn<M> = Received(message: M) | ReadError | Cancel(disconnected: bool)

  /**
   * Everything a subscription produced: the exchange symbol passed to
   * SubscribeToTicker (None when setup stopped before it), the samples pushed,
   * the errors pushed, and whether both channels are closed.
   */
  datatype Streams = Streams(topic: Option<string>, samples: seq<TickerPrice>, errors: seq<FeedError>, closed: bool)

  /** The result of a setup step that fails: one error, no samples, both channels closed. */
  function SetupFailure(topic: Option<string>, e: FeedError): (r: Streams)
    ensures r.samples == [] && r.errors == [e] && r.closed
  {
    Streams(topic, [], [e], true)
  }

  /** The index of the first turn that ends the read loop, or |turns| when none does. */
  function FirstStop<M>(turns: seq<Turn<M>>): (k: nat)
    ensures k <= |turns|
    ensures forall j :: 0 <= j < k ==> turns[j].Received?
    ensures k < |turns| ==> !turns[k].Received?
  {
    if turns == [] || !turns[0].Received? then 0 else 1 + FirstStop(turns[1..])
  }

  /** FirstStop is determined by where the first non-message turn is. */
  lemma FirstStopAt<M>(turns: seq<Turn<M>>, k: nat)
    requires k <= |turns| && (k < |turns| ==> !turns[k].Received?)
    requires forall j :: 0 <= j < k ==> turns[j].Received?
    ensures FirstStop(turns) == k
  {
  }

  /** What the loop pushes on its error channel when it stops at `t`. */
  function StopErrors<M>(t: Turn<M>): (errs: seq<FeedError>)
    requires !t.Received?
    ensures |errs| <= 1
    ensures t.ReadError? ==> errs == [ReadFailed]
    ensures t.Cancel? ==> (errs == [] <==> t.disconnected)
  {
    match t
    case ReadError => [ReadFailed]
    case Cancel(disconnected) => if disconnected then [] else [ShutdownFailed]
  }
}
