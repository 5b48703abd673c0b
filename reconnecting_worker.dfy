/**
 * The feed consumer's `WebSocketWorker`: clears the store once, then connects
 * again and again until the feed ends or the session is cancelled. After a
 * Close frame it reconnects at once; after any other failure it logs, waits
 * ten seconds and reconnects, with no limit on the number of attempts. On
 * every way out the feed is marked complete.
 */
module ReconnectingWorker {
  import opened Bytes
  import opened WageringData
  import opened Messages
  import opened FeedSession
  import LegacyFeedConfig
  import RetryingWorker

  /**
   * The session `ExecuteAsync` runs over the event trace. After a Close frame
   * or any fault (including a close handshake that throws, even after the end
   * of the feed) it connects again; the end of the feed with a completed close,
   * and cancellation, end it. All connections share the one store.
   */
  function ReconnectSession(deserialize: seq<byte> -> JsonResult<BaseMessage>, events: seq<Event>): (s: Session)
    ensures s.attempts >= 1
    ensures s.end == FeedEnded || s.end == Cancelled
    decreases |events|
  {
    var a := Connection(deserialize, events);
    if a.end == ServerClosed || a.end == Faulted then
      Then(1, a.dispatched, ReconnectSession(deserialize, events[a.consumed..]))
    else
      Session(1, a.end, a.dispatched)
  }

  /** Failures never exhaust the worker: after any number of them it connects again. */
  lemma {:induction false} FailuresNeverExhaust(deserialize: seq<byte> -> JsonResult<BaseMessage>, k: nat, rest: seq<Event>)
    ensures ReconnectSession(deserialize, seq(k, _ => Fail) + rest) == Then(k, [], ReconnectSession(deserialize, rest))
  {
    var events := seq(k, _ => Fail) + rest;
    if k == 0 {
      assert events == rest;
      assert [] + ReconnectSession(deserialize, rest).dispatched == ReconnectSession(deserialize, rest).dispatched;
    } else {
      assert events[0] == Fail;
      assert events[1..] == seq(k - 1, _ => Fail) + rest;
      FailuresNeverExhaust(deserialize, k - 1, rest);
    }
  }

  /** A Close frame from the server is followed by a new connection. */
  lemma ServerCloseReconnects(deserialize: seq<byte> -> JsonResult<BaseMessage>, rest: seq<Event>)
    requires CloseCompletes(rest)
    ensures ReconnectSession(deserialize, [Close] + rest) == Then(1, [], ReconnectSession(deserialize, rest))
  {
    CloseFrameCompletes(deserialize, rest);
    assert ([Close] + rest)[1..] == rest;
  }

  /** A Close frame whose handshake throws is also followed by a new connection, after the delay. */
  lemma FailedCloseReconnects(deserialize: seq<byte> -> JsonResult<BaseMessage>, rest: seq<Event>)
    ensures ReconnectSession(deserialize, [Close, Fail] + rest) == Then(1, [], ReconnectSession(deserialize, rest))
  {
    CloseHandshakeFails(deserialize, rest);
    assert ([Close, Fail] + rest)[2..] == rest;
  }

  /**
   * The end of the feed ends the session when the close handshake completes;
   * when the handshake throws, the worker connects again after the delay,
   * keeping what was dispatched.
   */
  lemma FeedEndReconnectsOnlyIfCloseFails(
    deserialize: seq<byte> -> JsonResult<BaseMessage>, parts: seq<seq<byte>>, rest: seq<Event>)
    requires parts != []
    requires !Continues(deserialize, Flatten(parts))
    ensures CloseCompletes(rest) ==>
      ReconnectSession(deserialize, Fragment(parts) + rest) == Session(1, FeedEnded, [Flatten(parts)])
    ensures ReconnectSession(deserialize, Fragment(parts) + [Fail] + rest)
         == Then(1, [Flatten(parts)], ReconnectSession(deserialize, rest))
  {
    FeedEndClosesConnection(deserialize, parts, rest);
    var events := Fragment(parts) + [Fail] + rest;
    assert events == Fragment(parts) + ([Fail] + rest);
    FeedEndClosesConnection(deserialize, parts, [Fail] + rest);
    assert events[|parts| + 1..] == rest;
  }

  /** Cancellation ends the session: no reconnection follows it. */
  lemma CancellationEndsSession(deserialize: seq<byte> -> JsonResult<BaseMessage>, rest: seq<Event>)
    ensures ReconnectSession(deserialize, [Cancel] + rest) == Session(1, Cancelled, [])
  {
    assert ([Cancel] + rest)[0] == Cancel;
  }

  /**
   * When the first connection ends the feed or is cancelled, this worker and
   * the retrying one run the same session.
   */
  lemma AgreesWithRetryingWorker(deserialize: seq<byte> -> JsonResult<BaseMessage>, retries: nat, events: seq<Event>)
    requires Connection(deserialize, events).end in {FeedEnded, Cancelled}
    ensures ReconnectSession(deserialize, events) == RetryingWorker.RetrySession(deserialize, retries, events)
  {
  }

  /** A connection that closed or faulted is followed by a new one from the next event. */
  lemma ReconnectAfter(deserialize: seq<byte> -> JsonResult<BaseMessage>, events: seq<Event>, pos: nat, next: nat)
    requires pos <= |events|
    requires Connection(deserialize, events[pos..]).end in {ServerClosed, Faulted}
    requires next - pos == Connection(deserialize, events[pos..]).consumed
    ensures ReconnectSession(deserialize, events[pos..])
         == Then(1, Connection(deserialize, events[pos..]).dispatched, ReconnectSession(deserialize, events[next..]))
  {
    var a := Connection(deserialize, events[pos..]);
    assert events[pos..][a.consumed..] == events[next..];
  }

  /** A connection that ended the feed or was cancelled is the last one. */
  lemma LastConnection(deserialize: seq<byte> -> JsonResult<BaseMessage>, events: seq<Event>, pos: nat)
    requires pos <= |events|
    requires Connection(deserialize, events[pos..]).end in {FeedEnded, Cancelled}
    ensures var a := Connection(deserialize, events[pos..]);
      ReconnectSession(deserialize, events[pos..]) == Session(1, a.end, a.dispatched)
  {
  }

  class WebSocketWorker {
    const wageringDataRepository: WageringDataRepository
    const messageProcessor: MessageProcessor
    const wageringFeedConfig: LegacyFeedConfig.WageringFeedConfig
    /** The connection target, built once from the configuration. */
    const wsUrl: string

    /** The processor writes to the same store the worker clears and completes. */
    ghost predicate Valid()
    {
      messageProcessor.wageringDataRepository == wageringDataRepository
    }

    constructor (
      wageringDataRepository: WageringDataRepository, messageProcessor: MessageProcessor,
      wageringFeedConfig: LegacyFeedConfig.WageringFeedConfig)
      requires messageProcessor.wageringDataRepository == wageringDataRepository
      ensures Valid()
      ensures this.wageringDataRepository == wageringDataRepository && this.messageProcessor == messageProcessor
      ensures this.wageringFeedConfig == wageringFeedConfig && wsUrl == LegacyFeedConfig.GetFullWebSocketUrl(wageringFeedConfig)
    {
      this.wageringDataRepository := wageringDataRepository;
      this.messageProcessor := messageProcessor;
      this.wageringFeedConfig := wageringFeedConfig;
      this.wsUrl := LegacyFeedConfig.GetFullWebSocketUrl(wageringFeedConfig);
    }

    /**
     * The whole session over the event trace (the returned values are only
     * for stating it): the store ends complete and holds exactly the updates
     * of the messages dispatched over all connections, starting from empty.
     */
    method ExecuteAsync(events: seq<Event>) returns (ghost attempts: nat, ghost end: AttemptEnd)
      requires Valid()
      modifies wageringDataRepository
      ensures var s := ReconnectSession(messageProcessor.deserialize, events);
        && attempts == s.attempts && end == s.end
        && wageringDataRepository.wageringData == ApplyAll(map[], Contributions(messageProcessor.deserialize, s.dispatched))
      ensures wageringDataRepository.isFeedComplete
    {
      ghost var deserialize := messageProcessor.deserialize;
      wageringDataRepository.Clear();
      var pos := 0;
      ghost var done: nat := 0;
      ghost var sent: seq<seq<byte>> := [];
      ghost var whole := ReconnectSession(deserialize, events);
      assert events[pos..] == events;
      assert [] + whole.dispatched == whole.dispatched;
      // a cancellation seen at the loop head is the next connection reading `Cancel`
      while true
        invariant pos <= |events|
        invariant whole == Then(done, sent, ReconnectSession(deserialize, events[pos..]))
        invariant wageringDataRepository.wageringData == ApplyAll(map[], Contributions(deserialize, sent))
        invariant !wageringDataRepository.isFeedComplete
        decreases |events| - pos
      {
        ghost var a := Connection(deserialize, events[pos..]);
        var outcome, next := ConnectAndReceive(events, pos);
        ProcessedInTurn(map[], deserialize, sent, a.dispatched);
        if outcome == ServerClosed || outcome == Faulted {
          // a fault (a failed close included) is logged and followed by a ten-second delay; a Close is not
          ghost var prev := pos;
          pos := next;
          ghost var rest := ReconnectSession(deserialize, events[pos..]);
          ReconnectAfter(deserialize, events, prev, pos);
          ThenThen(done, sent, 1, a.dispatched, rest);
          done, sent := done + 1, sent + a.dispatched;
        } else {
          // EndOfFeed returns once the socket is closed; cancellation propagates to the outer handler
          LastConnection(deserialize, events, pos);
          attempts, end := done + 1, outcome;
          sent := sent + a.dispatched;
          break;
        }
      }
      // finally
      wageringDataRepository.MarkFeedComplete();
    }

    /**
     * The body of the reconnect loop: connect, then receive until a Close
     * frame, a fault, cancellation, or a message the processor rejects,
     * reassembling fragmented messages; then, after a Close frame or a
     * rejected message, close the socket.
     */
    method ConnectAndReceive(events: seq<Event>, pos: nat) returns (end: AttemptEnd, next: nat)
      requires Valid()
      requires pos <= |events|
      modifies wageringDataRepository
      ensures var c := Connection(messageProcessor.deserialize, events[pos..]);
        && end == c.end && next == pos + c.consumed
        && wageringDataRepository.wageringData
           == ApplyAll(old(wageringDataRepository.wageringData), Contributions(messageProcessor.deserialize, c.dispatched))
      ensures wageringDataRepository.isFeedComplete == old(wageringDataRepository.isFeedComplete)
    {
      ghost var deserialize := messageProcessor.deserialize;
      ghost var start := wageringDataRepository.wageringData;
      ghost var a := Receive(deserialize, events[pos..], []);
      var messageBuffer: seq<byte> := [];
      var i := pos;
      ghost var got: seq<seq<byte>> := [];
      assert [] + a.dispatched == a.dispatched;
      while true
        invariant pos <= i <= |events|
        invariant a == After(i - pos, got, Receive(deserialize, events[i..], messageBuffer))
        invariant wageringDataRepository.wageringData == ApplyAll(start, Contributions(deserialize, got))
        invariant wageringDataRepository.isFeedComplete == old(wageringDataRepository.isFeedComplete)
        decreases |events| - i
      {
        if i == |events| {
          // the session deadline cancels the receive
          assert got + [] == got;
          return Cancelled, i;
        }
        match events[i] {
          case Close =>
            // close the socket, then break out to the reconnect loop; a partial message is dropped
            ReadStop(deserialize, events, pos, i, got, messageBuffer, a);
            end, next := CloseAsync(events, i + 1, ServerClosed);
            CloseAt(deserialize, events, pos, i + 1);
            return;
          case Fail =>
            ReadStop(deserialize, events, pos, i, got, messageBuffer, a);
            return Faulted, i + 1;
          case Cancel =>
            ReadStop(deserialize, events, pos, i, got, messageBuffer, a);
            return Cancelled, i + 1;
          case Data(bytes, endOfMessage) =>
            ghost var prev, buffer := i, messageBuffer;
            messageBuffer := messageBuffer + bytes;
            i := i + 1;
            if !endOfMessage {
              ReadPartial(deserialize, events, pos, prev, i, got, buffer, messageBuffer, a);
              continue;
            }
            ghost var message := messageBuffer;
            var shouldContinue := messageProcessor.ProcessMessage(messageBuffer);
            ProcessedOneMore(start, deserialize, got, message);
            messageBuffer := [];
            if shouldContinue {
              ReadAccepted(deserialize, events, pos, prev, i, got, buffer, message, a);
              got := got + [message];
              continue;
            }
            // the processor said stop: close the socket, and ExecuteAsync returns
            ReadRejected(deserialize, events, pos, prev, i, got, buffer, message, a);
            got := got + [message];
            end, next := CloseAsync(events, i, FeedEnded);
            CloseAt(deserialize, events, pos, i);
            return;
        }
      }
    }
  }
}
