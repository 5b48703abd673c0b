/**
 * The API project's `WebSocketWorker`: clears the store once, runs the
 * connection under a retry pipeline that re-runs a connection attempt only
 * when it throws (not on cancellation), at most `MaxRetryAttempts` times, and
 * marks the feed complete on every way out. Backoff delays and jitter are
 * timing only and are not modelled.
 */
module RetryingWorker {
  import opened Wrappers
  import opened Bytes
  import opened WageringData
  import opened Messages
  import opened FeedSession
  import FeedConfig

  /**
   * The session `ExecuteAsync` runs over the event trace: one attempt, and
   * another after each fault while `retriesLeft` lasts. A completed close
   * (after a Close frame or the end of the feed) and cancellation are not
   * retried; a close handshake that throws is a fault like any other. The
   * attempts share the one store, so totals from earlier attempts are kept.
   */
  function RetrySession(deserialize: seq<byte> -> JsonResult<BaseMessage>, retriesLeft: nat, events: seq<Event>): (s: Session)
    ensures 1 <= s.attempts <= retriesLeft + 1
    ensures s.end == Faulted ==> s.attempts == retriesLeft + 1
    decreases |events|
  {
    var a := Connection(deserialize, events);
    if a.end == Faulted && retriesLeft > 0 then
      Then(1, a.dispatched, RetrySession(deserialize, retriesLeft - 1, events[a.consumed..]))
    else
      Session(1, a.end, a.dispatched)
  }

  /** Failed connections are retried while the budget lasts, keeping what was dispatched. */
  lemma {:induction false} FailuresRetried(
    deserialize: seq<byte> -> JsonResult<BaseMessage>, retriesLeft: nat, k: nat, rest: seq<Event>)
    requires k <= retriesLeft
    ensures RetrySession(deserialize, retriesLeft, seq(k, _ => Fail) + rest)
         == Then(k, [], RetrySession(deserialize, retriesLeft - k, rest))
  {
    var events := seq(k, _ => Fail) + rest;
    if k == 0 {
      assert events == rest;
      assert [] + RetrySession(deserialize, retriesLeft, rest).dispatched == RetrySession(deserialize, retriesLeft, rest).dispatched;
    } else {
      var tail := seq(k - 1, _ => Fail) + rest;
      assert events == [Fail] + tail;
      ConnectFails(deserialize, tail);
      assert events[1..] == tail;
      FailuresRetried(deserialize, retriesLeft - 1, k - 1, rest);
      ThenThen(1, [], k - 1, [], RetrySession(deserialize, retriesLeft - k, rest));
      var none: seq<seq<byte>> := [];
      assert none + none == none;
    }
  }

  /**
   * Once the budget is spent the session ends on the fault: with
   * `MaxRetryAttempts` = 3, four failed connections end the session and no
   * fifth is tried, whatever follows in the trace.
   */
  lemma RetriesExhausted(deserialize: seq<byte> -> JsonResult<BaseMessage>, retries: nat, rest: seq<Event>)
    ensures RetrySession(deserialize, retries, seq(retries + 1, _ => Fail) + rest) == Session(retries + 1, Faulted, [])
  {
    var tail := [Fail] + rest;
    assert seq(retries + 1, _ => Fail) + rest == seq(retries, _ => Fail) + tail;
    FailuresRetried(deserialize, retries, retries, tail);
    assert tail[0] == Fail;
  }

  /** A Close frame from the server, closed without error, ends the session normally, with no reconnection. */
  lemma ServerCloseNotRetried(deserialize: seq<byte> -> JsonResult<BaseMessage>, retries: nat, rest: seq<Event>)
    requires CloseCompletes(rest)
    ensures RetrySession(deserialize, retries, [Close] + rest) == Session(1, ServerClosed, [])
  {
    CloseFrameCompletes(deserialize, rest);
  }

  /** A close handshake that throws after a Close frame is retried like any other fault. */
  lemma FailedCloseRetried(deserialize: seq<byte> -> JsonResult<BaseMessage>, retries: nat, rest: seq<Event>)
    requires retries > 0
    ensures RetrySession(deserialize, retries, [Close, Fail] + rest)
         == Then(1, [], RetrySession(deserialize, retries - 1, rest))
  {
    CloseHandshakeFails(deserialize, rest);
    assert ([Close, Fail] + rest)[2..] == rest;
  }

  /**
   * The end of the feed ends the session when the close handshake completes;
   * when the handshake throws and retries are left, a new connection follows,
   * keeping what was dispatched.
   */
  lemma FeedEndRetriedOnlyIfCloseFails(
    deserialize: seq<byte> -> JsonResult<BaseMessage>, retries: nat, parts: seq<seq<byte>>, rest: seq<Event>)
    requires parts != []
    requires !Continues(deserialize, Flatten(parts))
    ensures CloseCompletes(rest) ==>
      RetrySession(deserialize, retries, Fragment(parts) + rest) == Session(1, FeedEnded, [Flatten(parts)])
    ensures retries > 0 ==>
      RetrySession(deserialize, retries, Fragment(parts) + [Fail] + rest)
      == Then(1, [Flatten(parts)], RetrySession(deserialize, retries - 1, rest))
  {
    FeedEndClosesConnection(deserialize, parts, rest);
    var events := Fragment(parts) + [Fail] + rest;
    assert events == Fragment(parts) + ([Fail] + rest);
    FeedEndClosesConnection(deserialize, parts, [Fail] + rest);
    assert events[|parts| + 1..] == rest;
  }

  /** Cancellation is not retried: the session ends with the attempt it cancels. */
  lemma CancellationNotRetried(deserialize: seq<byte> -> JsonResult<BaseMessage>, retries: nat, rest: seq<Event>)
    ensures RetrySession(deserialize, retries, [Cancel] + rest) == Session(1, Cancelled, [])
  {
    assert ([Cancel] + rest)[0] == Cancel;
  }

  /** A faulted attempt with retries left is followed by a fresh attempt from the next event. */
  lemma RetryAfterFault(
    deserialize: seq<byte> -> JsonResult<BaseMessage>, retriesLeft: nat, events: seq<Event>, pos: nat, next: nat)
    requires pos <= |events|
    requires Connection(deserialize, events[pos..]).end == Faulted
    requires next == pos + Connection(deserialize, events[pos..]).consumed
    ensures RetrySession(deserialize, retriesLeft + 1, events[pos..])
         == Then(1, Connection(deserialize, events[pos..]).dispatched, RetrySession(deserialize, retriesLeft, events[next..]))
  {
    var a := Connection(deserialize, events[pos..]);
    assert events[pos..][a.consumed..] == events[next..];
  }

  /** The retry loop's invariant carried across one retried attempt, stated with the next state's own terms. */
  lemma RetryStep(
    deserialize: seq<byte> -> JsonResult<BaseMessage>, events: seq<Event>, whole: Session,
    prev: nat, pos: nat, retriesLeft: nat, retriesLeft': nat, done: nat, done': nat,
    sent: seq<seq<byte>>, sent': seq<seq<byte>>)
    requires prev <= |events|
    requires Connection(deserialize, events[prev..]).end == Faulted
    requires pos == prev + Connection(deserialize, events[prev..]).consumed
    requires retriesLeft == retriesLeft' + 1 && done' == done + 1
    requires sent' == sent + Connection(deserialize, events[prev..]).dispatched
    requires whole == Then(done, sent, RetrySession(deserialize, retriesLeft, events[prev..]))
    ensures whole == Then(done', sent', RetrySession(deserialize, retriesLeft', events[pos..]))
  {
    var a := Connection(deserialize, events[prev..]);
    RetryAfterFault(deserialize, retriesLeft', events, prev, pos);
    ThenThen(done, sent, 1, a.dispatched, RetrySession(deserialize, retriesLeft', events[pos..]));
  }

  /** An attempt that is not retried is the last of the session. */
  lemma NoRetry(deserialize: seq<byte> -> JsonResult<BaseMessage>, retriesLeft: nat, events: seq<Event>, pos: nat)
    requires pos <= |events|
    requires Connection(deserialize, events[pos..]).end != Faulted || retriesLeft == 0
    ensures var a := Connection(deserialize, events[pos..]);
      RetrySession(deserialize, retriesLeft, events[pos..]) == Session(1, a.end, a.dispatched)
  {
  }

  const IntMaxValue := 0x7fff_ffff

  /**
   * The retry counts the retry pipeline accepts: `RetryStrategyOptions`
   * declares `MaxRetryAttempts` in the range 1 to `int.MaxValue`, and
   * `Build()` throws a validation exception for any other value, so the
   * worker is never constructed with one.
   */
  predicate RetryCountAccepted(maxRetryAttempts: int)
  {
    1 <= maxRetryAttempts <= IntMaxValue
  }

  /**
   * The configuration validator admits a retry count of 0, for which the
   * worker cannot be built: the host passes validation and then fails at
   * start-up.
   */
  lemma ValidatorAdmitsUnbuildableRetryCount(schemeOf: string -> Option<string>)
    requires schemeOf("ws://h") == Some("ws") && schemeOf("http://h") == Some("http")
    ensures var c := FeedConfig.WageringFeedConfig("id", "ws://h", "http://h", 3, 0);
      FeedConfig.Validate(c, schemeOf) == [] && !RetryCountAccepted(c.maxRetryAttempts)
  {
  }

  class WebSocketWorker {
    const wageringDataRepository: WageringDataRepository
    const messageProcessor: MessageProcessor
    const config: FeedConfig.WageringFeedConfig
    /** The connection target, built once from the configuration. */
    const wsUrl: string

    /** The processor writes to the same store the worker clears and completes; the retry pipeline accepted the retry count. */
    ghost predicate Valid()
    {
      messageProcessor.wageringDataRepository == wageringDataRepository && RetryCountAccepted(config.maxRetryAttempts)
    }

    constructor (
      wageringDataRepository: WageringDataRepository, messageProcessor: MessageProcessor,
      config: FeedConfig.WageringFeedConfig)
      requires messageProcessor.wageringDataRepository == wageringDataRepository
      requires RetryCountAccepted(config.maxRetryAttempts)
      ensures Valid()
      ensures this.wageringDataRepository == wageringDataRepository && this.messageProcessor == messageProcessor
      ensures this.config == config && wsUrl == FeedConfig.GetFullWebSocketUrl(config)
    {
      this.wageringDataRepository := wageringDataRepository;
      this.messageProcessor := messageProcessor;
      this.config := config;
      this.wsUrl := FeedConfig.GetFullWebSocketUrl(config);
    }

    /**
     * The whole session over the event trace (the returned values are only
     * for stating it): the store ends complete and holds exactly the updates
     * of the messages dispatched in all attempts, starting from empty.
     */
    method ExecuteAsync(events: seq<Event>) returns (ghost attempts: nat, ghost end: AttemptEnd)
      requires Valid()
      modifies wageringDataRepository
      ensures var s := RetrySession(messageProcessor.deserialize, config.maxRetryAttempts, events);
        && attempts == s.attempts && end == s.end
        && wageringDataRepository.wageringData == ApplyAll(map[], Contributions(messageProcessor.deserialize, s.dispatched))
      ensures wageringDataRepository.isFeedComplete
    {
      ghost var deserialize := messageProcessor.deserialize;
      wageringDataRepository.Clear();
      var pos := 0;
      var retriesLeft: nat := config.maxRetryAttempts;
      ghost var done: nat := 0;
      ghost var sent: seq<seq<byte>> := [];
      assert events[pos..] == events;
      assert [] + RetrySession(deserialize, retriesLeft, events).dispatched == RetrySession(deserialize, retriesLeft, events).dispatched;
      ghost var whole := RetrySession(deserialize, config.maxRetryAttempts, events);
      while true
        invariant pos <= |events| && retriesLeft <= config.maxRetryAttempts
        invariant whole == Then(done, sent, RetrySession(deserialize, retriesLeft, events[pos..]))
        invariant wageringDataRepository.wageringData == ApplyAll(map[], Contributions(deserialize, sent))
        invariant !wageringDataRepository.isFeedComplete
        decreases |events| - pos
      {
        ghost var a := Connection(deserialize, events[pos..]);
        var outcome, next := ConnectAndProcessAsync(wsUrl, events, pos);
        ProcessedInTurn(map[], deserialize, sent, a.dispatched);
        if outcome == Faulted && retriesLeft > 0 {
          // the pipeline logs the failure, waits, and runs another attempt
          ghost var prev, retries, attemptsBefore, sentBefore := pos, retriesLeft, done, sent;
          retriesLeft, pos := retriesLeft - 1, next;
          done, sent := done + 1, sent + a.dispatched;
          RetryStep(deserialize, events, whole, prev, pos, retries, retriesLeft, attemptsBefore, done, sentBefore, sent);
        } else {
          NoRetry(deserialize, retriesLeft, events, pos);
          attempts, end := done + 1, outcome;
          sent := sent + a.dispatched;
          break;
        }
      }
      // finally
      wageringDataRepository.MarkFeedComplete();
    }

    /**
     * One connection: receive until a Close frame, a fault, cancellation, or
     * a message the processor rejects, reassembling fragmented messages; then,
     * after a Close frame or a rejected message, close the socket.
     */
    method ConnectAndProcessAsync(wsUrl: string, events: seq<Event>, pos: nat) returns (end: AttemptEnd, next: nat)
      requires Valid()
      requires pos <= |events|
      modifies wageringDataRepository
      ensures var c := Connection(messageProcessor.deserialize, events[pos..]);
        && end == c.end && next == pos + c.consumed
        && wageringDataRepository.wageringData
           == ApplyAll(old(wageringDataRepository.wageringData), Contributions(messageProcessor.deserialize, c.dispatched))
      ensures wageringDataRepository.isFeedComplete == old(wageringDataRepository.isFeedComplete)
    {
      ghost var deserialize := messageProcessor.deserialize;
      ghost var start := wageringDataRepository.wageringData;
      ghost var a := Receive(deserialize, events[pos..], []);
      var messageBuffer: seq<byte> := [];
      var i := pos;
      ghost var sent: seq<seq<byte>> := [];
      assert [] + a.dispatched == a.dispatched;
      while true
        invariant pos <= i <= |events|
        invariant a == After(i - pos, sent, Receive(deserialize, events[i..], messageBuffer))
        invariant wageringDataRepository.wageringData == ApplyAll(start, Contributions(deserialize, sent))
        invariant wageringDataRepository.isFeedComplete == old(wageringDataRepository.isFeedComplete)
        decreases |events| - i
      {
        if i == |events| {
          // nothing more arrives before the session deadline cancels the receive
          assert sent + [] == sent;
          return Cancelled, i;
        }
        match events[i] {
          case Close =>
            // leave the receive loop; a partial message is dropped
            ReadStop(deserialize, events, pos, i, sent, messageBuffer, a);
            end, next := CloseAsync(events, i + 1, ServerClosed);
            CloseAt(deserialize, events, pos, i + 1);
            return;
          case Fail =>
            ReadStop(deserialize, events, pos, i, sent, messageBuffer, a);
            return Faulted, i + 1;
          case Cancel =>
            ReadStop(deserialize, events, pos, i, sent, messageBuffer, a);
            return Cancelled, i + 1;
          case Data(bytes, endOfMessage) =>
            ghost var prev, buffer := i, messageBuffer;
            messageBuffer := messageBuffer + bytes;
            i := i + 1;
            if !endOfMessage {
              ReadPartial(deserialize, events, pos, prev, i, sent, buffer, messageBuffer, a);
              continue;
            }
            ghost var message := messageBuffer;
            var shouldContinue := messageProcessor.ProcessMessage(messageBuffer);
            ProcessedOneMore(start, deserialize, sent, message);
            messageBuffer := [];
            if shouldContinue {
              ReadAccepted(deserialize, events, pos, prev, i, sent, buffer, message, a);
              sent := sent + [message];
              continue;
            }
            // the processor said stop: close the socket, and the attempt returns
            ReadRejected(deserialize, events, pos, prev, i, sent, buffer, message, a);
            sent := sent + [message];
            end, next := CloseAsync(events, i, FeedEnded);
            CloseAt(deserialize, events, pos, i);
            return;
        }
      }
    }
  }
}
