/**
 * What one WebSocket connection delivers, and how the workers rebuild whole
 * messages from it. The socket is replaced by a trace of receive events; a
 * `Data` event is one `ReceiveAsync` result (at most one 4096-byte chunk,
 * possibly one fragment of a message split as in section 5.4 of RFC 6455).
 * Running out of events stands for the session deadline firing.
 */
module FeedSession {
  import opened Bytes
  import opened Messages

  datatype Event =
    | Data(bytes: seq<byte>, endOfMessage: bool)  // a Text or Binary receive result
    | Close                                        // a Close frame from the server
    | Fail                                         // ConnectAsync, ReceiveAsync or CloseAsync throws
    | Cancel                                       // the session token fires

  /** How one connection attempt ends. */
  datatype AttemptEnd =
    | ServerClosed  // Close frame, and CloseAsync completed: the attempt returns normally
    | FeedEnded     // the processor said stop, and CloseAsync completed: the attempt returns normally
    | Faulted       // an exception other than cancellation
    | Cancelled     // OperationCanceledException

  /** The end of an attempt, how many events it read, and the messages it handed to the processor. */
  datatype Attempt = Attempt(end: AttemptEnd, consumed: nat, dispatched: seq<seq<byte>>)

  /** A whole session: how many connection attempts it made, how the last one ended, and every message dispatched. */
  datatype Session = Session(attempts: nat, end: AttemptEnd, dispatched: seq<seq<byte>>)

  /** `s`, preceded by `n` attempts that dispatched `dispatched`. */
  function Then(n: nat, dispatched: seq<seq<byte>>, s: Session): Session
  {
    Session(n + s.attempts, s.end, dispatched + s.dispatched)
  }

  lemma ThenThen(n: nat, x: seq<seq<byte>>, m: nat, y: seq<seq<byte>>, s: Session)
    ensures Then(n, x, Then(m, y, s)) == Then(n + m, x + y, s)
  {
    assert x + (y + s.dispatched) == (x + y) + s.dispatched;
  }

  predicate Continues(deserialize: seq<byte> -> JsonResult<BaseMessage>, message: seq<byte>)
  {
    Dispatch(deserialize(message)).shouldContinue
  }

  /** `r`, preceded by `n` events that handed `dispatched` to the processor. */
  function After(n: nat, dispatched: seq<seq<byte>>, r: Attempt): Attempt
  {
    Attempt(r.end, n + r.consumed, dispatched + r.dispatched)
  }

  /**
   * The receive loop of one connection, with `buffer` the bytes accumulated
   * since the last dispatch. A chunk is appended to the buffer; on an
   * end-of-message chunk the whole buffer goes to the processor once and the
   * buffer is emptied; a Close frame ends the attempt and drops any partial
   * message; the first message the processor rejects ends the attempt with
   * nothing more read.
   */
  function Receive(deserialize: seq<byte> -> JsonResult<BaseMessage>, events: seq<Event>, buffer: seq<byte>): (r: Attempt)
    ensures r.consumed <= |events|
    ensures r.end != Cancelled ==> 1 <= r.consumed
    decreases |events|
  {
    if events == [] then Attempt(Cancelled, 0, [])
    else
      match events[0]
      case Close => Attempt(ServerClosed, 1, [])
      case Fail => Attempt(Faulted, 1, [])
      case Cancel => Attempt(Cancelled, 1, [])
      case Data(bytes, endOfMessage) =>
        var message := buffer + bytes;
        if !endOfMessage then After(1, [], Receive(deserialize, events[1..], message))
        else if Continues(deserialize, message) then After(1, [message], Receive(deserialize, events[1..], []))
        else Attempt(FeedEnded, 1, [message])
  }

  /**
   * Every message handed to the processor but the last was accepted, and the
   * attempt ends because the feed ended exactly when the last one was rejected.
   */
  lemma {:induction false} StopsAtFirstRejected(
    deserialize: seq<byte> -> JsonResult<BaseMessage>, events: seq<Event>, buffer: seq<byte>)
    ensures var r := Receive(deserialize, events, buffer);
      && (forall k :: 0 <= k < |r.dispatched| - 1 ==> Continues(deserialize, r.dispatched[k]))
      && (r.end == FeedEnded <==> r.dispatched != [] && !Continues(deserialize, r.dispatched[|r.dispatched| - 1]))
    decreases |events|
  {
    if events != [] && events[0].Data? {
      var message := buffer + events[0].bytes;
      if !events[0].endOfMessage {
        StopsAtFirstRejected(deserialize, events[1..], message);
      } else if Continues(deserialize, message) {
        var r' := Receive(deserialize, events[1..], []);
        StopsAtFirstRejected(deserialize, events[1..], []);
        assert forall k :: 1 <= k < |r'.dispatched| + 1 ==> ([message] + r'.dispatched)[k] == r'.dispatched[k - 1];
      }
    }
  }

  /** The event at `i` is a Close, a fault or a cancellation: the attempt ends on it. */
  lemma StopAt(deserialize: seq<byte> -> JsonResult<BaseMessage>, events: seq<Event>, i: nat, buffer: seq<byte>)
    requires i < |events| && !events[i].Data?
    ensures Receive(deserialize, events[i..], buffer)
         == Attempt(match events[i] case Close => ServerClosed case Fail => Faulted case _ => Cancelled, 1, [])
  {
    assert events[i..][0] == events[i];
  }

  /** The event at `i` is a chunk that does not end a message: it is only appended to the buffer. */
  lemma PartialChunkAt(deserialize: seq<byte> -> JsonResult<BaseMessage>, events: seq<Event>, i: nat, buffer: seq<byte>)
    requires i < |events| && events[i].Data? && !events[i].endOfMessage
    ensures Receive(deserialize, events[i..], buffer)
         == After(1, [], Receive(deserialize, events[i + 1..], buffer + events[i].bytes))
  {
    assert events[i..][0] == events[i] && events[i..][1..] == events[i + 1..];
  }

  /**
   * The event at `i` is a chunk that ends a message: the buffer with it goes
   * to the processor, and reading goes on with an empty buffer only if the
   * processor accepts it.
   */
  lemma FinalChunkAt(deserialize: seq<byte> -> JsonResult<BaseMessage>, events: seq<Event>, i: nat, buffer: seq<byte>)
    requires i < |events| && events[i].Data? && events[i].endOfMessage
    ensures var message := buffer + events[i].bytes;
      Continues(deserialize, message) ==>
        Receive(deserialize, events[i..], buffer) == After(1, [message], Receive(deserialize, events[i + 1..], []))
    ensures var message := buffer + events[i].bytes;
      !Continues(deserialize, message) ==> Receive(deserialize, events[i..], buffer) == Attempt(FeedEnded, 1, [message])
  {
    assert events[i..][0] == events[i] && events[i..][1..] == events[i + 1..];
  }

  /*
   * The receive loop's state, read from position `pos`: `i` is the next
   * event, `sent` what was handed to the processor, `buffer` the bytes of the
   * message being assembled. The three lemmas below carry the loop's
   * invariant `a == After(i - pos, sent, Receive(deserialize, events[i..], buffer))`
   * across one chunk, stated with the next state's own terms.
   */

  /** A chunk that does not end a message: the loop reads on with the longer buffer. */
  lemma ReadPartial(
    deserialize: seq<byte> -> JsonResult<BaseMessage>, events: seq<Event>, pos: nat, prev: nat, i: nat,
    sent: seq<seq<byte>>, buffer: seq<byte>, buffer': seq<byte>, a: Attempt)
    requires pos <= prev < |events| && i == prev + 1
    requires events[prev].Data? && !events[prev].endOfMessage && buffer' == buffer + events[prev].bytes
    requires a == After(prev - pos, sent, Receive(deserialize, events[prev..], buffer))
    ensures a == After(i - pos, sent, Receive(deserialize, events[i..], buffer'))
  {
    PartialChunkAt(deserialize, events, prev, buffer);
    AfterAfter(prev - pos, sent, 1, [], Receive(deserialize, events[i..], buffer'));
    assert sent + [] == sent;
  }

  /** A chunk that ends a message the processor accepts: the loop reads on with an empty buffer. */
  lemma ReadAccepted(
    deserialize: seq<byte> -> JsonResult<BaseMessage>, events: seq<Event>, pos: nat, prev: nat, i: nat,
    sent: seq<seq<byte>>, buffer: seq<byte>, message: seq<byte>, a: Attempt)
    requires pos <= prev < |events| && i == prev + 1
    requires events[prev].Data? && events[prev].endOfMessage && message == buffer + events[prev].bytes
    requires Continues(deserialize, message)
    requires a == After(prev - pos, sent, Receive(deserialize, events[prev..], buffer))
    ensures a == After(i - pos, sent + [message], Receive(deserialize, events[i..], []))
  {
    FinalChunkAt(deserialize, events, prev, buffer);
    AfterAfter(prev - pos, sent, 1, [message], Receive(deserialize, events[i..], []));
  }

  /** A chunk that ends a message the processor rejects: the attempt ends here. */
  lemma ReadRejected(
    deserialize: seq<byte> -> JsonResult<BaseMessage>, events: seq<Event>, pos: nat, prev: nat, i: nat,
    sent: seq<seq<byte>>, buffer: seq<byte>, message: seq<byte>, a: Attempt)
    requires pos <= prev < |events| && i == prev + 1
    requires events[prev].Data? && events[prev].endOfMessage && message == buffer + events[prev].bytes
    requires !Continues(deserialize, message)
    requires a == After(prev - pos, sent, Receive(deserialize, events[prev..], buffer))
    ensures a == Attempt(FeedEnded, i - pos, sent + [message])
  {
    FinalChunkAt(deserialize, events, prev, buffer);
  }

  /** A Close frame, a fault or a cancellation: the attempt ends here, dropping any partial message. */
  lemma ReadStop(
    deserialize: seq<byte> -> JsonResult<BaseMessage>, events: seq<Event>, pos: nat, i: nat,
    sent: seq<seq<byte>>, buffer: seq<byte>, a: Attempt)
    requires pos <= i < |events| && !events[i].Data?
    requires a == After(i - pos, sent, Receive(deserialize, events[i..], buffer))
    ensures a.end == (match events[i] case Close => ServerClosed case Fail => Faulted case _ => Cancelled)
    ensures a.consumed == i + 1 - pos && a.dispatched == sent
  {
    StopAt(deserialize, events, i, buffer);
    assert sent + [] == sent;
  }

  /** The number of end-of-message chunks among `events`. */
  function CountEndOfMessage(events: seq<Event>): nat
  {
    if events == [] then 0
    else (if events[0].Data? && events[0].endOfMessage then 1 else 0) + CountEndOfMessage(events[1..])
  }

  /** The processor is called exactly once per end-of-message chunk read, and at no other time. */
  lemma {:induction false} DispatchCount(deserialize: seq<byte> -> JsonResult<BaseMessage>, events: seq<Event>, buffer: seq<byte>)
    ensures var r := Receive(deserialize, events, buffer);
      |r.dispatched| == CountEndOfMessage(events[..r.consumed])
    decreases |events|
  {
    var r := Receive(deserialize, events, buffer);
    if events != [] {
      assert events[..r.consumed][0] == events[0];
      match events[0]
      case Data(bytes, endOfMessage) =>
        var message := buffer + bytes;
        var next := if endOfMessage then [] else message;
        if !endOfMessage || Continues(deserialize, message) {
          var r' := Receive(deserialize, events[1..], next);
          DispatchCount(deserialize, events[1..], next);
          assert events[..r.consumed][1..] == events[1..][..r'.consumed];
        } else {
          assert events[..r.consumed][1..] == [];
        }
      case _ =>
        assert events[..r.consumed][1..] == [];
    }
  }

  /** The bytes of a message, given as the fragments it was sent in. */
  function Flatten(parts: seq<seq<byte>>): seq<byte>
  {
    if parts == [] then [] else parts[0] + Flatten(parts[1..])
  }

  /** The receive results for a message sent in the fragments `parts`: only the last one ends the message. */
  function Fragment(parts: seq<seq<byte>>): (events: seq<Event>)
    requires parts != []
    ensures |events| == |parts|
  {
    if |parts| == 1 then [Data(parts[0], true)]
    else [Data(parts[0], false)] + Fragment(parts[1..])
  }

  /** Chunks that do not end a message. */
  function Unfinished(parts: seq<seq<byte>>): (events: seq<Event>)
    ensures |events| == |parts|
  {
    if parts == [] then [] else [Data(parts[0], false)] + Unfinished(parts[1..])
  }

  /** A stream of messages, each sent in one or more fragments. */
  function Encode(messages: seq<seq<seq<byte>>>): seq<Event>
    requires forall i :: 0 <= i < |messages| ==> messages[i] != []
  {
    if messages == [] then [] else Fragment(messages[0]) + Encode(messages[1..])
  }

  function Reassembled(messages: seq<seq<seq<byte>>>): seq<seq<byte>>
  {
    if messages == [] then [] else [Flatten(messages[0])] + Reassembled(messages[1..])
  }

  lemma AfterAfter(a: nat, x: seq<seq<byte>>, b: nat, y: seq<seq<byte>>, r: Attempt)
    ensures After(a, x, After(b, y, r)) == After(a + b, x + y, r)
  {
    assert x + (y + r.dispatched) == (x + y) + r.dispatched;
  }

  /** A chunk that does not end a message is appended to the buffer, and reading goes on. */
  lemma PartialChunk(deserialize: seq<byte> -> JsonResult<BaseMessage>, bytes: seq<byte>, tail: seq<Event>, buffer: seq<byte>)
    ensures Receive(deserialize, [Data(bytes, false)] + tail, buffer) == After(1, [], Receive(deserialize, tail, buffer + bytes))
  {
    var events := [Data(bytes, false)] + tail;
    assert events[0] == Data(bytes, false) && events[1..] == tail;
  }

  /** Non-final chunks only grow the buffer: nothing is handed to the processor. */
  lemma {:induction false} ReceiveUnfinished(
    deserialize: seq<byte> -> JsonResult<BaseMessage>, parts: seq<seq<byte>>, buffer: seq<byte>, rest: seq<Event>)
    ensures Receive(deserialize, Unfinished(parts) + rest, buffer)
         == After(|parts|, [], Receive(deserialize, rest, buffer + Flatten(parts)))
    decreases |parts|
  {
    if parts == [] {
      assert Unfinished(parts) + rest == rest;
      assert buffer + Flatten(parts) == buffer;
    } else {
      var tail := Unfinished(parts[1..]) + rest;
      assert Unfinished(parts) + rest == [Data(parts[0], false)] + tail;
      PartialChunk(deserialize, parts[0], tail, buffer);
      ReceiveUnfinished(deserialize, parts[1..], buffer + parts[0], rest);
      assert buffer + parts[0] + Flatten(parts[1..]) == buffer + Flatten(parts);
      AfterAfter(1, [], |parts| - 1, [], Receive(deserialize, rest, buffer + Flatten(parts)));
    }
  }

  /** A message sent in fragments reaches the processor once, as the concatenation of its fragments. */
  lemma {:induction false} ReceiveFragmented(
    deserialize: seq<byte> -> JsonResult<BaseMessage>, parts: seq<seq<byte>>, buffer: seq<byte>, rest: seq<Event>)
    requires parts != []
    ensures Continues(deserialize, buffer + Flatten(parts)) ==>
      Receive(deserialize, Fragment(parts) + rest, buffer)
        == After(|parts|, [buffer + Flatten(parts)], Receive(deserialize, rest, []))
    ensures !Continues(deserialize, buffer + Flatten(parts)) ==>
      Receive(deserialize, Fragment(parts) + rest, buffer) == Attempt(FeedEnded, |parts|, [buffer + Flatten(parts)])
    decreases |parts|
  {
    var events := Fragment(parts) + rest;
    if |parts| == 1 {
      assert events[0] == Data(parts[0], true);
      assert events[1..] == rest;
      assert Flatten(parts) == parts[0] by { assert parts[1..] == []; }
    } else {
      assert events[0] == Data(parts[0], false);
      assert events[1..] == Fragment(parts[1..]) + rest;
      ReceiveFragmented(deserialize, parts[1..], buffer + parts[0], rest);
      assert buffer + parts[0] + Flatten(parts[1..]) == buffer + Flatten(parts);
      AfterAfter(1, [], |parts| - 1, [buffer + Flatten(parts)], Receive(deserialize, rest, []));
    }
  }

  /** A stream of fragmented messages that all continue is rebuilt message by message. */
  lemma {:induction false} ReceiveEncoded(
    deserialize: seq<byte> -> JsonResult<BaseMessage>, messages: seq<seq<seq<byte>>>, rest: seq<Event>)
    requires forall i :: 0 <= i < |messages| ==> messages[i] != []
    requires forall i :: 0 <= i < |messages| ==> Continues(deserialize, Flatten(messages[i]))
    ensures Receive(deserialize, Encode(messages) + rest, [])
         == After(|Encode(messages)|, Reassembled(messages), Receive(deserialize, rest, []))
    decreases |messages|
  {
    if messages == [] {
      assert Encode(messages) + rest == rest;
    } else {
      var tail := Encode(messages[1..]) + rest;
      assert Encode(messages) + rest == Fragment(messages[0]) + tail;
      assert [] + Flatten(messages[0]) == Flatten(messages[0]);
      ReceiveFragmented(deserialize, messages[0], [], tail);
      ReceiveEncoded(deserialize, messages[1..], rest);
      AfterAfter(|messages[0]|, [Flatten(messages[0])], |Encode(messages[1..])|, Reassembled(messages[1..]),
        Receive(deserialize, rest, []));
    }
  }

  /**
   * Reassembly round trip: messages fragmented in any way and followed by a
   * Close frame reach the processor exactly as they were sent, one call each;
   * a message still incomplete when the Close frame arrives is dropped.
   */
  lemma ReassemblyRoundTrip(
    deserialize: seq<byte> -> JsonResult<BaseMessage>, messages: seq<seq<seq<byte>>>, partial: seq<seq<byte>>)
    requires forall i :: 0 <= i < |messages| ==> messages[i] != []
    requires forall i :: 0 <= i < |messages| ==> Continues(deserialize, Flatten(messages[i]))
    ensures Receive(deserialize, Encode(messages) + Unfinished(partial) + [Close], [])
         == Attempt(ServerClosed, |Encode(messages)| + |partial| + 1, Reassembled(messages))
  {
    ReceiveEncoded(deserialize, messages, Unfinished(partial) + [Close]);
    assert Encode(messages) + Unfinished(partial) + [Close] == Encode(messages) + (Unfinished(partial) + [Close]);
    ReceiveUnfinished(deserialize, partial, [], [Close]);
    assert Reassembled(messages) + [] + [] == Reassembled(messages);
  }

  /** When the processor rejects a message, the events after it are never read. */
  lemma StopIgnoresRest(
    deserialize: seq<byte> -> JsonResult<BaseMessage>, parts: seq<seq<byte>>, rest: seq<Event>)
    requires parts != []
    requires !Continues(deserialize, Flatten(parts))
    ensures Receive(deserialize, Fragment(parts) + rest, []) == Attempt(FeedEnded, |parts|, [Flatten(parts)])
  {
    ReceiveFragmented(deserialize, parts, [], rest);
    assert [] + Flatten(parts) == Flatten(parts);
  }

  /**
   * Whether the `CloseAsync` handshake completes when `rest` follows it: like
   * every socket call it throws when the next event is a fault, and is
   * cancelled when the next event is the session token firing.
   */
  predicate CloseCompletes(rest: seq<Event>)
  {
    rest == [] || rest[0].Data? || rest[0].Close?
  }

  /**
   * One connection attempt: the receive loop, then, when the loop stopped on
   * a Close frame or a rejected message, the `CloseAsync` handshake. A
   * handshake that completes reads nothing more; one that throws or is
   * cancelled reads the event that says so and decides how the attempt ends.
   */
  function Connection(deserialize: seq<byte> -> JsonResult<BaseMessage>, events: seq<Event>): (a: Attempt)
    ensures a.dispatched == Receive(deserialize, events, []).dispatched
    ensures a.consumed <= |events|
  {
    var r := Receive(deserialize, events, []);
    var rest := events[r.consumed..];
    if (r.end == ServerClosed || r.end == FeedEnded) && !CloseCompletes(rest) then
      Attempt(if rest[0].Fail? then Faulted else Cancelled, r.consumed + 1, r.dispatched)
    else
      r
  }

  /**
   * `CloseAsync` at event `k`, once the receive loop has stopped with
   * `stopped`: the attempt keeps that end if the handshake completes, and
   * otherwise ends as the fault or cancellation the handshake raised.
   */
  method CloseAsync(events: seq<Event>, k: nat, stopped: AttemptEnd) returns (end: AttemptEnd, next: nat)
    requires k <= |events|
    ensures CloseCompletes(events[k..]) ==> end == stopped && next == k
    ensures !CloseCompletes(events[k..]) ==> next == k + 1 && end == (if events[k].Fail? then Faulted else Cancelled)
  {
    if k < |events| && events[k].Fail? {
      return Faulted, k + 1;
    }
    if k < |events| && events[k].Cancel? {
      return Cancelled, k + 1;
    }
    return stopped, k;
  }

  /** The attempt that starts at `pos` and whose receive loop stopped normally before event `k`. */
  lemma CloseAt(deserialize: seq<byte> -> JsonResult<BaseMessage>, events: seq<Event>, pos: nat, k: nat)
    requires pos <= k <= |events|
    requires Receive(deserialize, events[pos..], []).end in {ServerClosed, FeedEnded}
    requires k == pos + Receive(deserialize, events[pos..], []).consumed
    ensures var r, c := Receive(deserialize, events[pos..], []), Connection(deserialize, events[pos..]);
      && (CloseCompletes(events[k..]) ==> c.end == r.end && pos + c.consumed == k)
      && (!CloseCompletes(events[k..]) ==>
            c.end == (if events[k].Fail? then Faulted else Cancelled) && pos + c.consumed == k + 1)
  {
    var r := Receive(deserialize, events[pos..], []);
    assert events[pos..][r.consumed..] == events[k..];
  }

  /** A Close frame whose handshake completes ends the attempt normally, having read only the frame. */
  lemma CloseFrameCompletes(deserialize: seq<byte> -> JsonResult<BaseMessage>, rest: seq<Event>)
    requires CloseCompletes(rest)
    ensures Connection(deserialize, [Close] + rest) == Attempt(ServerClosed, 1, [])
  {
    assert ([Close] + rest)[0] == Close && ([Close] + rest)[1..] == rest;
  }

  /** A connection that throws before any frame arrives is a fault that read one event and dispatched nothing. */
  lemma ConnectFails(deserialize: seq<byte> -> JsonResult<BaseMessage>, rest: seq<Event>)
    ensures Connection(deserialize, [Fail] + rest) == Attempt(Faulted, 1, [])
  {
    assert ([Fail] + rest)[0] == Fail;
  }

  /** A Close frame whose handshake throws makes the attempt a fault. */
  lemma CloseHandshakeFails(deserialize: seq<byte> -> JsonResult<BaseMessage>, rest: seq<Event>)
    ensures Connection(deserialize, [Close, Fail] + rest) == Attempt(Faulted, 2, [])
  {
    assert ([Close, Fail] + rest)[0] == Close && ([Close, Fail] + rest)[1..] == [Fail] + rest;
  }

  /**
   * A message the processor rejects ends the attempt once the handshake is
   * done: normally when it completes, as a fault or cancellation when not.
   * The rejected message has been dispatched either way.
   */
  lemma FeedEndClosesConnection(
    deserialize: seq<byte> -> JsonResult<BaseMessage>, parts: seq<seq<byte>>, rest: seq<Event>)
    requires parts != []
    requires !Continues(deserialize, Flatten(parts))
    ensures CloseCompletes(rest) ==>
      Connection(deserialize, Fragment(parts) + rest) == Attempt(FeedEnded, |parts|, [Flatten(parts)])
    ensures !CloseCompletes(rest) ==>
      Connection(deserialize, Fragment(parts) + rest)
      == Attempt(if rest[0].Fail? then Faulted else Cancelled, |parts| + 1, [Flatten(parts)])
  {
    StopIgnoresRest(deserialize, parts, rest);
    assert (Fragment(parts) + rest)[|parts|..] == rest;
  }
}
