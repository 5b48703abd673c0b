/**
 * The message dispatcher: classifies one decoded envelope, applies at most one
 * store update, and says whether the session should keep reading.
 *
 * JSON decoding (System.Text.Json with case-insensitive binding) is not
 * modelled; its outcome is an input of type `JsonResult`.
 */
module Messages {
  import opened Wrappers
  import opened WageringData
  import opened Bytes

  /** What a System.Text.Json call yields: JSON `null`, a thrown exception, or a value. */
  datatype JsonResult<+T> = JsonNull | JsonError | Parsed(value: T)

  /**
   * The envelope's `Type`. A type name the enum converter does not know makes
   * the whole envelope fail to decode (`JsonError`); `Unhandled` is an enum
   * value the switch has no case for.
   */
  datatype MessageType = Fixture | BetPlaced | EndOfFeed | Unhandled(ordinal: int)

  datatype BetPlacedPayload = BetPlacedPayload(
    customerId: int, fixtureId: int, outcomeKey: string, odds: real, stake: real)

  /**
   * The envelope's `Payload` (a `JsonElement`), seen through the two things the
   * processor does with it: `GetProperty("CustomerId")`, which is case-sensitive
   * and throws unless the payload is an object with exactly that key, and
   * `Deserialize<BetPlacedPayload>`.
   */
  datatype JsonPayload = JsonPayload(hasCustomerIdProperty: bool, asBetPlaced: JsonResult<BetPlacedPayload>)

  datatype BaseMessage = BaseMessage(messageType: MessageType, payload: JsonPayload, timestamp: int)

  /** The result of processing one message: keep reading?, and the store update made. */
  datatype Decision = Decision(shouldContinue: bool, contribution: Option<Contribution>)

  /** Stand-to-win is the payout less the stake: the profit if the bet wins. */
  function CalculateStandToWin(stake: real, odds: real): (standToWin: real)
    ensures standToWin + stake == stake * odds
    ensures stake >= 0.0 && odds >= 1.0 ==> standToWin >= 0.0
  {
    var payout := stake * odds;
    payout - stake
  }

  /** The cases the repository's tests check. */
  lemma StandToWinExamples()
    ensures CalculateStandToWin(10.0, 2.0) == 10.0
    ensures CalculateStandToWin(100.0, 1.5) == 50.0
    ensures CalculateStandToWin(50.0, 3.0) == 100.0
    ensures CalculateStandToWin(25.0, 1.0) == 0.0
  {
  }

  /** The store update `HandleBetPlaced` makes for a payload, if any. */
  function BetContribution(payload: JsonPayload): (r: Option<Contribution>)
    ensures r.Some? <==> payload.asBetPlaced.Parsed?
    ensures r.Some? ==>
      var bet := payload.asBetPlaced.value;
      r.value == Contribution(bet.customerId, CalculateStandToWin(bet.stake, bet.odds))
  {
    match payload.asBetPlaced
    case Parsed(bet) => Some(Contribution(bet.customerId, CalculateStandToWin(bet.stake, bet.odds)))
    case _ => None
  }

  /**
   * What `ProcessMessage` does with a decoded envelope. Every failure is
   * swallowed: only an EndOfFeed envelope stops the session, and only a
   * BetPlaced envelope whose payload has an exact-case `CustomerId` key and
   * decodes to a bet updates the store.
   */
  function Dispatch(message: JsonResult<BaseMessage>): (d: Decision)
    ensures !d.shouldContinue <==> message.Parsed? && message.value.messageType == EndOfFeed
    ensures d.contribution.Some? <==>
      && message.Parsed?
      && message.value.messageType == BetPlaced
      && message.value.payload.hasCustomerIdProperty
      && message.value.payload.asBetPlaced.Parsed?
    ensures d.contribution.Some? ==>
      var bet := message.value.payload.asBetPlaced.value;
      d.contribution.value == Contribution(bet.customerId, CalculateStandToWin(bet.stake, bet.odds))
  {
    match message
    case JsonNull => Decision(true, None)
    case JsonError => Decision(true, None)
    case Parsed(m) =>
      match m.messageType
      case Fixture => Decision(true, None)
      case EndOfFeed => Decision(false, None)
      case BetPlaced =>
        if m.payload.hasCustomerIdProperty then Decision(true, BetContribution(m.payload))
        else Decision(true, None)
      case Unhandled(_) => Decision(true, None)
  }

  function AsSeq(o: Option<Contribution>): seq<Contribution>
  {
    if o.Some? then [o.value] else []
  }

  /** The store updates made by processing `messages` in order. */
  function Contributions(deserialize: seq<byte> -> JsonResult<BaseMessage>, messages: seq<seq<byte>>): seq<Contribution>
  {
    if messages == [] then []
    else
      var n := |messages| - 1;
      Contributions(deserialize, messages[..n]) + AsSeq(Dispatch(deserialize(messages[n])).contribution)
  }

  lemma {:induction false} ContributionsAppend(
    deserialize: seq<byte> -> JsonResult<BaseMessage>, a: seq<seq<byte>>, b: seq<seq<byte>>)
    ensures Contributions(deserialize, a + b) == Contributions(deserialize, a) + Contributions(deserialize, b)
  {
    if b == [] {
      assert a + b == a;
    } else {
      var n := |b| - 1;
      assert (a + b)[..|a + b| - 1] == a + b[..n];
      ContributionsAppend(deserialize, a, b[..n]);
    }
  }

  lemma {:induction false} ApplyAllAppend(m: map<int, real>, a: seq<Contribution>, b: seq<Contribution>)
    ensures ApplyAll(m, a + b) == ApplyAll(ApplyAll(m, a), b)
  {
    if b == [] {
      assert a + b == a;
    } else {
      var n := |b| - 1;
      assert (a + b)[..|a + b| - 1] == a + b[..n];
      ApplyAllAppend(m, a, b[..n]);
    }
  }

  /** Processing one more message applies its update on top of the updates of the earlier ones. */
  lemma ProcessedOneMore(
    m: map<int, real>, deserialize: seq<byte> -> JsonResult<BaseMessage>, sent: seq<seq<byte>>, message: seq<byte>)
    ensures ApplyAll(ApplyAll(m, Contributions(deserialize, sent)), AsSeq(Dispatch(deserialize(message)).contribution))
         == ApplyAll(m, Contributions(deserialize, sent + [message]))
  {
    assert (sent + [message])[..|sent|] == sent;
    ApplyAllAppend(m, Contributions(deserialize, sent), AsSeq(Dispatch(deserialize(message)).contribution));
  }

  /** Processing `a` and then `b` leaves the store as processing `a + b` does. */
  lemma ProcessedInTurn(
    m: map<int, real>, deserialize: seq<byte> -> JsonResult<BaseMessage>, a: seq<seq<byte>>, b: seq<seq<byte>>)
    ensures ApplyAll(ApplyAll(m, Contributions(deserialize, a)), Contributions(deserialize, b))
         == ApplyAll(m, Contributions(deserialize, a + b))
  {
    ContributionsAppend(deserialize, a, b);
    ApplyAllAppend(m, Contributions(deserialize, a), Contributions(deserialize, b));
  }

  /** A decoded BetPlaced envelope as the repository's tests build it. */
  function BetPlacedMessage(customerId: int, stake: real, odds: real): JsonResult<BaseMessage>
  {
    Parsed(BaseMessage(BetPlaced, JsonPayload(true, Parsed(BetPlacedPayload(customerId, 1, "0a4dc8f", odds, stake))), 0))
  }

  /** A bet of 10 at odds 2.5 adds 15 to customer 123's total and the session reads on. */
  lemma BetPlacedAddsStandToWin()
    ensures Dispatch(BetPlacedMessage(123, 10.0, 2.5)) == Decision(true, Some(Contribution(123, 15.0)))
  {
  }

  /** Bets for different customers update separate totals. */
  lemma DifferentCustomersTrackedIndependently()
    ensures
      var cs := AsSeq(Dispatch(BetPlacedMessage(1, 10.0, 2.0)).contribution)
              + AsSeq(Dispatch(BetPlacedMessage(2, 20.0, 3.0)).contribution);
      Lookup(ApplyAll(map[], cs), 1) == Some(10.0) && Lookup(ApplyAll(map[], cs), 2) == Some(40.0)
  {
    var one, two := Contribution(1, 10.0), Contribution(2, 40.0);
    assert AsSeq(Dispatch(BetPlacedMessage(1, 10.0, 2.0)).contribution) == [one];
    assert AsSeq(Dispatch(BetPlacedMessage(2, 20.0, 3.0)).contribution) == [two];
    var cs := [one, two];
    assert cs[..1] == [one] && cs[..1][..0] == [];
    assert ApplyAll(map[], [one]) == map[1 := 10.0];
    assert ApplyAll(map[], cs) == map[1 := 10.0, 2 := 40.0];
  }

  /** Three bets for customer 1 that each stand to win 10 leave a total of 30. */
  lemma ThreeBetsScenario()
    ensures
      var cs := AsSeq(Dispatch(BetPlacedMessage(1, 10.0, 2.0)).contribution)
              + AsSeq(Dispatch(BetPlacedMessage(1, 20.0, 1.5)).contribution)
              + AsSeq(Dispatch(BetPlacedMessage(1, 5.0, 3.0)).contribution);
      Lookup(ApplyAll(map[], cs), 1) == Some(30.0)
  {
    var ten := Contribution(1, 10.0);
    assert AsSeq(Dispatch(BetPlacedMessage(1, 10.0, 2.0)).contribution) == [ten];
    assert AsSeq(Dispatch(BetPlacedMessage(1, 20.0, 1.5)).contribution) == [ten];
    assert AsSeq(Dispatch(BetPlacedMessage(1, 5.0, 3.0)).contribution) == [ten];
    var cs := [ten, ten, ten];
    assert cs[..2] == [ten, ten] && cs[..2][..1] == [ten] && cs[..2][..1][..0] == [];
    assert ApplyAll(map[], [ten]) == map[1 := 10.0];
    assert ApplyAll(map[], [ten, ten]) == map[1 := 20.0];
    assert ApplyAll(map[], cs) == map[1 := 30.0];
  }

  /** `MessageProcessor`, holding the injected repository and the JSON decoder it uses. */
  class MessageProcessor {
    const wageringDataRepository: WageringDataRepository
    const deserialize: seq<byte> -> JsonResult<BaseMessage>

    constructor (wageringDataRepository: WageringDataRepository, deserialize: seq<byte> -> JsonResult<BaseMessage>)
      ensures this.wageringDataRepository == wageringDataRepository
      ensures this.deserialize == deserialize
    {
      this.wageringDataRepository := wageringDataRepository;
      this.deserialize := deserialize;
    }

    /** Decodes and dispatches one complete message; never fails. */
    method ProcessMessage(jsonBytes: seq<byte>) returns (shouldContinue: bool)
      modifies wageringDataRepository
      ensures shouldContinue == Dispatch(deserialize(jsonBytes)).shouldContinue
      ensures wageringDataRepository.wageringData ==
        ApplyAll(old(wageringDataRepository.wageringData), AsSeq(Dispatch(deserialize(jsonBytes)).contribution))
      ensures wageringDataRepository.isFeedComplete == old(wageringDataRepository.isFeedComplete)
    {
      var message := deserialize(jsonBytes);
      match message {
        case JsonError =>
          // the exception is caught and logged
        case JsonNull =>
          return true;
        case Parsed(m) =>
          match m.messageType {
            case Fixture =>
              return true;
            case EndOfFeed =>
              return false;
            case BetPlaced =>
              if !m.payload.hasCustomerIdProperty {
                // GetProperty("CustomerId") for the log line throws; caught and logged
              } else {
                HandleBetPlaced(m.payload);
              }
            case Unhandled(_) =>
              // logged as unsupported
          }
      }
      return true;
    }

    /** Decodes the bet and adds its stand-to-win to the customer's total. */
    method HandleBetPlaced(payload: JsonPayload)
      modifies wageringDataRepository
      ensures wageringDataRepository.wageringData ==
        ApplyAll(old(wageringDataRepository.wageringData), AsSeq(BetContribution(payload)))
      ensures wageringDataRepository.isFeedComplete == old(wageringDataRepository.isFeedComplete)
    {
      match payload.asBetPlaced {
        case JsonError =>
          // the exception reaches ProcessMessage's catch
        case JsonNull =>
        case Parsed(betPayload) =>
          var standToWin := CalculateStandToWin(betPayload.stake, betPayload.odds);
          wageringDataRepository.AddPotentialWinning(betPayload.customerId, standToWin);
          assert [Contribution(betPayload.customerId, standToWin)][..0] == [];
      }
    }
  }
}
