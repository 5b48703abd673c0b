# Wagering feed consumer — a Dafny model

This project models the core of a wagering feed consumer in Dafny. The service
connects to a WebSocket feed of betting events and reassembles each message from
its frames. It keeps a running "stand to win" total per customer, which is the
profit a customer makes if all their bets win. It serves those totals over an
HTTP endpoint. The repository holds two generations of the service, and both
are modelled:

- the feed consumer, at the repository root:
  - a worker that reconnects with no bound;
  - a configuration class with a hand-written `Validate`;
  - the `CustomerController`;
- the stats API, under `src/`:
  - a worker that retries through a bounded retry policy;
  - FluentValidation rules;
  - the message processor, the wagering store and the customer cache.

| file | module | models |
|---|---|---|
| common.dfy | `Wrappers`, `Bytes` | `Option`; octets |
| wagering_data.dfy | `WageringData` | the per-customer store (`WageringDataRepository`) as a class over a `map<int, real>` and a completion flag; the spec functions `Upsert`, `Lookup`, `ApplyAll`, `SumFor` |
| message_processor.dfy | `Messages` | `MessageProcessor.ProcessMessage` and `HandleBetPlaced` as methods; `Dispatch` as the function they are proved against |
| feed_session.dfy | `FeedSession` | the socket as a trace of receive events; `Receive`, the reference behaviour of one connection's receive-and-reassemble loop |
| retrying_worker.dfy | `RetryingWorker` | the stats API's `WebSocketWorker`: `ExecuteAsync` with its retry loop and `ConnectAndProcessAsync` |
| reconnecting_worker.dfy | `ReconnectingWorker` | the feed consumer's `WebSocketWorker`: the reconnect loop and its inner receive loop |
| customer_repository.dfy | `Customers` | `CustomerRepository`, a first-write-wins cache |
| uri_text.dfy | `UriText` | `string.IsNullOrWhiteSpace`, `Uri.EscapeDataString` (UTF-8 then percent-encoding of every octet that is not unreserved in the sense of section 2.3 of RFC 3986), and its inverse |
| legacy_feed_config.dfy | `LegacyFeedConfig` | the feed consumer's `WageringFeedConfig.Validate` and `GetFullWebSocketUrl` |
| feed_config.dfy | `FeedConfig` | the stats API's `WageringFeedConfig` defaults, its URL builder and `WageringFeedConfigValidator` |
| customer_controller.dfy | `CustomerStats` | `CustomerController.GetCustomerStats` and `Math.Round(d, 2)` |

How the effects are modelled:

- **Socket.** A socket is a sequence of `Event`s:
  - `Data(bytes, endOfMessage)` is a received frame;
  - `Close` is a Close frame;
  - `Fail` is any exception other than a cancellation;
  - `Cancel` is the session deadline or application shutdown.

  When the trace runs out, the deadline has fired. This makes every worker loop total.
- **Closing the socket.** After a Close frame, or a message the processor
  rejects, the worker closes the socket with `CloseAsync`. That call can fail
  like any socket call. If the next event is `Fail` or `Cancel`, the handshake
  throws or is cancelled, and the attempt ends as a fault or a cancellation.
  Otherwise the handshake completes and reads nothing. So both workers can
  reconnect after a failed close, even after the end of the feed.
- **One connection attempt.** An attempt ends in one of four ways:
  - `ServerClosed`, after a Close frame and a completed close;
  - `FeedEnded`, when the processor returned false and the close completed;
  - `Faulted`;
  - `Cancelled`.
- **Session functions.** `RetrySession` and `ReconnectSession` give a whole
  session: the number of attempts, how the last attempt ended, and every
  message handed to the processor.
- **Proof obligations.** Each worker method is proved to leave the store equal
  to the updates of exactly those messages, applied to an empty map. It is
  also proved to set the completion flag on every exit.
- **Decoding.** JSON decoding is a parameter, `deserialize`, whose outcome is
  `JsonNull`, `JsonError` or a decoded envelope. `Uri.TryCreate` is a
  parameter, `schemeOf`.

Where the repository's own description and its code differ, the model follows the code:

- **Adds after completion.** `AddPotentialWinning` does not check the
  completion flag. Adds made after `MarkFeedComplete` still change totals.
- **Retry count.** The bounded retry policy counts *retries*. With
  `MaxRetryAttempts = 3` a session makes up to four connection attempts.
- **Giving up.** When the retries run out, the exception is logged and
  swallowed. Nothing else is notified.
- **Missing totals.** A customer with no stored total gets `NotFound`. The test
  at `WageringFeedConsumer.Tests/Controllers/CustomerControllerTests.cs:59-76`
  expects `Ok` with 0 instead.
- **The `CustomerId` key.** The processor reads the payload's `CustomerId`
  with a case-sensitive `GetProperty` before it handles a bet. A payload
  without that exact key is skipped, although the bet itself binds
  case-insensitively.
- **Code structure.** Five things are placed differently from the source,
  with the same behaviour:
  - in the feed consumer's worker, the inner receive loop is a separate method, `ConnectAndReceive`;
  - in both workers, the connection URL is built once, in the constructor;
  - the cancellation test at the head of the reconnect loop is represented by
    the next attempt reading `Cancel`;
  - in the feed consumer's worker, a cancellation during the 10-second delay
    before it reconnects is likewise represented by the next attempt reading `Cancel`;
  - in the retrying worker, a cancellation during the delay before a retry is
    represented by the retried attempt reading `Cancel`. The ghost attempt
    count includes that attempt.

## Model

| member | source | states |
|---|---|---|
| WageringData.Upsert | src/Repositories/WageringDataRepository.cs:31-32 | an absent customer gets an entry equal to the amount; a present one gets old total + amount; every other entry is unchanged and no key is lost |
| WageringData.Lookup | src/Repositories/WageringDataRepository.cs:37 | `None` (C# null) exactly when the customer has no entry, never 0; otherwise the stored total |
| WageringData.ApplyAllLookup | src/Repositories/WageringDataRepository.cs:29-38 | after a run of adds, a customer's total is their starting total plus the sum of their contributions, and absent only if it was absent and nothing was added for them |
| WageringData.TotalsFromEmpty | src/Repositories/WageringDataRepository.cs:29-38 | from an empty store, a customer reads the sum of their contributions if they have any and null otherwise |
| WageringData.SumForAbsent | src/Repositories/WageringDataRepository.cs:31-32 | contributions for other customers add nothing to a customer's sum |
| WageringData.SumForAppend | src/Repositories/WageringDataRepository.cs:31-32 | totals over two runs of adds are the sum of the totals of each run |
| WageringData.SumForPermutation | src/Repositories/WageringDataRepository.cs:29-33 | totals do not depend on the order in which adds arrive |
| WageringData.RepeatedAdd | src/Repositories/WageringDataRepository.cs:31-32 | n adds of the same amount for one customer total n × amount; no update is lost |
| WageringData.WageringDataRepository.constructor | src/Repositories/WageringDataRepository.cs:24-25 | a new store is empty and the feed is not complete |
| WageringData.WageringDataRepository.IsFeedComplete | src/Repositories/WageringDataRepository.cs:27 | returns the completion flag and changes nothing |
| WageringData.WageringDataRepository.AddPotentialWinning | src/Repositories/WageringDataRepository.cs:29-33 | the map becomes `Upsert` of the old map; the flag is unchanged and not consulted, so adds after completion still count |
| WageringData.WageringDataRepository.GetTotalStandToWin | src/Repositories/WageringDataRepository.cs:35-38 | null exactly when the customer has no entry, else the entry; the store is not modified |
| WageringData.WageringDataRepository.MarkFeedComplete | src/Repositories/WageringDataRepository.cs:40-44 | the flag is set whatever it was (idempotent); the totals are unchanged |
| WageringData.WageringDataRepository.Clear | src/Repositories/WageringDataRepository.cs:46-53 | the map is empty and the flag false, so every customer then reads null |
| Messages.CalculateStandToWin | src/Services/MessageProcessor.cs:70-74 | stand-to-win plus stake equals stake × odds; it is non-negative when the stake is non-negative and the odds are at least 1 |
| Messages.StandToWinExamples | WageringFeedConsumer.Tests/Services/MessageProcessorTests.cs:87-97 | (10, 2.0) → 10, (100, 1.5) → 50, (50, 3.0) → 100, (25, 1.0) → 0 |
| Messages.BetPlacedAddsStandToWin | WageringFeedConsumer.Tests/Services/MessageProcessorTests.cs:26-34 | a bet of 10 at odds 2.5 for customer 123 adds 15 to that customer's total, and the session reads on |
| Messages.DifferentCustomersTrackedIndependently | WageringFeedConsumer.Tests/Services/MessageProcessorTests.cs:99-110 | bets for customers 1 and 2 leave separate totals of 10 and 40 |
| Messages.BetContribution | src/Services/MessageProcessor.cs:57-66 | a store update is made exactly when the payload decodes to a bet, and it adds `CalculateStandToWin(stake, odds)` for the bet's customer |
| Messages.Dispatch | src/Services/MessageProcessor.cs:19-55 | false only for a decoded EndOfFeed envelope; a store update exactly for a decoded BetPlaced envelope whose payload has an exact-case `CustomerId` key and decodes to a bet, and then the bet's stand-to-win; null, undecodable, Fixture and unsupported messages continue and change nothing |
| Messages.ProcessedOneMore | src/Services/MessageProcessor.cs:19-55 | processing one more message applies its update on top of the updates of all earlier messages |
| Messages.ProcessedInTurn | src/Services/WebSocketWorker.cs:65-68 | the store after two runs of messages equals the store after their concatenation: totals carry across connection attempts |
| Messages.ThreeBetsScenario | WageringFeedConsumer.Tests/Services/MessageProcessorTests.cs:55-67 | three bets for customer 1 that each stand to win 10 leave a total of 30 |
| Messages.MessageProcessor.constructor | src/Services/MessageProcessor.cs:12 | the processor holds the injected store |
| Messages.MessageProcessor.ProcessMessage | src/Services/MessageProcessor.cs:19-55 | returns `Dispatch`'s decision; the store becomes the old store with at most the dispatched update applied; the flag is unchanged |
| Messages.MessageProcessor.HandleBetPlaced | src/Services/MessageProcessor.cs:57-66 | a payload that decodes to a bet adds its stand-to-win to the customer's total; one that decodes to null changes nothing |
| FeedSession.Receive | src/Services/WebSocketWorker.cs:98-128 | an attempt reads at most the events it is given, and at least one unless it was cancelled by running out of events |
| FeedSession.StopsAtFirstRejected | src/Services/WebSocketWorker.cs:112-127 | every message dispatched except the last one continued the session; the attempt ends as FeedEnded exactly when the last dispatched message was rejected by the processor |
| FeedSession.DispatchCount | src/Services/WebSocketWorker.cs:112-121 | the processor is called exactly once per end-of-message frame read, and at no other time |
| FeedSession.ReadStop | src/Services/WebSocketWorker.cs:102-106 | a Close frame stops the receive loop as ServerClosed, a fault as Faulted and a cancellation as Cancelled; a partly buffered message is dropped, never dispatched |
| FeedSession.ReadPartial | src/Services/WebSocketWorker.cs:112-114 | a frame that does not end a message is appended to the buffer and the loop reads on |
| FeedSession.ReadAccepted | src/Services/WebSocketWorker.cs:116-123 | an end-of-message frame dispatches buffer + frame; if the processor continues, the buffer is reset and the loop reads on |
| FeedSession.ReadRejected | src/Services/WebSocketWorker.cs:123-127 | if the processor returns false the receive loop stops at once, with no further receive |
| FeedSession.ReceiveUnfinished | src/Services/WebSocketWorker.cs:112-114 | frames that do not end a message only grow the buffer and dispatch nothing |
| FeedSession.ReceiveFragmented | src/Services/WebSocketWorker.cs:112-127 | a message sent in fragments reaches the processor once, as the concatenation of its fragments |
| FeedSession.ReceiveEncoded | src/Services/WebSocketWorker.cs:98-128 | a stream of fragmented messages that all continue is dispatched message by message, in order |
| FeedSession.ReassemblyRoundTrip | src/Services/WebSocketWorker.cs:98-128 | fragmenting messages and then receiving them gives back exactly the messages sent; a trailing partial message cut off by a Close is dropped |
| FeedSession.StopIgnoresRest | src/Services/WebSocketWorker.cs:123-127 | when the processor rejects a message, the receive loop reads none of the events after it |
| FeedSession.Connection | src/Services/WebSocketWorker.cs:87-129 | a connection dispatches exactly what its receive loop dispatches and reads no more events than it is given |
| FeedSession.CloseAsync | src/Services/WebSocketWorker.cs:104 | the close handshake completes, keeping how the loop stopped and reading nothing, unless the next event is a fault or cancellation, which it reads and which then ends the attempt |
| FeedSession.CloseAt | src/Services/WebSocketWorker.cs:123-127 | after the receive loop stops on a Close frame or a rejected message, the connection ends as the close handshake decides |
| FeedSession.CloseFrameCompletes | src/Services/WebSocketWorker.cs:102-106 | a Close frame whose handshake completes ends the connection normally, with only the frame read |
| FeedSession.ConnectFails | src/Services/WebSocketWorker.cs:91 | a connection that throws before any frame arrives is a fault that read one event and dispatched nothing |
| FeedSession.CloseHandshakeFails | src/Services/WebSocketWorker.cs:102-106 | a Close frame whose handshake throws makes the connection a fault |
| FeedSession.FeedEndClosesConnection | src/Services/WebSocketWorker.cs:123-127 | a rejected message is dispatched; the connection then ends as FeedEnded if the close completes, and as a fault or cancellation if it does not |
| RetryingWorker.RetrySession | src/Services/WebSocketWorker.cs:30-51 | a session makes at least one and at most `MaxRetryAttempts + 1` attempts, and ends Faulted only after using them all |
| RetryingWorker.FailuresRetried | src/Services/WebSocketWorker.cs:65-68 | k failed attempts within the budget are each followed by a fresh attempt, which leaves the remaining budget k smaller |
| RetryingWorker.RetriesExhausted | src/Services/WebSocketWorker.cs:77-80 | `MaxRetryAttempts + 1` failures end the session as Faulted after exactly that many attempts, with nothing dispatched |
| RetryingWorker.ServerCloseNotRetried | src/Services/WebSocketWorker.cs:102-106 | a Close frame whose close completes ends the session normally after one attempt, with no retry |
| RetryingWorker.FailedCloseRetried | src/Services/WebSocketWorker.cs:102-106 | a Close frame whose close handshake throws is retried like any other fault |
| RetryingWorker.FeedEndRetriedOnlyIfCloseFails | src/Services/WebSocketWorker.cs:123-127 | the end of the feed ends the session when the close completes; if the close throws and retries are left, a new attempt follows, keeping the dispatched messages |
| RetryingWorker.CancellationNotRetried | src/Services/WebSocketWorker.cs:70-76 | cancellation is not retried: the session ends with the attempt that was cancelled |
| RetryingWorker.RetryAfterFault | src/Services/WebSocketWorker.cs:65-68 | a faulted attempt with budget left is followed by a new attempt that starts at the next event and keeps what was dispatched |
| RetryingWorker.RetryStep | src/Services/WebSocketWorker.cs:65-68 | the retry loop's invariant holds again after one retried attempt |
| RetryingWorker.NoRetry | src/Services/WebSocketWorker.cs:65-68 | an attempt that did not fault, or that faulted with no budget left, is the last one |
| RetryingWorker.ValidatorAdmitsUnbuildableRetryCount | src/Models/WageringFeedConfigValidator.cs:25-26 | a configuration with 0 retries passes the validator, yet the retry pipeline rejects it when the worker is built |
| RetryingWorker.WebSocketWorker.constructor | src/Services/WebSocketWorker.cs:18-51 | built only for a retry count the retry pipeline accepts (1 to `int.MaxValue`); the worker holds the injected store, processor and configuration; the connection URL is `GetFullWebSocketUrl` of the configuration |
| RetryingWorker.WebSocketWorker.ExecuteAsync | src/Services/WebSocketWorker.cs:54-85 | the number of attempts and how the session ended are those of `RetrySession`; the store is cleared once, then holds exactly the updates of every message dispatched in every attempt; the feed is complete on every exit |
| RetryingWorker.WebSocketWorker.ConnectAndProcessAsync | src/Services/WebSocketWorker.cs:87-129 | the attempt ends, and reads as many events, as `Connection` says (receive loop, then close handshake); the store gains exactly the updates of the messages it dispatched; the flag is unchanged |
| ReconnectingWorker.ReconnectSession | Services/WebSocketWorker.cs:28-83 | a session makes at least one attempt and ends only with EndOfFeed or cancellation, never because of a failure |
| ReconnectingWorker.FailuresNeverExhaust | Services/WebSocketWorker.cs:78-82 | any number of failures is followed by another connection: there is no limit on attempts |
| ReconnectingWorker.ServerCloseReconnects | Services/WebSocketWorker.cs:45-49 | a Close frame whose close completes breaks only the receive loop, and a new connection follows |
| ReconnectingWorker.FailedCloseReconnects | Services/WebSocketWorker.cs:45-49 | a Close frame whose close handshake throws is also followed by a new connection |
| ReconnectingWorker.FeedEndReconnectsOnlyIfCloseFails | Services/WebSocketWorker.cs:66-70 | the end of the feed ends the session when the close completes; if the close throws, the worker connects again, keeping the dispatched messages |
| ReconnectingWorker.CancellationEndsSession | Services/WebSocketWorker.cs:73-76 | a cancellation ends the session with no reconnection |
| ReconnectingWorker.AgreesWithRetryingWorker | Services/WebSocketWorker.cs:28-83 | when the first connection ends the feed or is cancelled, the two workers run the same session |
| ReconnectingWorker.ReconnectAfter | Services/WebSocketWorker.cs:28-83 | a connection that closed or faulted is followed by a new one that starts at the next event |
| ReconnectingWorker.LastConnection | Services/WebSocketWorker.cs:66-70 | a connection that ended the feed or was cancelled is the last one |
| ReconnectingWorker.WebSocketWorker.constructor | Services/WebSocketWorker.cs:9-15 | the worker holds the injected store, processor and configuration; the connection URL is `GetFullWebSocketUrl` of the configuration |
| ReconnectingWorker.WebSocketWorker.ExecuteAsync | Services/WebSocketWorker.cs:17-96 | the attempts and how the session ended are those of `ReconnectSession`; the store is cleared once, before the loop, then holds exactly the updates of every message dispatched over all connections; the feed is complete on every exit |
| ReconnectingWorker.WebSocketWorker.ConnectAndReceive | Services/WebSocketWorker.cs:41-71 | one connection ends, and reads as many events, as `Connection` says (receive loop, then close handshake); the store gains exactly the updates of the messages it dispatched |
| Customers.TryAdd | src/Repositories/CustomerRepository.cs:23 | an existing id is not overwritten; an absent id is added with the given entry; no other entry changes |
| Customers.FirstWriteWins | src/Repositories/CustomerRepository.cs:21-24 | after any run of adds, an id maps to its earliest entry, and an id never added keeps its starting entry or stays absent |
| Customers.CustomerRepository.constructor | src/Repositories/CustomerRepository.cs:14 | a new cache is empty |
| Customers.CustomerRepository.TryGet | src/Repositories/CustomerRepository.cs:16-19 | true with the entry when the id is cached, false with null otherwise; the cache is not modified |
| Customers.CustomerRepository.Add | src/Repositories/CustomerRepository.cs:21-24 | the cache becomes `TryAdd` of the old cache: first write wins |
| UriText.IsNullOrWhiteSpace | Models/WageringFeedConfig.cs:15 | true exactly when every character is white space, including for the empty string |
| UriText.PercentEncode | src/Models/WageringFeedConfig.cs:13 | three characters per octet, all of them unreserved or `%` |
| UriText.EscapeDataString | src/Models/WageringFeedConfig.cs:13 | only unreserved characters and `%` occur in the result; a string of unreserved characters is unchanged; a single unreserved character stays as it is, and any other becomes the percent-encoding of its UTF-8 octets |
| UriText.EscapeConcat | src/Models/WageringFeedConfig.cs:13 | escaping works character by character: escaping a concatenation concatenates the escapes, so unreserved characters in a mixed string stay as they are |
| UriText.EscapeMixedExample | src/Models/WageringFeedConfig.cs:13 | "a b" escapes to "a%20b" |
| UriText.DecodePercentEncoded | src/Models/WageringFeedConfig.cs:13 | decoding a percent-encoded octet run gives back those octets, followed by whatever the rest decodes to |
| UriText.EscapeRoundTrip | src/Models/WageringFeedConfig.cs:13 | decoding the escaped string gives back exactly the UTF-8 octets of the input |
| LegacyFeedConfig.Validate | Models/WageringFeedConfig.cs:13-51 | valid exactly when the candidate id and both URLs are non-blank, the URLs have ws/wss and http/https schemes and the duration is positive; the six checks run in the source's order, and the first that fails decides the exception kind and its ParamName text |
| LegacyFeedConfig.FirstFailureDecides | Models/WageringFeedConfig.cs:33-43 | with a valid ws:// URL, a zero duration is reported even though the customer API URL is blank too |
| LegacyFeedConfig.GetFullWebSocketUrl | Models/WageringFeedConfig.cs:53-56 | the base URL verbatim, then `?candidateId=`, then only unreserved characters and `%`; an id of unreserved characters appears as is |
| LegacyFeedConfig.CandidateIdRecoverable | Models/WageringFeedConfig.cs:53-56 | the query value decodes back to the candidate id's UTF-8 octets |
| FeedConfig.GetFullWebSocketUrl | src/Models/WageringFeedConfig.cs:13 | the same URL the feed consumer builds from the same settings, so `LegacyFeedConfig.GetFullWebSocketUrl`'s guarantees and `CandidateIdRecoverable` carry over; an empty id gives exactly base + `?candidateId=` |
| FeedConfig.Default | src/Models/WageringFeedConfig.cs:7-11 | the defaults: empty candidate id and URLs, duration 0, 3 retries |
| FeedConfig.BeValidWebSocketUrl | src/Models/WageringFeedConfigValidator.cs:29-30 | the same ws/wss test as the feed consumer's; no URL passes both it and the http test |
| FeedConfig.BeValidHttpUrl | src/Models/WageringFeedConfigValidator.cs:32-33 | the same http/https test as the feed consumer's |
| FeedConfig.DefaultIsInvalid | src/Models/WageringFeedConfig.cs:7-11 | the defaults (empty strings, duration 0, 3 retries) fail the candidate id, URL and duration rules and pass the retry rule |
| FeedConfig.Validate | src/Models/WageringFeedConfigValidator.cs:7-27 | no failures exactly when all five rules hold; the duration rule fails exactly when the duration is below 3, and the retry rule exactly when the count is negative |
| FeedConfig.ValidateByProperty | src/Models/WageringFeedConfigValidator.cs:7-27 | the failures reported for a setting are exactly its own rules' failures |
| FeedConfig.RulesAreIndependent | src/Models/WageringFeedConfigValidator.cs:7-27 | each rule depends only on its own setting |
| FeedConfig.ValidatorRefinesLegacyCheck | src/Models/WageringFeedConfigValidator.cs:22-23 | the validator accepts exactly what the older check accepts, provided the duration is at least 3 and the retry count non-negative; durations of 1 and 2 pass the older check but are rejected here |
| CustomerStats.Round2 | Controllers/CustomerController.cs:35 | a whole number of cents within half a cent of the input, ties going to the even cent; whole cents are unchanged |
| CustomerStats.Round2Nearest | Controllers/CustomerController.cs:35 | any whole number of cents strictly within half a cent of the input is the rounded value |
| CustomerStats.RoundingExamples | WageringFeedConsumer.Tests/Controllers/CustomerControllerTests.cs:35-129 | the totals the controller tests expect: 150.567 → 150.57 (lines 35-55) and 150.00 → 150.00 (lines 114-129) |
| CustomerStats.RoundingTiesToEven | Controllers/CustomerController.cs:35 | the half-cent ties 0.125 → 0.12 and 0.135 → 0.14 go to the even cent |
| CustomerStats.GetCustomerStats | Controllers/CustomerController.cs:16-37 | BadRequest exactly for a non-positive id, before any call; NotFound after a failed customer lookup, before the flag is read; 503 exactly when the customer exists and the feed is complete; Ok exactly when the customer exists, the feed is not complete and a total is stored, with the id, the name and the total rounded to cents; 503 is answered after reading only the customer and the flag, never the total; a missing total is NotFound after all three reads; the store is only read |

## Left out

- JSON decoding (System.Text.Json, the enum converter, case-insensitive binding) is a parameter. The model keeps only its three outcomes: null, exception or value.
- Socket I/O (`ConnectAsync`, `ReceiveAsync`, `CloseAsync`) is an event trace. The close handshake's outcome is modelled, but the Close frame the worker sends is not recorded. Neither are the 4096-byte receive buffer and the `MemoryStream` copy.
- `CancelAfter` rejects a duration that is negative or longer than about 49.7 days. Then no connection is made, and the feed consumer's worker rethrows. This is not modelled, because the deadline itself is not modelled: the end of the trace stands for it.
- Timing is not modelled: the retry policy's exponential backoff with jitter, the feed consumer's 10-second delay, and the session deadline set with `CancelAfter`. Only the attempts are counted, and the deadline is the end of the trace.
- Cancellation tokens, and whether a cancellation came from the deadline or from shutdown, are not modelled. That difference only changes a log line.
- Concurrency is not modelled: the dictionaries' atomicity, the `volatile` flag, and HTTP requests racing the feed. The store is modelled as sequential.
- Logging throughout is not modelled.
- `Uri.TryCreate` is abstracted as `schemeOf`. The model does not decide which strings parse as absolute URIs.
- `Uri.EscapeDataString` for strings with unpaired surrogates is not modelled. Dafny's `char` here is a Unicode scalar value, so such strings cannot be written, and .NET throws on them.
- `CustomerService` (HTTP client and cache), `Program.cs` (dependency injection) and `FluentValidationOptionsAdapter` are plumbing. They are not part of this model.
- The `MessageType` enum file is not part of this model. An enum name the converter does not know is modelled as a decoding exception.
- Messages.CalculateStandToWin: computes over exact reals. It does not model decimal's 28-digit rounding, or the `OverflowException` that `ProcessMessage`'s catch would swallow.
- WageringData.Upsert: over exact reals, so a total never overflows. A `decimal` overflow inside `AddOrUpdate` would throw instead.
- CustomerStats.Round2: rounds an exact real. Decimal scale, such as trailing zeros in the response, is not modelled.
- Customer and fixture ids are unbounded integers rather than 64-bit `long`.
- Null strings are not modelled. Configuration binding supplies empty strings, as the defaults do.
- RetryingWorker.WebSocketWorker.constructor: requires a retry count from 1 to `int.MaxValue`. For any other count, Polly's `Build()` throws a validation exception and the host fails at start-up. That exception is not modelled. The configuration validator accepts 0 (src/Models/WageringFeedConfigValidator.cs:25-26), so a configuration can pass validation and still stop the host; `RetryingWorker.ValidatorAdmitsUnbuildableRetryCount` exhibits one.
- FeedConfig.Validate: a failure records the property and the rule only. The `.WithMessage(...)` texts that the start-up `OptionsValidationException` reports are not modelled.
- RetryingWorker.WebSocketWorker.ExecuteAsync: returns the session's attempt count and end as ghost results. The log lines that report them are not modelled.
- ReconnectingWorker.WebSocketWorker.ExecuteAsync: returns the session's attempt count and end as ghost results. The log lines that report them are not modelled.
