/**
 The legacy sender: one persistent queue per log type, kept in a process-wide
 registry; `send` appends the message and a newline to the queue, behind the
 same disk-space gate as the disk queue; and the drain takes batches of up to
 3 MiB off the queue and posts each one with up to three attempts, putting a
 batch back (through the gate) when the listener keeps failing, and stopping
 early when the thread is interrupted.

 The persistent queue is the disk queue's abstract FIFO. The network, the
 thread's interrupt flag and the measured used percentage are inputs.
 */
module LogzioSender {
  import opened Common
  import opened Transport
  import Utf8
  import DiskQueue
  import Config = HttpsRequestConfiguration
  import Sync = HttpsSyncSender

  const MAX_SIZE_IN_BYTES: int := 3 * 1024 * 1024
  const INITIAL_WAIT_BEFORE_RETRY_MS: int := 2000
  const MAX_RETRIES_ATTEMPTS: int := 3
  const DEFAULT_URL: string := "https://listener.logz.io:8071"

  // ---------------------------------------------------------------- sending

  /** `shouldRetry` tests the same statuses as the transport's `handleResponse`:
      everything but 200, 400 and 401 is retried. */
  predicate ShouldRetry(statusCode: int) {
    Sync.HandleResponse(statusCode)
  }

  /** The legacy send loop from attempt `currTry` on: three attempts at most,
      with a back-off that starts at 2000 ms and doubles in `int` arithmetic. */
  function LegacyAttempts(currTry: nat, currentRetrySleep: int, net: Network): (t: Transmission)
    requires 1 <= currTry <= MAX_RETRIES_ATTEMPTS
    ensures 1 <= |t.responses| <= MAX_RETRIES_ATTEMPTS - currTry + 1
    decreases MAX_RETRIES_ATTEMPTS - currTry
  {
    var attempt := net(currTry);
    var shouldRetry := attempt.response.IOFail? || ShouldRetry(attempt.response.status);
    if !shouldRetry then Transmission(Returned, [attempt.response], [])
    else if currTry == MAX_RETRIES_ATTEMPTS then
      Transmission(GaveUp(CodeOf(attempt.response)), [attempt.response], [])
    else if currentRetrySleep < 0 then
      Transmission(BadSleep(currentRetrySleep), [attempt.response], [])
    else if attempt.sleepInterrupted then
      Transmission(Interrupted, [attempt.response], [currentRetrySleep])
    else
      var rest := LegacyAttempts(currTry + 1, JavaInt(currentRetrySleep * 2), net);
      Transmission(rest.ending, [attempt.response] + rest.responses, [currentRetrySleep] + rest.sleeps)
  }

  /** A send of the legacy loop: its back-offs are 2000 and 4000 ms, so
      `Thread.sleep` never refuses one. */
  type LegacyTransmission = t: Transmission | !t.ending.BadSleep? witness Transmission(Returned, [], [])

  /** From the legacy first back-off on, every back-off is a valid sleep. */
  lemma LegacyBackoffsValid(net: Network)
    ensures !LegacyAttempts(1, INITIAL_WAIT_BEFORE_RETRY_MS, net).ending.BadSleep?
  {
    assert JavaInt(2000 * 2) == 4000;
    assert !LegacyAttempts(3, 8000, net).ending.BadSleep?;
    assert !LegacyAttempts(2, 4000, net).ending.BadSleep?;
  }

  /** `sendToLogzio` for one batch. The request body is the records laid end to
      end (each already ends in a newline); the network stands for the listener. */
  function SendToLogzio(net: Network): LegacyTransmission {
    LegacyBackoffsValid(net);
    LegacyAttempts(1, INITIAL_WAIT_BEFORE_RETRY_MS, net)
  }

  /** The legacy loop is the synchronous transport's loop run with the legacy
      constants: the same responses seen, sleeps taken and ending. */
  lemma {:induction false} LegacyAttemptsAgree(currTry: nat, sleep: int, net: Network)
    requires 1 <= currTry <= MAX_RETRIES_ATTEMPTS
    ensures LegacyAttempts(currTry, sleep, net) == Sync.Attempts(MAX_RETRIES_ATTEMPTS, currTry, sleep, net)
    decreases MAX_RETRIES_ATTEMPTS - currTry
  {
    var attempt := net(currTry);
    if Sync.Continues(MAX_RETRIES_ATTEMPTS, currTry, sleep, attempt) {
      LegacyAttemptsAgree(currTry + 1, JavaInt(sleep * 2), net);
    }
  }

  /** Hence the legacy send is the transport's send under a configuration with
      three attempts and a 2000 ms first back-off. */
  lemma SendToLogzioMatchesHttpsSyncSender(config: Config.Configuration, net: Network)
    requires config.maxRetriesAttempts == MAX_RETRIES_ATTEMPTS
    requires config.initialWaitBeforeRetryMS == INITIAL_WAIT_BEFORE_RETRY_MS
    ensures SendToLogzio(net) == Sync.SendToLogzio(config, net)
  {
    LegacyAttemptsAgree(1, INITIAL_WAIT_BEFORE_RETRY_MS, net);
  }

  /** Each message with its newline, as `send` stores it. */
  function WithNewLines(messages: seq<Bytes>): (rs: seq<Bytes>)
    ensures |rs| == |messages|
    ensures forall i :: 0 <= i < |rs| ==> rs[i] == messages[i] + [NEW_LINE]
  {
    seq(|messages|, i requires 0 <= i < |messages| => messages[i] + [NEW_LINE])
  }

  /** The legacy body, built from records that already end in a newline, is the
      transport's body built from the bare messages. */
  lemma {:induction false} LegacyPayloadMatches(messages: seq<Bytes>)
    ensures Flatten(WithNewLines(messages)) == Sync.ToNewLineSeparatedByteArray(messages)
    decreases |messages|
  {
    if messages != [] {
      LegacyPayloadMatches(messages[1..]);
      assert WithNewLines(messages)[1..] == WithNewLines(messages[1..]);
      assert WithNewLines(messages)[0] == messages[0] + [NEW_LINE];
    }
  }

  // --------------------------------------------------------------- batching

  /** A batch taken off the queue, and what stays on the queue after it. */
  datatype Batch = Batch(logs: seq<Bytes>, rest: seq<Bytes>)

  /** The loop of `dequeueUpToMaxBatchSize`, with the records taken so far in `acc`:
      empty records are discarded, and the batch closes as soon as it holds at
      least `MAX_SIZE_IN_BYTES`. */
  function TakeBatch(store: seq<Bytes>, acc: seq<Bytes>): (b: Batch)
    ensures |b.rest| <= |store|
    ensures store != [] ==> |b.rest| < |store|
    decreases |store|
  {
    if store == [] then Batch(acc, [])
    else
      var message := store[0];
      var acc' := if |message| > 0 then acc + [message] else acc;
      if TotalBytes(acc') >= MAX_SIZE_IN_BYTES then Batch(acc', store[1..])
      else TakeBatch(store[1..], acc')
  }

  /** What stays queued is a suffix of the queue. */
  lemma {:induction false} TakeBatchLeavesSuffix(store: seq<Bytes>, acc: seq<Bytes>)
    ensures TakeBatch(store, acc).rest == store[|store| - |TakeBatch(store, acc).rest|..]
    decreases |store|
  {
    if store != [] {
      var message := store[0];
      var acc' := if |message| > 0 then acc + [message] else acc;
      if TotalBytes(acc') < MAX_SIZE_IN_BYTES {
        TakeBatchLeavesSuffix(store[1..], acc');
      }
    }
  }

  /** The batch is what was already taken followed by the non-empty records
      of the prefix of the queue that the batch consumed. */
  lemma {:induction false} TakeBatchTakesPrefix(store: seq<Bytes>, acc: seq<Bytes>)
    ensures TakeBatch(store, acc).logs
            == acc + NonEmpty(store[..|store| - |TakeBatch(store, acc).rest|])
    decreases |store|
  {
    var b := TakeBatch(store, acc);
    if store == [] {
      assert store[..0] == [] && acc + [] == acc;
    } else {
      var message := store[0];
      var acc' := if |message| > 0 then acc + [message] else acc;
      var n := |store| - |b.rest|;
      if TotalBytes(acc') >= MAX_SIZE_IN_BYTES {
        assert b == Batch(acc', store[1..]);
        AccumulateOne(store, acc, 1);
      } else {
        assert b == TakeBatch(store[1..], acc');
        TakeBatchTakesPrefix(store[1..], acc');
        AccumulateOne(store, acc, n);
      }
    }
  }

  /** Taking the head into the batch, then the non-empty records of a prefix
      of the tail, takes the non-empty records of a prefix of the whole. */
  lemma AccumulateOne(store: seq<Bytes>, acc: seq<Bytes>, n: nat)
    requires 1 <= n <= |store|
    ensures var acc' := if |store[0]| > 0 then acc + [store[0]] else acc;
      acc' + NonEmpty(store[1..][..n - 1]) == acc + NonEmpty(store[..n])
  {
    var one: seq<Bytes> := [store[0]];
    var x := store[1..][..n - 1];
    assert one[1..] == [];
    assert NonEmpty(one) == if |store[0]| > 0 then one else [];
    PrefixSplit(store, n);
    NonEmptyAppend(one, x);
    AppendAssoc(acc, NonEmpty(one), NonEmpty(x));
  }

  /** The batch stops short of the end of the queue only once it has reached
      the limit. */
  lemma {:induction false} TakeBatchFull(store: seq<Bytes>, acc: seq<Bytes>)
    ensures TakeBatch(store, acc).rest != [] ==> TotalBytes(TakeBatch(store, acc).logs) >= MAX_SIZE_IN_BYTES
    decreases |store|
  {
    if store != [] {
      var message := store[0];
      var acc' := if |message| > 0 then acc + [message] else acc;
      if TotalBytes(acc') < MAX_SIZE_IN_BYTES {
        TakeBatchFull(store[1..], acc');
      }
    }
  }

  /** `dequeueUpToMaxBatchSize`. */
  function DequeueUpToMaxBatchSize(store: seq<Bytes>): (b: Batch)
    ensures |b.rest| <= |store|
    ensures store != [] ==> |b.rest| < |store|
  {
    TakeBatch(store, [])
  }

  /** Only the record that closes a batch takes it to `MAX_SIZE_IN_BYTES`: every
      shorter prefix of the batch stays under the limit. */
  lemma {:induction false} BatchClosesAtLimit(store: seq<Bytes>, acc: seq<Bytes>)
    requires TotalBytes(acc) < MAX_SIZE_IN_BYTES
    ensures var b := TakeBatch(store, acc);
      b.logs != [] ==> TotalBytes(b.logs[..|b.logs| - 1]) < MAX_SIZE_IN_BYTES
    decreases |store|
  {
    var b := TakeBatch(store, acc);
    if store == [] {
      if acc != [] {
        TotalBytesPrefix(acc, |acc| - 1);
      }
    } else {
      var message := store[0];
      var acc' := if |message| > 0 then acc + [message] else acc;
      TotalBytesAppend(acc, [message]);
      if TotalBytes(acc') >= MAX_SIZE_IN_BYTES {
        assert |message| > 0;
        assert b.logs[..|b.logs| - 1] == acc;
      } else {
        BatchClosesAtLimit(store[1..], acc');
      }
    }
  }

  /** A batch is the non-empty records of a prefix of the queue, and the rest
      of the queue stays: no non-empty record is lost or repeated. */
  lemma DequeueTakesPrefix(store: seq<Bytes>)
    ensures var b := DequeueUpToMaxBatchSize(store);
      && b.rest == store[|store| - |b.rest|..]
      && b.logs == NonEmpty(store[..|store| - |b.rest|])
      && b.logs + NonEmpty(b.rest) == NonEmpty(store)
  {
    var none: seq<Bytes> := [];
    var b := DequeueUpToMaxBatchSize(store);
    assert b == TakeBatch(store, none);
    var n := |store| - |b.rest|;
    TakeBatchLeavesSuffix(store, none);
    TakeBatchTakesPrefix(store, none);
    assert b.logs == none + NonEmpty(store[..n]);
    assert none + NonEmpty(store[..n]) == NonEmpty(store[..n]);
    NonEmptySplit(store, n);
  }

  /** A batch stops short of the end of the queue only once it holds at least
      `MAX_SIZE_IN_BYTES`, and only its last record takes it there. */
  lemma DequeueBatchSize(store: seq<Bytes>)
    ensures var b := DequeueUpToMaxBatchSize(store);
      && (b.rest != [] ==> TotalBytes(b.logs) >= MAX_SIZE_IN_BYTES)
      && (b.logs != [] ==> TotalBytes(b.logs[..|b.logs| - 1]) < MAX_SIZE_IN_BYTES)
  {
    TakeBatchFull(store, []);
    BatchClosesAtLimit(store, []);
  }

  // ------------------------------------------------------- sender and registry

  /** The executor that runs the drain; only whether it has terminated matters here. */
  datatype Executor = Executor(id: nat, terminated: bool)

  /** A sender: its settings, its executor and its persistent queue, whose
      gate settings are the sender's fs-percent threshold and check flag. */
  datatype Sender = Sender(
    logzioToken: Option<string>,
    logzioType: Option<string>,
    drainTimeout: int,
    logzioUrl: string,
    logzioListenerUrl: string,
    socketTimeout: int,
    connectTimeout: int,
    debug: bool,
    tasksExecutor: Executor,
    logsBuffer: DiskQueue.DiskQueue)

  /** The arguments of the factory and the constructor. */
  datatype SenderArgs = SenderArgs(
    logzioToken: Option<string>,
    logzioType: Option<string>,
    drainTimeout: int,
    fsPercentThreshold: int,
    bufferDir: Option<DiskQueue.File>,
    logzioUrl: Option<string>,
    socketTimeout: int,
    connectTimeout: int,
    debug: bool,
    gcPersistedQueueFilesIntervalSeconds: int)

  /** The legacy listener URL always carries a type parameter, "null" when there is no type. */
  function ListenerUrl(url: string, token: Option<string>, logzioType: Option<string>): string {
    Config.ListenerUrl(url, token, Some(NullToString(logzioType)))
  }

  /** The constructor: the buffer directory is checked first, then the listener
      URL, which must be well formed; `persisted` is what an earlier process left
      in the queue directory. */
  function NewSender(args: SenderArgs, executor: Executor, persisted: seq<Bytes>,
                     wellFormed: string -> bool): (r: Result<Sender>)
    ensures var url := if args.logzioUrl.Some? then args.logzioUrl.value else DEFAULT_URL;
      && (DiskQueue.CheckBufferDir(args.bufferDir).Failure? ==>
            r == Failure(DiskQueue.CheckBufferDir(args.bufferDir).error))
      && (r.Success? <==>
            DiskQueue.CheckBufferDir(args.bufferDir).Success?
            && wellFormed(ListenerUrl(url, args.logzioToken, args.logzioType)))
      && (r.Failure? ==> r.error.ParameterError?)
      && (r.Success? ==>
            && r.value.logzioUrl == url
            && r.value.logzioListenerUrl == ListenerUrl(url, args.logzioToken, args.logzioType)
            && r.value.logzioToken == args.logzioToken
            && r.value.logzioType == args.logzioType
            && r.value.tasksExecutor == executor
            && r.value.logsBuffer.store == persisted
            && r.value.logsBuffer.fsPercentThreshold == args.fsPercentThreshold
            && (r.value.logsBuffer.dontCheck <==> args.fsPercentThreshold == DiskQueue.DONT_CHECK_DISK_SPACE)
            && Some(r.value.logsBuffer.queueDirectory) == args.bufferDir)
  {
    var url := if args.logzioUrl.Some? then args.logzioUrl.value else DEFAULT_URL;
    var dontCheck := args.fsPercentThreshold == -1;
    match DiskQueue.CheckBufferDir(args.bufferDir)
    case Failure(e) => Failure(e)
    case Success(dir) =>
      var queue := DiskQueue.DiskQueue(persisted, dir, dontCheck, args.fsPercentThreshold,
                                       args.gcPersistedQueueFilesIntervalSeconds);
      var listenerUrl := ListenerUrl(url, args.logzioToken, args.logzioType);
      if !wellFormed(listenerUrl) then
        Failure(ParameterError(
          "logzioUrl=" + url + " token=" + NullToString(args.logzioToken)
            + " type=" + NullToString(args.logzioType),
          "For some reason could not initialize URL. Cant recover.."))
      else
        Success(Sender(args.logzioToken, args.logzioType, args.drainTimeout, url, listenerUrl,
                       args.socketTimeout, args.connectTimeout, args.debug, executor, queue))
  }

  /** A token without "&type=" and the type can be read back from a sender's
      listener URL; a missing type reads back as the text "null". */
  lemma ListenerUrlAlwaysNamesType(url: string, token: string, logzioType: Option<string>)
    requires forall j :: 0 <= j <= |token| ==> !Config.OccursAt(token, Config.TYPE_PARAM, j)
    ensures Config.ParseListenerUrl(url, ListenerUrl(url, Some(token), logzioType))
            == Some((token, Some(NullToString(logzioType))))
  {
    Config.ListenerUrlRoundTrip(url, token, Some(NullToString(logzioType)));
  }

  /** The process-wide senders, one per log type (the type may be null). */
  type Registry = map<Option<string>, Sender>

  datatype Obtained = Obtained(registry: Registry, sender: Sender)

  /** `getOrCreateSenderByType`: an existing sender for the type is returned,
      taking the new executor only if its own has terminated; otherwise a new
      sender is built and registered, a null buffer directory being refused first. */
  function GetOrCreateSenderByType(registry: Registry, args: SenderArgs, executor: Executor,
                                   persisted: seq<Bytes>, wellFormed: string -> bool): (r: Result<Obtained>)
    ensures args.logzioType in registry ==>
              var existing := registry[args.logzioType];
              var kept := if existing.tasksExecutor.terminated then existing.(tasksExecutor := executor) else existing;
              r == Success(Obtained(registry[args.logzioType := kept], kept))
    ensures args.logzioType !in registry && args.bufferDir.None? ==>
              r == Failure(ParameterError("bufferDir", "null"))
    ensures args.logzioType !in registry && args.bufferDir.Some? ==>
              var made := NewSender(args, executor, persisted, wellFormed);
              && (r.Success? <==> made.Success?)
              && (r.Failure? ==> r.error == made.error)
              && (r.Success? ==> r.value == Obtained(registry[args.logzioType := made.value], made.value))
  {
    if args.logzioType in registry then
      var existing := registry[args.logzioType];
      var kept := if existing.tasksExecutor.terminated then existing.(tasksExecutor := executor) else existing;
      Success(Obtained(registry[args.logzioType := kept], kept))
    else if args.bufferDir.None? then
      Failure(ParameterError("bufferDir", "null"))
    else
      match NewSender(args, executor, persisted, wellFormed)
      case Failure(e) => Failure(e)
      case Success(sender) => Success(Obtained(registry[args.logzioType := sender], sender))
  }

  /** One sender per type: a second request for a type, whatever its other
      arguments, returns the sender made by the first, with the same queue,
      URL and token. A live executor leaves everything as it was; a terminated
      one is replaced by the new executor and nothing else changes, and the
      registry holds the sender handed out. Other types' senders are untouched. */
  lemma OneSenderPerType(registry: Registry, args1: SenderArgs, args2: SenderArgs,
                         e1: Executor, e2: Executor, persisted: seq<Bytes>, wellFormed: string -> bool)
    requires args2.logzioType == args1.logzioType
    requires GetOrCreateSenderByType(registry, args1, e1, persisted, wellFormed).Success?
    ensures var first := GetOrCreateSenderByType(registry, args1, e1, persisted, wellFormed).value;
      var second := GetOrCreateSenderByType(first.registry, args2, e2, persisted, wellFormed);
      && second.Success?
      && second.value.sender.logsBuffer == first.sender.logsBuffer
      && second.value.sender.logzioListenerUrl == first.sender.logzioListenerUrl
      && second.value.sender.logzioToken == first.sender.logzioToken
      && (!first.sender.tasksExecutor.terminated ==> second.value == first)
      && (first.sender.tasksExecutor.terminated ==>
            second.value.sender == first.sender.(tasksExecutor := e2))
      && second.value.registry[args1.logzioType] == second.value.sender
      && second.value.registry.Keys == registry.Keys + {args1.logzioType}
      && forall t :: t in registry && t != args1.logzioType ==> second.value.registry[t] == registry[t]
  {
  }

  // ------------------------------------------------------------------ send

  datatype Enqueued = Enqueued(sender: Sender, warning: Option<Warning>)

  /** `enqueue`: the sender's queue with the disk-space gate in front. */
  function Enqueue(s: Sender, message: Bytes, usedPercent: int): (r: Enqueued)
    ensures DiskQueue.IsEnoughSpace(s.logsBuffer, usedPercent) ==>
              r == Enqueued(s.(logsBuffer := s.logsBuffer.(store := s.logsBuffer.store + [message])), None)
    ensures !DiskQueue.IsEnoughSpace(s.logsBuffer, usedPercent) ==>
              r == Enqueued(s, Some(DiskThresholdCrossed(usedPercent, s.logsBuffer.fsPercentThreshold)))
  {
    var e := DiskQueue.Enqueue(s.logsBuffer, message, usedPercent);
    Enqueued(s.(logsBuffer := e.queue), e.warning)
  }

  /** `send(String)`: stores the message's UTF-8 bytes followed by a newline
      byte; the stored record decodes back to the message and its newline. */
  function Send(s: Sender, message: string, usedPercent: int): (r: Enqueued)
    ensures DiskQueue.IsEnoughSpace(s.logsBuffer, usedPercent) ==>
              && r.warning == None
              && r.sender == s.(logsBuffer := r.sender.logsBuffer)
              && r.sender.logsBuffer.store == s.logsBuffer.store + [Utf8.Encode(message) + [NEW_LINE]]
              && Utf8.Decode(r.sender.logsBuffer.store[|s.logsBuffer.store|]) == message + "\n"
    ensures !DiskQueue.IsEnoughSpace(s.logsBuffer, usedPercent) ==>
              r == Enqueued(s, Some(DiskThresholdCrossed(usedPercent, s.logsBuffer.fsPercentThreshold)))
  {
    Utf8.EncodeAppend(message, "\n");
    Utf8.DecodeEncode(message + "\n");
    assert Utf8.Encode("\n") == [NEW_LINE];
    Enqueue(s, Utf8.Encode(message + "\n"), usedPercent)
  }

  // ------------------------------------------------------------------ drain

  /** A failed batch offered back to the queue, every record at one reading of
      the used percentage. */
  function Offers(batch: seq<Bytes>, usedPercent: int): (offers: seq<DiskQueue.Offer>)
    ensures |offers| == |batch|
    ensures forall i :: 0 <= i < |offers| ==> offers[i] == DiskQueue.Offer(batch[i], usedPercent)
  {
    seq(|batch|, i requires 0 <= i < |batch| => DiskQueue.Offer(batch[i], usedPercent))
  }

  /** At one reading, the gate lets the whole batch back or none of it. */
  lemma {:induction false} AdmittedAtOneReading(dontCheck: bool, threshold: int, batch: seq<Bytes>, usedPercent: int)
    ensures DiskQueue.Admitted(dontCheck, threshold, Offers(batch, usedPercent))
            == if dontCheck || usedPercent < threshold then batch else []
    decreases |batch|
  {
    if batch != [] {
      assert Offers(batch, usedPercent)[1..] == Offers(batch[1..], usedPercent);
      AdmittedAtOneReading(dontCheck, threshold, batch[1..], usedPercent);
    }
  }

  /** A batch handed to the transport, and how its send ended. */
  datatype Handled = Handled(batch: seq<Bytes>, transmission: Transmission)

  /** Why a drain stopped: the queue ran empty; a batch failed and was put
      back; or the thread was interrupted. */
  datatype Stop = Drained | ServerError | ThreadInterrupted

  datatype Drain = Drain(queue: DiskQueue.DiskQueue, handled: seq<Handled>, stop: Stop, warnings: seq<Warning>)

  /** What the drain cannot see in its queue: how the send of the n-th batch
      goes, whether the thread is interrupted while the n-th batch is being
      sent, and the used percentage when a failed batch is put back. */
  datatype Environment = Environment(sends: nat -> LegacyTransmission, interruptedDuring: nat -> bool, usedPercent: int)

  /** One turn of the loop: the loop stops with a result, or goes on with
      what is left of the queue, having handled one batch. */
  datatype Turn = Stopped(drain: Drain) | Continued(rest: DiskQueue.DiskQueue, handled: Handled)

  /** One turn of `drainQueue` on a non-empty queue: the next batch is taken
      off and sent as the n-th; a server error puts it back through the gate and
      stops; an interrupt (during the back-off or the send) stops; otherwise
      the loop goes on. */
  function DrainTurn(q: DiskQueue.DiskQueue, env: Environment, n: nat): (turn: Turn)
    requires q.store != []
    ensures turn.Continued? ==> |turn.rest.store| < |q.store|
  {
    var b := DequeueUpToMaxBatchSize(q.store);
    var q1 := q.(store := b.rest);
    var t := env.sends(n);
    var h := Handled(b.logs, t);
    if t.ending.GaveUp? then
      var requeued := DiskQueue.EnqueueAll(q1, Offers(b.logs, env.usedPercent));
      Stopped(Drain(requeued.0, [h], ServerError, requeued.1))
    else if t.ending.Interrupted? || env.interruptedDuring(n) then
      Stopped(Drain(q1, [h], ThreadInterrupted, []))
    else
      Continued(q1, h)
  }

  /** `drainQueue` on the sender's queue, from the n-th batch on. */
  function DrainQueue(q: DiskQueue.DiskQueue, env: Environment, n: nat): Drain
    decreases |q.store|
  {
    if q.store == [] then Drain(q, [], Drained, [])
    else match DrainTurn(q, env, n)
      case Stopped(d) => d
      case Continued(q1, h) =>
        var d := DrainQueue(q1, env, n + 1);
        d.(handled := [h] + d.handled)
  }

  /** The records of the handled batches, in order. */
  function Batches(hs: seq<Handled>): seq<Bytes> {
    if hs == [] then [] else hs[0].batch + Batches(hs[1..])
  }

  /** What one turn does: it sends the next batch as the n-th send; the loop
      goes on exactly when that send returned with no interrupt; the settings of
      the queue do not change; and the records are accounted for as in
      `DrainAccounting`, for this one batch. */
  lemma TurnFacts(q: DiskQueue.DiskQueue, env: Environment, n: nat)
    requires q.store != []
    ensures var turn := DrainTurn(q, env, n);
      var b := DequeueUpToMaxBatchSize(q.store);
      var t := env.sends(n);
      && (turn.Continued? <==> t.ending.Returned? && !env.interruptedDuring(n))
      && (turn.Continued? ==> turn.handled == Handled(b.logs, t) && turn.rest == q.(store := b.rest))
      && (turn.Stopped? ==>
            && turn.drain.handled == [Handled(b.logs, t)]
            && turn.drain.queue == q.(store := turn.drain.queue.store)
            && (turn.drain.stop == ServerError <==> t.ending.GaveUp?)
            && (turn.drain.stop == ThreadInterrupted <==> !t.ending.GaveUp?)
            && turn.drain.stop != Drained)
  {
    var b := DequeueUpToMaxBatchSize(q.store);
    if env.sends(n).ending.GaveUp? {
      DiskQueue.EnqueueAllAppendsAdmitted(q.(store := b.rest), Offers(b.logs, env.usedPercent));
    }
  }

  /** Where one turn puts the records: after a server error the batch is back at the tail if
      the gate lets it in, and otherwise lost with one warning per record. */
  lemma TurnRecords(q: DiskQueue.DiskQueue, env: Environment, n: nat)
    requires q.store != []
    ensures var turn := DrainTurn(q, env, n);
      var b := DequeueUpToMaxBatchSize(q.store);
      && (turn.Stopped? && turn.drain.stop == ThreadInterrupted ==>
            turn.drain.queue.store == b.rest && turn.drain.warnings == [])
      && (turn.Stopped? && turn.drain.stop == ServerError ==>
            if DiskQueue.IsEnoughSpace(q, env.usedPercent) then
              turn.drain.queue.store == b.rest + b.logs && turn.drain.warnings == []
            else
              turn.drain.queue.store == b.rest && |turn.drain.warnings| == |b.logs|)
  {
    var b := DequeueUpToMaxBatchSize(q.store);
    if env.sends(n).ending.GaveUp? {
      var offers := Offers(b.logs, env.usedPercent);
      DiskQueue.EnqueueAllAppendsAdmitted(q.(store := b.rest), offers);
      AdmittedAtOneReading(q.dontCheck, q.fsPercentThreshold, b.logs, env.usedPercent);
      if !DiskQueue.IsEnoughSpace(q, env.usedPercent) {
        assert b.rest + [] == b.rest;
      }
    }
  }

  /** Only the queue's contents change, and a batch is handled exactly when the
      queue was not empty. */
  lemma {:induction false} DrainKeepsSettings(q: DiskQueue.DiskQueue, env: Environment, n: nat)
    ensures var d := DrainQueue(q, env, n);
      && d.queue == q.(store := d.queue.store)
      && (d.handled == [] <==> q.store == [])
      && (d.handled == [] ==> d.stop == Drained && d.queue == q)
    decreases |q.store|
  {
    if q.store != [] {
      TurnFacts(q, env, n);
      var turn := DrainTurn(q, env, n);
      if turn.Continued? {
        DrainKeepsSettings(turn.rest, env, n + 1);
      }
    }
  }

  /** The k-th handled batch had the (n+k)-th send, and every batch but the
      last was sent without a server error or an interrupt. */
  predicate SentInOrder(hs: seq<Handled>, env: Environment, n: nat) {
    && (forall k :: 0 <= k < |hs| ==> hs[k].transmission == env.sends(n + k))
    && (forall k :: 0 <= k < |hs| - 1 ==>
          hs[k].transmission.ending.Returned? && !env.interruptedDuring(n + k))
  }

  lemma SentInOrderCons(h: Handled, hs: seq<Handled>, env: Environment, n: nat)
    requires SentInOrder(hs, env, n + 1)
    requires h.transmission == env.sends(n)
    requires hs != [] ==> h.transmission.ending.Returned? && !env.interruptedDuring(n)
    ensures SentInOrder([h] + hs, env, n)
  {
    var hs' := [h] + hs;
    forall k | 0 <= k < |hs'|
      ensures hs'[k].transmission == env.sends(n + k)
    {
      if k > 0 {
        assert hs'[k] == hs[k - 1];
        assert n + 1 + (k - 1) == n + k;
      }
    }
    forall k | 0 <= k < |hs'| - 1
      ensures hs'[k].transmission.ending.Returned? && !env.interruptedDuring(n + k)
    {
      if k > 0 {
        assert hs'[k] == hs[k - 1];
        assert n + 1 + (k - 1) == n + k;
      }
    }
  }

  /** The batches are sent in turn, and only the last send may end the drain. */
  lemma {:induction false} DrainSends(q: DiskQueue.DiskQueue, env: Environment, n: nat)
    ensures SentInOrder(DrainQueue(q, env, n).handled, env, n)
    decreases |q.store|
  {
    if q.store != [] {
      TurnFacts(q, env, n);
      var turn := DrainTurn(q, env, n);
      if turn.Continued? {
        DrainSends(turn.rest, env, n + 1);
        SentInOrderCons(turn.handled, DrainQueue(turn.rest, env, n + 1).handled, env, n);
      }
    }
  }

  /** The last batch's send accounts for the stop: a server error is a send
      that gave up; an interrupt is an interrupted back-off or an interrupt
      during a send that returned; and a drain that ran dry left the queue empty. */
  predicate StopExplained(d: Drain, env: Environment, n: nat) {
    d.handled != [] ==>
      var last := |d.handled| - 1;
      var ending := d.handled[last].transmission.ending;
      && (d.stop == ServerError <==> ending.GaveUp?)
      && (d.stop == ThreadInterrupted <==>
            ending.Interrupted? || (ending.Returned? && env.interruptedDuring(n + last)))
      && (d.stop == Drained ==> ending.Returned? && d.queue.store == [])
  }

  lemma StopExplainedCons(h: Handled, d: Drain, env: Environment, n: nat)
    requires StopExplained(d, env, n + 1)
    requires d.handled == [] ==>
               d.stop == Drained && d.queue.store == []
               && h.transmission.ending.Returned? && !env.interruptedDuring(n)
    ensures StopExplained(d.(handled := [h] + d.handled), env, n)
  {
    var hs := [h] + d.handled;
    if d.handled != [] {
      assert hs[|hs| - 1] == d.handled[|d.handled| - 1];
      assert n + 1 + (|d.handled| - 1) == n + (|hs| - 1);
    }
  }

  lemma {:induction false} DrainStopReason(q: DiskQueue.DiskQueue, env: Environment, n: nat)
    ensures StopExplained(DrainQueue(q, env, n), env, n)
    decreases |q.store|
  {
    if q.store != [] {
      TurnFacts(q, env, n);
      var turn := DrainTurn(q, env, n);
      if turn.Continued? {
        DrainStopReason(turn.rest, env, n + 1);
        DrainKeepsSettings(turn.rest, env, n + 1);
        StopExplainedCons(turn.handled, DrainQueue(turn.rest, env, n + 1), env, n);
      }
    }
  }

  /** The records of handled batches followed by records still queued. */
  lemma BatchesCons(h: Handled, hs: seq<Handled>, tail: seq<Bytes>)
    ensures Batches([h] + hs) + tail == h.batch + (Batches(hs) + tail)
  {
    assert ([h] + hs)[1..] == hs;
  }

  /** Ran dry: every non-empty record was sent, in order. */
  predicate AllSent(store: seq<Bytes>, d: Drain) {
    d.queue.store == [] && Batches(d.handled) == NonEmpty(store) && d.warnings == []
  }

  /** Interrupted: the non-empty records were sent, in order, or are still
      queued behind them. */
  predicate SentOrKept(store: seq<Bytes>, d: Drain) {
    Batches(d.handled) + NonEmpty(d.queue.store) == NonEmpty(store) && d.warnings == []
  }

  /** Server error with the gate open: the failed batch is back at the tail. */
  predicate FailedRequeued(store: seq<Bytes>, d: Drain) {
    && d.handled != []
    && var r := d.queue.store;
       var failed := d.handled[|d.handled| - 1].batch;
       && |r| >= |failed|
       && r[|r| - |failed|..] == failed
       && Batches(d.handled) + NonEmpty(r[..|r| - |failed|]) == NonEmpty(store)
       && d.warnings == []
  }

  /** Server error with the gate shut: the failed batch is lost, one warning
      per record. */
  predicate FailedLost(store: seq<Bytes>, d: Drain) {
    && d.handled != []
    && Batches(d.handled) + NonEmpty(d.queue.store) == NonEmpty(store)
    && |d.warnings| == |d.handled[|d.handled| - 1].batch|
  }

  /** Where the records go, for a drain that began on `store` with the gate
      open or shut. Every non-empty record is handed to the transport exactly
      once, in queue order, or is still queued at the end; empty records are
      discarded. After a server error the failed batch is back at the tail of
      the queue if the gate lets it in, and is otherwise lost with one warning
      per record. */
  predicate Accounted(store: seq<Bytes>, gateOpen: bool, d: Drain) {
    && (d.stop == Drained ==> AllSent(store, d))
    && (d.stop == ThreadInterrupted ==> SentOrKept(store, d))
    && (d.stop == ServerError && gateOpen ==> FailedRequeued(store, d))
    && (d.stop == ServerError && !gateOpen ==> FailedLost(store, d))
  }

  lemma AllSentCons(h: Handled, d: Drain, store: seq<Bytes>, rest: seq<Bytes>)
    requires AllSent(rest, d)
    requires h.batch + NonEmpty(rest) == NonEmpty(store)
    ensures AllSent(store, d.(handled := [h] + d.handled))
  {
    BatchesCons(h, d.handled, []);
    assert Batches(d.handled) + [] == Batches(d.handled);
    assert Batches([h] + d.handled) + [] == Batches([h] + d.handled);
  }

  lemma SentOrKeptCons(h: Handled, d: Drain, store: seq<Bytes>, rest: seq<Bytes>)
    requires SentOrKept(rest, d)
    requires h.batch + NonEmpty(rest) == NonEmpty(store)
    ensures SentOrKept(store, d.(handled := [h] + d.handled))
  {
    BatchesCons(h, d.handled, NonEmpty(d.queue.store));
  }

  lemma FailedRequeuedCons(h: Handled, d: Drain, store: seq<Bytes>, rest: seq<Bytes>)
    requires FailedRequeued(rest, d)
    requires h.batch + NonEmpty(rest) == NonEmpty(store)
    ensures FailedRequeued(store, d.(handled := [h] + d.handled))
  {
    var hs := [h] + d.handled;
    var r := d.queue.store;
    var failed := d.handled[|d.handled| - 1].batch;
    assert hs[|hs| - 1] == d.handled[|d.handled| - 1];
    BatchesCons(h, d.handled, NonEmpty(r[..|r| - |failed|]));
  }

  lemma FailedLostCons(h: Handled, d: Drain, store: seq<Bytes>, rest: seq<Bytes>)
    requires FailedLost(rest, d)
    requires h.batch + NonEmpty(rest) == NonEmpty(store)
    ensures FailedLost(store, d.(handled := [h] + d.handled))
  {
    var hs := [h] + d.handled;
    assert hs[|hs| - 1] == d.handled[|d.handled| - 1];
    BatchesCons(h, d.handled, NonEmpty(d.queue.store));
  }

  /** Accounting survives a batch that was sent in front of the drain's rest. */
  lemma AccountedCons(h: Handled, d: Drain, store: seq<Bytes>, rest: seq<Bytes>, gateOpen: bool)
    requires Accounted(rest, gateOpen, d)
    requires h.batch + NonEmpty(rest) == NonEmpty(store)
    ensures Accounted(store, gateOpen, d.(handled := [h] + d.handled))
  {
    if d.stop == Drained {
      AllSentCons(h, d, store, rest);
    } else if d.stop == ThreadInterrupted {
      SentOrKeptCons(h, d, store, rest);
    } else if gateOpen {
      FailedRequeuedCons(h, d, store, rest);
    } else {
      FailedLostCons(h, d, store, rest);
    }
  }

  /** A turn that stops accounts for the records of its one batch. */
  lemma TurnAccounted(q: DiskQueue.DiskQueue, env: Environment, n: nat)
    requires q.store != [] && DrainTurn(q, env, n).Stopped?
    ensures Accounted(q.store, DiskQueue.IsEnoughSpace(q, env.usedPercent), DrainTurn(q, env, n).drain)
  {
    TurnFacts(q, env, n);
    TurnRecords(q, env, n);
    DequeueTakesPrefix(q.store);
    var b := DequeueUpToMaxBatchSize(q.store);
    var d := DrainTurn(q, env, n).drain;
    assert d.handled[1..] == [];
    assert Batches(d.handled) == b.logs;
    var r := d.queue.store;
    if d.stop == ServerError && DiskQueue.IsEnoughSpace(q, env.usedPercent) {
      assert r[..|r| - |b.logs|] == b.rest;
      assert r[|r| - |b.logs|..] == b.logs;
    }
  }

  lemma {:induction false} DrainAccounting(q: DiskQueue.DiskQueue, env: Environment, n: nat)
    ensures Accounted(q.store, DiskQueue.IsEnoughSpace(q, env.usedPercent), DrainQueue(q, env, n))
    decreases |q.store|
  {
    if q.store != [] {
      var turn := DrainTurn(q, env, n);
      if turn.Continued? {
        TurnFacts(q, env, n);
        DequeueTakesPrefix(q.store);
        var b := DequeueUpToMaxBatchSize(q.store);
        DrainAccounting(turn.rest, env, n + 1);
        AccountedCons(turn.handled, DrainQueue(turn.rest, env, n + 1), q.store, b.rest,
                      DiskQueue.IsEnoughSpace(q, env.usedPercent));
      } else {
        TurnAccounted(q, env, n);
      }
    } else {
      assert NonEmpty(q.store) == [];
    }
  }
  // ------------------------------------------------------- drain scenarios

  /** When every send returns and nothing interrupts the thread, the drain
      empties the queue and delivers every non-empty record once, in order. */
  lemma DrainAllDelivered(q: DiskQueue.DiskQueue, env: Environment, n: nat)
    requires forall k: nat :: env.sends(k).ending.Returned? && !env.interruptedDuring(k)
    ensures DrainQueue(q, env, n).stop == Drained
    ensures DrainQueue(q, env, n).queue == q.(store := [])
    ensures Batches(DrainQueue(q, env, n).handled) == NonEmpty(q.store)
    ensures DrainQueue(q, env, n).warnings == []
  {
    var d := DrainQueue(q, env, n);
    DrainKeepsSettings(q, env, n);
    DrainSends(q, env, n);
    DrainStopReason(q, env, n);
    DrainAccounting(q, env, n);
    if d.handled != [] {
      var last := |d.handled| - 1;
      assert d.handled[last].transmission == env.sends(n + last);
      assert !env.interruptedDuring(n + last);
    }
  }

  /** A first send that gives up, with room on the disk, puts the whole batch
      back behind the rest of the queue and stops: the same non-empty records
      are queued as before, none lost or repeated. */
  lemma ServerErrorRequeuesBatch(q: DiskQueue.DiskQueue, env: Environment, n: nat)
    requires q.store != [] && env.sends(n).ending.GaveUp?
    requires DiskQueue.IsEnoughSpace(q, env.usedPercent)
    ensures var b := DequeueUpToMaxBatchSize(q.store);
      var d := DrainQueue(q, env, n);
      && d.stop == ServerError
      && d.handled == [Handled(b.logs, env.sends(n))]
      && d.queue == q.(store := b.rest + b.logs)
      && d.warnings == []
      && multiset(NonEmpty(d.queue.store)) == multiset(NonEmpty(q.store))
  {
    var b := DequeueUpToMaxBatchSize(q.store);
    TurnFacts(q, env, n);
    TurnRecords(q, env, n);
    DequeueTakesPrefix(q.store);
    NonEmptyAppend(b.rest, b.logs);
    NonEmptyIdempotent(b.logs);
  }

  /** A batch whose back-off sleep was interrupted is not put back: the drain
      stops with the rest of the queue in place. */
  lemma InterruptedBatchNotRequeued(q: DiskQueue.DiskQueue, env: Environment, n: nat)
    requires q.store != [] && env.sends(n).ending.Interrupted?
    ensures var b := DequeueUpToMaxBatchSize(q.store);
      var d := DrainQueue(q, env, n);
      && d.stop == ThreadInterrupted
      && d.handled == [Handled(b.logs, env.sends(n))]
      && d.queue == q.(store := b.rest)
      && d.warnings == []
  {
    TurnFacts(q, env, n);
    TurnRecords(q, env, n);
  }

  /** The records of the handled batches: those before the last batch, then it. */
  lemma {:induction false} BatchesSnoc(hs: seq<Handled>)
    requires hs != []
    ensures Batches(hs) == Batches(hs[..|hs| - 1]) + hs[|hs| - 1].batch
    decreases |hs|
  {
    if |hs| > 1 {
      BatchesSnoc(hs[1..]);
      assert hs[1..][..|hs| - 2] == hs[..|hs| - 1][1..];
      AppendAssoc(hs[0].batch, Batches(hs[1..][..|hs| - 2]), hs[|hs| - 1].batch);
    } else {
      assert hs[..0] == [];
      assert hs[1..] == [];
      assert hs[0].batch + [] == hs[0].batch;
    }
  }

  /** Records delivered, then a failed batch, then the non-empty records still
      queued ahead of it make up the non-empty records of `store`; moving the
      failed batch behind the queued records keeps the same multiset. */
  lemma RequeuedSameRecords(earlier: seq<Bytes>, failed: seq<Bytes>, kept: seq<Bytes>, store: seq<Bytes>)
    requires earlier + failed + NonEmpty(kept) == NonEmpty(store)
    ensures multiset(earlier + NonEmpty(kept + failed)) == multiset(NonEmpty(store))
  {
    var all := earlier + failed + NonEmpty(kept);
    forall i | 0 <= i < |failed|
      ensures |failed[i]| > 0
    {
      assert failed[i] == all[|earlier| + i];
    }
    NonEmptyIdempotent(failed);
    NonEmptyAppend(kept, failed);
    assert multiset(all) == multiset(earlier) + multiset(failed) + multiset(NonEmpty(kept));
  }

  /** A drain that put its failed batch back has lost nothing: the records
      delivered before that batch, with what is queued at the end, are the
      non-empty records it began with. */
  lemma RequeuedLosesNothing(store: seq<Bytes>, d: Drain)
    requires FailedRequeued(store, d)
    ensures multiset(Batches(d.handled[..|d.handled| - 1]) + NonEmpty(d.queue.store))
            == multiset(NonEmpty(store))
  {
    var r := d.queue.store;
    var failed := d.handled[|d.handled| - 1].batch;
    var kept := r[..|r| - |failed|];
    var earlier := Batches(d.handled[..|d.handled| - 1]);
    BatchesSnoc(d.handled);
    assert earlier + failed + NonEmpty(kept) == NonEmpty(store);
    SuffixSplit(r, failed);
    RequeuedSameRecords(earlier, failed, kept, store);
  }

  /** A sequence that ends with `suffix` is its front followed by `suffix`. */
  lemma SuffixSplit<T>(r: seq<T>, suffix: seq<T>)
    requires |r| >= |suffix| && r[|r| - |suffix|..] == suffix
    ensures r == r[..|r| - |suffix|] + suffix
  {
  }

  /** No loss on a server error with room on the disk: the records delivered
      before the failed batch, together with what is queued at the end, are the
      non-empty records the drain began with. */
  lemma ServerErrorLosesNothing(q: DiskQueue.DiskQueue, env: Environment, n: nat)
    requires DrainQueue(q, env, n).stop == ServerError
    requires DiskQueue.IsEnoughSpace(q, env.usedPercent)
    ensures DrainQueue(q, env, n).handled != []
    ensures var d := DrainQueue(q, env, n);
      multiset(Batches(d.handled[..|d.handled| - 1]) + NonEmpty(d.queue.store))
      == multiset(NonEmpty(q.store))
  {
    DrainAccounting(q, env, n);
    RequeuedLosesNothing(q.store, DrainQueue(q, env, n));
  }

  lemma RecoveredRecords(store: seq<Bytes>, d1: Drain, d2: Drain)
    requires FailedRequeued(store, d1)
    requires Batches(d2.handled) == NonEmpty(d1.queue.store)
    ensures multiset(Batches(d1.handled[..|d1.handled| - 1]) + Batches(d2.handled))
            == multiset(NonEmpty(store))
  {
    RequeuedLosesNothing(store, d1);
  }

  /** After a server error with room on the disk, a later drain in which every
      send returns delivers what was put back and empties the queue: across the
      two drains, every non-empty record the first one began with is delivered
      exactly once. */
  lemma RecoveryAfterServerError(q: DiskQueue.DiskQueue, env1: Environment, env2: Environment)
    requires DrainQueue(q, env1, 0).stop == ServerError
    requires DiskQueue.IsEnoughSpace(q, env1.usedPercent)
    requires forall k: nat :: env2.sends(k).ending.Returned? && !env2.interruptedDuring(k)
    ensures DrainQueue(q, env1, 0).handled != []
    ensures var d1 := DrainQueue(q, env1, 0);
      var d2 := DrainQueue(d1.queue, env2, 0);
      && d2.queue.store == []
      && multiset(Batches(d1.handled[..|d1.handled| - 1]) + Batches(d2.handled))
         == multiset(NonEmpty(q.store))
  {
    var d1 := DrainQueue(q, env1, 0);
    DrainAccounting(q, env1, 0);
    DrainAllDelivered(d1.queue, env2, 0);
    RecoveredRecords(q.store, d1, DrainQueue(d1.queue, env2, 0));
  }

  // ----------------------------------------------------------- the sender

  /** The sender's view of the drain: the n-th batch is posted to the n-th
      network with the legacy send loop. */
  function SenderEnvironment(networks: nat -> Network, interruptedDuring: nat -> bool, usedPercent: int): Environment {
    Environment((k: nat) => SendToLogzio(networks(k)), interruptedDuring, usedPercent)
  }

  datatype SenderDrain = SenderDrain(sender: Sender, drain: Drain)

  /** `drainQueue` on a sender: the drain runs on the sender's queue, and
      nothing of the sender but its queue changes. */
  function DrainSender(s: Sender, networks: nat -> Network, interruptedDuring: nat -> bool, usedPercent: int): (r: SenderDrain)
    ensures r.sender == s.(logsBuffer := r.drain.queue)
    ensures r.drain.queue == s.logsBuffer.(store := r.drain.queue.store)
  {
    var env := SenderEnvironment(networks, interruptedDuring, usedPercent);
    DrainKeepsSettings(s.logsBuffer, env, 0);
    var d := DrainQueue(s.logsBuffer, env, 0);
    SenderDrain(s.(logsBuffer := d.queue), d)
  }

  /** Batches sent in order through the sender's environment went out on the
      networks in order, each with the legacy loop's at most three attempts. */
  lemma SentOnNetworks(hs: seq<Handled>, networks: nat -> Network, interruptedDuring: nat -> bool, usedPercent: int)
    requires SentInOrder(hs, SenderEnvironment(networks, interruptedDuring, usedPercent), 0)
    ensures forall k :: 0 <= k < |hs| ==>
              && hs[k].transmission == SendToLogzio(networks(k))
              && 1 <= |hs[k].transmission.responses| <= MAX_RETRIES_ATTEMPTS
    ensures forall k :: 0 <= k < |hs| - 1 ==>
              hs[k].transmission.ending.Returned? && !interruptedDuring(k)
  {
    var env := SenderEnvironment(networks, interruptedDuring, usedPercent);
    forall k | 0 <= k < |hs|
      ensures hs[k].transmission == SendToLogzio(networks(k))
      ensures 1 <= |hs[k].transmission.responses| <= MAX_RETRIES_ATTEMPTS
    {
      assert hs[k].transmission == env.sends(0 + k);
    }
    forall k | 0 <= k < |hs| - 1
      ensures hs[k].transmission.ending.Returned? && !interruptedDuring(k)
    {
      assert hs[k].transmission.ending.Returned? && !env.interruptedDuring(0 + k);
    }
  }

  /** Through a sender, the k-th batch is sent on the k-th network with at most
      three attempts, only the last batch's send may have failed or been
      interrupted, and the sender's records are accounted for as `Accounted`
      says. */
  lemma DrainSenderSends(s: Sender, networks: nat -> Network, interruptedDuring: nat -> bool, usedPercent: int)
    ensures var d := DrainSender(s, networks, interruptedDuring, usedPercent).drain;
      && Accounted(s.logsBuffer.store, DiskQueue.IsEnoughSpace(s.logsBuffer, usedPercent), d)
      && (forall k :: 0 <= k < |d.handled| ==>
            && d.handled[k].transmission == SendToLogzio(networks(k))
            && 1 <= |d.handled[k].transmission.responses| <= MAX_RETRIES_ATTEMPTS)
      && (forall k :: 0 <= k < |d.handled| - 1 ==>
            d.handled[k].transmission.ending.Returned? && !interruptedDuring(k))
  {
    var env := SenderEnvironment(networks, interruptedDuring, usedPercent);
    var d := DrainQueue(s.logsBuffer, env, 0);
    assert DrainSender(s, networks, interruptedDuring, usedPercent).drain == d;
    DrainAccounting(s.logsBuffer, env, 0);
    DrainSends(s.logsBuffer, env, 0);
    SentOnNetworks(d.handled, networks, interruptedDuring, usedPercent);
  }

  /** With a listener that always fails, the legacy send tries three times,
      sleeping 2000 ms and then 4000 ms, and gives up with the last status. */
  lemma LegacyGivesUpAfterThreeAttempts(net: Network)
    requires forall k: nat :: Sync.Retryable(net(k).response) && !net(k).sleepInterrupted
    ensures SendToLogzio(net)
            == Transmission(GaveUp(CodeOf(net(3).response)),
                            [net(1).response, net(2).response, net(3).response], [2000, 4000])
  {
    var config := Config.Configuration(None, MAX_RETRIES_ATTEMPTS, INITIAL_WAIT_BEFORE_RETRY_MS,
                                       0, 0, None, DEFAULT_URL, false, None);
    SendToLogzioMatchesHttpsSyncSender(config, net);
    Sync.DefaultsGiveUpAfterThreeAttempts(config, net);
  }
}
