/**
 The synchronous HTTPS transport: the payload is every message followed by a
 newline byte, and the send loop makes up to `maxRetriesAttempts` attempts,
 stopping at the first response that does not call for a retry, giving up with
 a server error after the last allowed attempt, and doubling its back-off sleep
 after each failed one. An interrupted sleep ends the send normally, with the
 thread's interrupt flag set again.
 */
module HttpsSyncSender {
  import opened Common
  import opened Transport
  import Config = HttpsRequestConfiguration

  /** The request body: each message followed by `'\n'`. */
  function ToNewLineSeparatedByteArray(messages: seq<Bytes>): (payload: Bytes)
    ensures |payload| == TotalBytes(messages) + |messages|
    decreases |messages|
  {
    if messages == [] then []
    else messages[0] + [NEW_LINE] + ToNewLineSeparatedByteArray(messages[1..])
  }

  /** The index of the first newline byte, or the length if there is none. */
  function FirstNewLine(p: Bytes): (i: nat)
    ensures i <= |p|
    ensures i < |p| ==> p[i] == NEW_LINE
    ensures forall j :: 0 <= j < i ==> p[j] != NEW_LINE
    decreases |p|
  {
    if p == [] then 0
    else if p[0] == NEW_LINE then 0
    else 1 + FirstNewLine(p[1..])
  }

  /** How a receiver reads the body back: one message per newline-terminated
      line, with an unterminated tail as a last message. */
  function SplitLines(p: Bytes): seq<Bytes>
    decreases |p|
  {
    if p == [] then []
    else
      var i := FirstNewLine(p);
      if i == |p| then [p] else [p[..i]] + SplitLines(p[i + 1..])
  }

  /** Messages without an embedded newline are read back one for one from the body. */
  lemma {:induction false} SplitLinesInvertsPayload(messages: seq<Bytes>)
    requires forall k :: 0 <= k < |messages| ==> NEW_LINE !in messages[k]
    ensures SplitLines(ToNewLineSeparatedByteArray(messages)) == messages
    decreases |messages|
  {
    if messages != [] {
      var m := messages[0];
      var rest := ToNewLineSeparatedByteArray(messages[1..]);
      var p := m + [NEW_LINE] + rest;
      assert p == ToNewLineSeparatedByteArray(messages);
      assert p[|m|] == NEW_LINE;
      assert forall j :: 0 <= j < |m| ==> p[j] == m[j];
      assert forall j :: 0 <= j < |m| ==> p[j] != NEW_LINE;
      var i := FirstNewLine(p);
      assert i == |m|;
      assert p[..i] == m;
      assert p[i + 1..] == rest;
      SplitLinesInvertsPayload(messages[1..]);
      assert [m] + messages[1..] == messages;
    }
  }

  /** `handleResponse`: 200, 400 and 401 end the send; any other status is retried. */
  predicate HandleResponse(responseCode: int) {
    responseCode != 200 && responseCode != 400 && responseCode != 401
  }

  /** An I/O failure is always retried. */
  predicate Retryable(r: Response) {
    r.IOFail? || HandleResponse(r.status)
  }

  datatype RetryStep = GiveUp(code: int) | NegativeSleep(sleepMs: int) | Backoff(sleepMs: int, nextSleepMs: int)

  /** `handleRetry`: after the last allowed attempt, give up with the status;
      otherwise sleep for the current back-off, which `Thread.sleep` refuses
      when it is negative, and double it in `int` arithmetic. */
  function HandleRetry(maxRetries: int, currentRetrySleep: int, currTry: int, responseCode: int): (step: RetryStep)
    ensures step.GiveUp? <==> currTry == maxRetries
    ensures step.GiveUp? ==> step.code == responseCode
    ensures step.NegativeSleep? <==> currTry != maxRetries && currentRetrySleep < 0
    ensures step.NegativeSleep? ==> step.sleepMs == currentRetrySleep
    ensures step.Backoff? ==>
              && step.sleepMs == currentRetrySleep >= 0
              && step.nextSleepMs == JavaInt(2 * currentRetrySleep)
              && (2 * currentRetrySleep < -INT_MIN ==> step.nextSleepMs == 2 * currentRetrySleep)
              && (-INT_MIN <= 2 * currentRetrySleep < INT_MODULUS ==> step.nextSleepMs < 0)
  {
    if currTry == maxRetries then GiveUp(responseCode)
    else if currentRetrySleep < 0 then NegativeSleep(currentRetrySleep)
    else Backoff(currentRetrySleep, JavaInt(currentRetrySleep * 2))
  }

  /** How many attempts remain from `currTry` on. */
  function Budget(maxRetries: int, currTry: nat): nat {
    if maxRetries >= currTry then maxRetries - currTry + 1 else 0
  }

  /** The k-th back-off after a doubled one is the (k+1)-th after the original. */
  lemma NextBackoff(sleep: int, k: nat)
    ensures JavaInt(JavaInt(2 * sleep) * Pow2(k)) == JavaInt(sleep * Pow2(k + 1))
  {
    JavaIntMul(2 * sleep, Pow2(k));
    assert 2 * sleep * Pow2(k) == sleep * Pow2(k + 1);
  }

  /** The attempt goes on to another one: it is retried, it is not the last
      allowed, its back-off is a valid sleep, and that sleep is not interrupted. */
  predicate Continues(maxRetries: int, currTry: nat, sleep: int, attempt: Try) {
    Retryable(attempt.response) && currTry != maxRetries && sleep >= 0 && !attempt.sleepInterrupted
  }

  /** The send loop from attempt `currTry` on, with back-off `sleep`. */
  function Attempts(maxRetries: int, currTry: nat, sleep: int, net: Network): (t: Transmission)
    requires currTry >= 1
    ensures |t.responses| <= Budget(maxRetries, currTry)
    decreases Budget(maxRetries, currTry)
  {
    if currTry > maxRetries then Transmission(Returned, [], [])
    else
      var attempt := net(currTry);
      if !Retryable(attempt.response) then Transmission(Returned, [attempt.response], [])
      else match HandleRetry(maxRetries, sleep, currTry, CodeOf(attempt.response))
        case GiveUp(code) => Transmission(GaveUp(code), [attempt.response], [])
        case NegativeSleep(ms) => Transmission(BadSleep(ms), [attempt.response], [])
        case Backoff(ms, next) =>
          if attempt.sleepInterrupted then Transmission(Interrupted, [attempt.response], [ms])
          else
            var rest := Attempts(maxRetries, currTry + 1, next, net);
            Transmission(rest.ending, [attempt.response] + rest.responses, [ms] + rest.sleeps)
  }

  /** The responses are the network's, attempt by attempt from `currTry`, and
      every one but the last was retried after an uninterrupted sleep. */
  predicate RetriedInOrder(responses: seq<Response>, net: Network, currTry: nat) {
    && (forall k :: 0 <= k < |responses| ==> responses[k] == net(currTry + k).response)
    && (forall k :: 0 <= k < |responses| - 1 ==>
          Retryable(responses[k]) && !net(currTry + k).sleepInterrupted)
  }

  lemma RetriedInOrderCons(r: Response, rs: seq<Response>, net: Network, currTry: nat)
    requires RetriedInOrder(rs, net, currTry + 1)
    requires r == net(currTry).response
    requires rs != [] ==> Retryable(r) && !net(currTry).sleepInterrupted
    ensures RetriedInOrder([r] + rs, net, currTry)
  {
    var rs' := [r] + rs;
    forall k | 0 <= k < |rs'|
      ensures rs'[k] == net(currTry + k).response
    {
      if k > 0 {
        assert rs'[k] == rs[k - 1];
        assert currTry + 1 + (k - 1) == currTry + k;
      }
    }
    forall k | 0 <= k < |rs'| - 1
      ensures Retryable(rs'[k]) && !net(currTry + k).sleepInterrupted
    {
      if k > 0 {
        assert rs'[k] == rs[k - 1];
        assert currTry + 1 + (k - 1) == currTry + k;
      }
    }
  }

  /** The loop sees the network's responses in order, and retries all but the last. */
  lemma {:induction false} AttemptsInOrder(maxRetries: int, currTry: nat, sleep: int, net: Network)
    requires currTry >= 1
    ensures RetriedInOrder(Attempts(maxRetries, currTry, sleep, net).responses, net, currTry)
    ensures Attempts(maxRetries, currTry, sleep, net).responses == [] <==> maxRetries < currTry
    decreases Budget(maxRetries, currTry)
  {
    if currTry <= maxRetries {
      var attempt := net(currTry);
      if Continues(maxRetries, currTry, sleep, attempt) {
        var next := JavaInt(2 * sleep);
        AttemptsInOrder(maxRetries, currTry + 1, next, net);
        RetriedInOrderCons(attempt.response, Attempts(maxRetries, currTry + 1, next, net).responses, net, currTry);
      }
    }
  }

  /** The last response says why the loop stopped: it needed no retry, it used
      up the attempts, the back-off after it was negative, or the sleep after it
      was interrupted. */
  predicate LastExplains(t: Transmission, maxRetries: int, currTry: nat, net: Network) {
    t.responses != [] ==>
      var last := t.responses[|t.responses| - 1];
      && (t.ending.Returned? <==> !Retryable(last))
      && (t.ending.GaveUp? <==> Retryable(last) && |t.responses| == Budget(maxRetries, currTry))
      && (t.ending.GaveUp? ==> t.ending.lastCode == CodeOf(last))
      && (t.ending.BadSleep? ==> t.ending.sleepMs < 0)
      && (t.ending.Interrupted? ==> net(currTry + |t.responses| - 1).sleepInterrupted)
  }

  lemma {:induction false} AttemptsLast(maxRetries: int, currTry: nat, sleep: int, net: Network)
    requires currTry >= 1
    ensures LastExplains(Attempts(maxRetries, currTry, sleep, net), maxRetries, currTry, net)
    ensures Attempts(maxRetries, currTry, sleep, net).responses == [] ==>
              Attempts(maxRetries, currTry, sleep, net) == Transmission(Returned, [], [])
    decreases Budget(maxRetries, currTry)
  {
    if currTry <= maxRetries {
      var attempt := net(currTry);
      if Continues(maxRetries, currTry, sleep, attempt) {
        var next := JavaInt(2 * sleep);
        AttemptsRetries(maxRetries, currTry, sleep, net);
        AttemptsLast(maxRetries, currTry + 1, next, net);
        AttemptsInOrder(maxRetries, currTry + 1, next, net);
        LastExplainsCons(net(currTry).response, sleep, Attempts(maxRetries, currTry + 1, next, net), maxRetries, currTry, net);
      } else {
        AttemptsStopsAt(maxRetries, currTry, sleep, net);
      }
    }
  }

  /** An attempt put in front of a non-empty rest keeps the rest's explanation. */
  lemma LastExplainsCons(r: Response, sleep: int, rest: Transmission, maxRetries: int, currTry: nat, net: Network)
    requires currTry < maxRetries && rest.responses != []
    requires LastExplains(rest, maxRetries, currTry + 1, net)
    ensures LastExplains(Transmission(rest.ending, [r] + rest.responses, [sleep] + rest.sleeps), maxRetries, currTry, net)
  {
    var t := Transmission(rest.ending, [r] + rest.responses, [sleep] + rest.sleeps);
    assert t.responses[|t.responses| - 1] == rest.responses[|rest.responses| - 1];
    assert currTry + 1 + |rest.responses| - 1 == currTry + |t.responses| - 1;
    assert Budget(maxRetries, currTry) == Budget(maxRetries, currTry + 1) + 1;
  }

  /** An attempt that is not followed by a completed back-off is the last one. */
  lemma AttemptsStopsAt(maxRetries: int, currTry: nat, sleep: int, net: Network)
    requires 1 <= currTry <= maxRetries
    requires !Continues(maxRetries, currTry, sleep, net(currTry))
    ensures Attempts(maxRetries, currTry, sleep, net).responses == [net(currTry).response]
    ensures LastExplains(Attempts(maxRetries, currTry, sleep, net), maxRetries, currTry, net)
  {
    assert Budget(maxRetries, currTry) == 1 <==> currTry == maxRetries;
  }

  /** A retried attempt followed by an uninterrupted sleep leaves the rest of
      the loop to the next attempt, with the back-off doubled. */
  lemma AttemptsRetries(maxRetries: int, currTry: nat, sleep: int, net: Network)
    requires 1 <= currTry < maxRetries
    requires Continues(maxRetries, currTry, sleep, net(currTry))
    ensures var rest := Attempts(maxRetries, currTry + 1, JavaInt(2 * sleep), net);
      Attempts(maxRetries, currTry, sleep, net)
      == Transmission(rest.ending, [net(currTry).response] + rest.responses, [sleep] + rest.sleeps)
  {
  }

  /** The loop sees the network's responses in order; every response but the
      last was retried after an uninterrupted sleep; and the last one says why
      the loop stopped. */
  lemma AttemptsStopReason(maxRetries: int, currTry: nat, sleep: int, net: Network)
    requires currTry >= 1
    ensures var t := Attempts(maxRetries, currTry, sleep, net);
      && (t.responses == [] <==> maxRetries < currTry)
      && (t.responses == [] ==> t == Transmission(Returned, [], []))
      && RetriedInOrder(t.responses, net, currTry)
      && LastExplains(t, maxRetries, currTry, net)
  {
    AttemptsInOrder(maxRetries, currTry, sleep, net);
    AttemptsLast(maxRetries, currTry, sleep, net);
  }

  /** Each sleep is the one before it doubled in `int` arithmetic, starting from `sleep`. */
  predicate DoublingFrom(sleeps: seq<int>, sleep: int) {
    forall k :: 0 <= k < |sleeps| ==> sleeps[k] == JavaInt(sleep * Pow2(k))
  }

  lemma DoublingCons(sleep: int, rest: seq<int>)
    requires IsJavaInt(sleep) && DoublingFrom(rest, JavaInt(2 * sleep))
    ensures DoublingFrom([sleep] + rest, sleep)
  {
    var s := [sleep] + rest;
    forall k | 0 <= k < |s|
      ensures s[k] == JavaInt(sleep * Pow2(k))
    {
      if k > 0 {
        assert s[k] == rest[k - 1];
        NextBackoff(sleep, k - 1);
      }
    }
  }

  /** The sleeps double from `sleep` in `int` arithmetic; there is one sleep
      between consecutive attempts, and one more if it was interrupted; and a
      refused back-off is the next doubling. */
  lemma {:induction false} AttemptsSleeps(maxRetries: int, currTry: nat, sleep: int, net: Network)
    requires currTry >= 1
    requires IsJavaInt(sleep)
    ensures var t := Attempts(maxRetries, currTry, sleep, net);
      && |t.sleeps| == (if t.ending.Interrupted? then |t.responses|
                        else if t.responses == [] then 0 else |t.responses| - 1)
      && DoublingFrom(t.sleeps, sleep)
      && (t.ending.BadSleep? ==> t.ending.sleepMs == JavaInt(sleep * Pow2(|t.responses| - 1)))
    decreases Budget(maxRetries, currTry)
  {
    if currTry <= maxRetries && Continues(maxRetries, currTry, sleep, net(currTry)) {
      var next := JavaInt(2 * sleep);
      var rest := Attempts(maxRetries, currTry + 1, next, net);
      AttemptsRetries(maxRetries, currTry, sleep, net);
      AttemptsInOrder(maxRetries, currTry + 1, next, net);
      AttemptsSleeps(maxRetries, currTry + 1, next, net);
      DoublingCons(sleep, rest.sleeps);
      if rest.ending.BadSleep? {
        NextBackoff(sleep, |rest.responses| - 1);
      }
    }
  }

  /** Every sleep taken is non-negative, and a refused back-off is negative. */
  lemma {:induction false} AttemptsSleepsTaken(maxRetries: int, currTry: nat, sleep: int, net: Network)
    requires currTry >= 1
    ensures var t := Attempts(maxRetries, currTry, sleep, net);
      && (forall k :: 0 <= k < |t.sleeps| ==> t.sleeps[k] >= 0)
      && (t.ending.BadSleep? ==> t.ending.sleepMs < 0)
    decreases Budget(maxRetries, currTry)
  {
    if currTry <= maxRetries && Continues(maxRetries, currTry, sleep, net(currTry)) {
      AttemptsSleepsTaken(maxRetries, currTry + 1, JavaInt(2 * sleep), net);
    }
  }

  /** `sendToLogzio`: the attempts the configuration allows, from the first on. */
  function SendToLogzio(config: Config.Configuration, net: Network): (t: Transmission)
    ensures |t.responses| <= if config.maxRetriesAttempts > 0 then config.maxRetriesAttempts else 0
    ensures t.responses == [] <==> config.maxRetriesAttempts <= 0
    ensures t.ending.GaveUp? <==>
              t.responses != [] && Retryable(t.responses[|t.responses| - 1])
              && |t.responses| == config.maxRetriesAttempts
    ensures forall k :: 0 <= k < |t.responses| - 1 ==> Retryable(t.responses[k])
    ensures t.ending.BadSleep? ==> t.ending.sleepMs < 0
    ensures forall k :: 0 <= k < |t.sleeps| ==> t.sleeps[k] >= 0
    ensures IsJavaInt(config.initialWaitBeforeRetryMS) ==>
              forall k :: 0 <= k < |t.sleeps| ==> t.sleeps[k] == JavaInt(config.initialWaitBeforeRetryMS * Pow2(k))
  {
    AttemptsStopReason(config.maxRetriesAttempts, 1, config.initialWaitBeforeRetryMS, net);
    AttemptsSleepsTaken(config.maxRetriesAttempts, 1, config.initialWaitBeforeRetryMS, net);
    var t := Attempts(config.maxRetriesAttempts, 1, config.initialWaitBeforeRetryMS, net);
    assert IsJavaInt(config.initialWaitBeforeRetryMS) ==>
             forall k :: 0 <= k < |t.sleeps| ==> t.sleeps[k] == JavaInt(config.initialWaitBeforeRetryMS * Pow2(k)) by {
      if IsJavaInt(config.initialWaitBeforeRetryMS) {
        AttemptsSleeps(config.maxRetriesAttempts, 1, config.initialWaitBeforeRetryMS, net);
      }
    }
    t
  }

  /** A negative first back-off ends the send at the first retry, before any sleep. */
  lemma NegativeWaitEndsAtFirstRetry(config: Config.Configuration, net: Network)
    requires config.maxRetriesAttempts >= 2 && config.initialWaitBeforeRetryMS < 0
    requires Retryable(net(1).response)
    ensures SendToLogzio(config, net) == Transmission(BadSleep(config.initialWaitBeforeRetryMS), [net(1).response], [])
  {
  }

  /** Doubling 2000 ms in `int` stays positive for twenty doublings and wraps
      negative on the twenty-first. */
  lemma DefaultBackoffWraps(k: nat)
    ensures k <= 20 ==> JavaInt(2000 * Pow2(k)) == 2000 * Pow2(k) > 0
    ensures JavaInt(2000 * Pow2(21)) == -100663296
  {
    Pow2Twenty();
    assert JavaInt(4194304000) == -100663296;
    if k <= 20 {
      Pow2Monotone(k, 20);
      assert 2000 * Pow2(k) <= 2097152000;
    }
  }

  lemma Pow2Twenty()
    ensures Pow2(20) == 1048576 && Pow2(21) == 2097152
  {
    assert Pow2(10) == 1024;
  }

  lemma {:induction false} Pow2Monotone(i: nat, j: nat)
    requires i <= j
    ensures Pow2(i) <= Pow2(j)
    decreases j
  {
    if i < j {
      Pow2Monotone(i, j - 1);
    }
  }

  /** With the default 2000 ms back-off and more than 22 attempts allowed, a
      listener that always fails is tried 22 times: the 22nd back-off has wrapped
      negative, so `Thread.sleep` refuses it and the send ends there. */
  lemma WrappedBackoffEndsSend(config: Config.Configuration, net: Network)
    requires config.maxRetriesAttempts > 22 && config.initialWaitBeforeRetryMS == 2000
    requires forall n: nat :: Retryable(net(n).response) && !net(n).sleepInterrupted
    ensures var t := SendToLogzio(config, net);
      && t.ending == BadSleep(-100663296)
      && |t.responses| == 22
      && |t.sleeps| == 21
  {
    var t := SendToLogzio(config, net);
    var n := |t.responses|;
    AttemptsStopReason(config.maxRetriesAttempts, 1, 2000, net);
    AttemptsSleeps(config.maxRetriesAttempts, 1, 2000, net);
    AttemptsSleepsTaken(config.maxRetriesAttempts, 1, 2000, net);
    assert n >= 1 && Retryable(t.responses[n - 1]);
    assert !net(n).sleepInterrupted;
    assert t.ending.GaveUp? || t.ending.BadSleep?;
    assert |t.sleeps| == n - 1;
    if n - 1 > 21 {
      DefaultBackoffWraps(21);
      assert false;
    }
    assert t.ending.BadSleep?;
    DefaultBackoffWraps(n - 1);
    assert n - 1 == 21;
  }

  /** A first response that needs no retry ends the send at once, with no sleep. */
  lemma FirstFinalResponseStops(config: Config.Configuration, net: Network)
    requires config.maxRetriesAttempts >= 1
    requires !Retryable(net(1).response)
    ensures SendToLogzio(config, net) == Transmission(Returned, [net(1).response], [])
  {
    AttemptsStopReason(config.maxRetriesAttempts, 1, config.initialWaitBeforeRetryMS, net);
  }

  /** With the default three attempts and 2000 ms back-off, a listener that
      always fails is tried three times, with sleeps of 2000 and 4000 ms, and the
      send gives up with the last status. */
  lemma DefaultsGiveUpAfterThreeAttempts(config: Config.Configuration, net: Network)
    requires config.maxRetriesAttempts == 3 && config.initialWaitBeforeRetryMS == 2000
    requires forall n: nat :: Retryable(net(n).response) && !net(n).sleepInterrupted
    ensures var t := SendToLogzio(config, net);
      && t.ending == GaveUp(CodeOf(net(3).response))
      && t.responses == [net(1).response, net(2).response, net(3).response]
      && t.sleeps == [2000, 4000]
  {
    var t := SendToLogzio(config, net);
    AttemptsStopReason(3, 1, 2000, net);
    AttemptsSleeps(3, 1, 2000, net);
    assert Pow2(1) == 2;
    assert |t.responses| == 3;
  }
}
