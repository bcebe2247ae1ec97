/**
 The bounded in-memory queue: a FIFO of serialized records with a running
 byte total. A record is admitted only while the total held is below the
 capacity, unless the capacity is the "do not limit" sentinel; a refused
 record is dropped (never queued) and a warning goes to the reporter.
 */
module InMemoryQueue {
  import opened Common

  /** Passing this capacity to the builder switches the capacity check off. */
  const DONT_LIMIT_BUFFER_SPACE: int := -1

  const DEFAULT_CAPACITY_IN_BYTES: int := 100 * ONE_MEGABYTE

  /** `logs` is the queue, head first; `size` the running byte total. */
  datatype Queue = Queue(logs: seq<Bytes>, size: int, dontCheck: bool, capacityInBytes: int)

  /** The running total is the number of bytes held. */
  ghost predicate Valid(q: Queue) {
    q.size == TotalBytes(q.logs)
  }

  datatype Enqueued = Enqueued(queue: Queue, warning: Option<Warning>)

  datatype Dequeued = Dequeued(queue: Queue, log: Bytes)

  /** The admission rule: it looks only at the total held before the record. */
  predicate IsEnoughSpace(q: Queue) {
    q.dontCheck || q.size < q.capacityInBytes
  }

  /** The warning reported for a dropped record names the capacity in whole megabytes. */
  function DropWarning(q: Queue): Warning {
    MemoryThresholdCrossed(JavaDiv(q.capacityInBytes, ONE_MEGABYTE))
  }

  function Enqueue(q: Queue, log: Bytes): (r: Enqueued)
    ensures !q.dontCheck && q.size >= q.capacityInBytes ==>
              r.queue == q && r.warning == Some(DropWarning(q))
    ensures q.dontCheck || q.size < q.capacityInBytes ==>
              && r.queue.logs == q.logs + [log]
              && r.queue.size == q.size + |log|
              && r.warning == None
    ensures r.queue.dontCheck == q.dontCheck && r.queue.capacityInBytes == q.capacityInBytes
    ensures Valid(q) ==> Valid(r.queue)
    ensures !q.dontCheck && |r.queue.logs| > |q.logs| ==> r.queue.size <= q.capacityInBytes - 1 + |log|
  {
    if IsEnoughSpace(q) then
      TotalBytesAppend(q.logs, [log]);
      Enqueued(q.(logs := q.logs + [log], size := q.size + |log|), None)
    else
      Enqueued(q, Some(DropWarning(q)))
  }

  /** Callers check `IsEmpty` first; the Java queue throws on an empty queue. */
  function Dequeue(q: Queue): (r: Dequeued)
    requires q.logs != []
    ensures r.log == q.logs[0]
    ensures r.queue.logs == q.logs[1..]
    ensures r.queue.size == q.size - |r.log|
    ensures r.queue.dontCheck == q.dontCheck && r.queue.capacityInBytes == q.capacityInBytes
    ensures Valid(q) ==> Valid(r.queue)
  {
    Dequeued(q.(logs := q.logs[1..], size := q.size - |q.logs[0]|), q.logs[0])
  }

  function IsEmpty(q: Queue): (r: bool)
    ensures r <==> |q.logs| == 0
    ensures Valid(q) && r ==> q.size == 0
  {
    q.logs == []
  }

  /** One call a producer or the drain makes on the queue. */
  datatype Op = Push(log: Bytes) | Pop

  /** What a sequence of calls leaves behind: the queue, the records dequeued,
      the records admitted and the warnings reported, each in order. */
  datatype Trace = Trace(queue: Queue, dequeued: seq<Bytes>, admitted: seq<Bytes>, warnings: seq<Warning>)

  /** Runs the calls in order; a `Pop` on an empty queue is skipped, as every
      caller guards `dequeue` with `isEmpty`. */
  function Run(q: Queue, ops: seq<Op>): Trace
    decreases |ops|
  {
    if ops == [] then Trace(q, [], [], [])
    else match ops[0]
      case Push(log) =>
        var e := Enqueue(q, log);
        var t := Run(e.queue, ops[1..]);
        if e.warning.Some? then t.(warnings := [e.warning.value] + t.warnings)
        else t.(admitted := [log] + t.admitted)
      case Pop =>
        if IsEmpty(q) then Run(q, ops[1..])
        else
          var d := Dequeue(q);
          var t := Run(d.queue, ops[1..]);
          t.(dequeued := [d.log] + t.dequeued)
  }

  /** The records pushed by a sequence of calls. */
  function Pushed(ops: seq<Op>): seq<Bytes> {
    if ops == [] then []
    else if ops[0].Push? then [ops[0].log] + Pushed(ops[1..])
    else Pushed(ops[1..])
  }

  /** What was dequeued, followed by what is still held, is what was held at
      the start followed by what was admitted; the settings do not change. */
  lemma {:induction false} RunKeepsOrder(q: Queue, ops: seq<Op>)
    ensures Run(q, ops).dequeued + Run(q, ops).queue.logs == q.logs + Run(q, ops).admitted
    ensures Run(q, ops).queue.dontCheck == q.dontCheck
    ensures Run(q, ops).queue.capacityInBytes == q.capacityInBytes
    decreases |ops|
  {
    if ops != [] {
      match ops[0]
      case Push(log) =>
        var e := Enqueue(q, log);
        RunKeepsOrder(e.queue, ops[1..]);
        var t := Run(e.queue, ops[1..]);
        if e.warning.None? {
          AppendAssoc(q.logs, [log], t.admitted);
        }
      case Pop =>
        if !IsEmpty(q) {
          var d := Dequeue(q);
          RunKeepsOrder(d.queue, ops[1..]);
          var t := Run(d.queue, ops[1..]);
          assert q.logs == [d.log] + d.queue.logs;
          AppendAssoc([d.log], t.dequeued, t.queue.logs);
          AppendAssoc([d.log], d.queue.logs, t.admitted);
        } else {
          RunKeepsOrder(q, ops[1..]);
        }
    }
  }

  /** Every push is either admitted or answered by one warning, and without the
      capacity check everything pushed is admitted. */
  lemma {:induction false} RunCounts(q: Queue, ops: seq<Op>)
    ensures |Run(q, ops).admitted| + |Run(q, ops).warnings| == |Pushed(ops)|
    ensures q.dontCheck ==> Run(q, ops).admitted == Pushed(ops) && Run(q, ops).warnings == []
    decreases |ops|
  {
    if ops != [] {
      match ops[0]
      case Push(log) =>
        RunCounts(Enqueue(q, log).queue, ops[1..]);
      case Pop =>
        if !IsEmpty(q) {
          RunCounts(Dequeue(q).queue, ops[1..]);
        } else {
          RunCounts(q, ops[1..]);
        }
    }
  }

  /** The running byte total stays exact. */
  lemma {:induction false} RunValid(q: Queue, ops: seq<Op>)
    requires Valid(q)
    ensures Valid(Run(q, ops).queue)
    decreases |ops|
  {
    if ops != [] {
      match ops[0]
      case Push(log) =>
        RunValid(Enqueue(q, log).queue, ops[1..]);
      case Pop =>
        if !IsEmpty(q) {
          RunValid(Dequeue(q).queue, ops[1..]);
        } else {
          RunValid(q, ops[1..]);
        }
    }
  }

  /** FIFO with no loss and no duplication: what was dequeued, followed by what
      is still held, is what was held at the start followed by what was admitted.
      Every push is either admitted or answered by one warning, the byte total
      stays exact, and without the capacity check everything pushed is admitted. */
  lemma RunFifo(q: Queue, ops: seq<Op>)
    requires Valid(q)
    ensures var t := Run(q, ops);
      && Valid(t.queue)
      && t.dequeued + t.queue.logs == q.logs + t.admitted
      && |t.admitted| + |t.warnings| == |Pushed(ops)|
      && t.queue.dontCheck == q.dontCheck && t.queue.capacityInBytes == q.capacityInBytes
      && (q.dontCheck ==> t.admitted == Pushed(ops) && t.warnings == [])
  {
    RunKeepsOrder(q, ops);
    RunCounts(q, ops);
    RunValid(q, ops);
  }

  /** A capacity of zero (or below) admits nothing: every push is dropped. */
  lemma {:induction false} ZeroCapacityDropsAll(q: Queue, ops: seq<Op>)
    requires Valid(q) && !q.dontCheck && q.capacityInBytes <= 0
    ensures Run(q, ops).admitted == []
    ensures |Run(q, ops).warnings| == |Pushed(ops)|
    decreases |ops|
  {
    if ops != [] {
      match ops[0]
      case Push(log) =>
        ZeroCapacityDropsAll(q, ops[1..]);
      case Pop =>
        if !IsEmpty(q) {
          ZeroCapacityDropsAll(Dequeue(q).queue, ops[1..]);
        } else {
          ZeroCapacityDropsAll(q, ops[1..]);
        }
    }
  }

  /** `k` copies of one record. */
  function Repeat(log: Bytes, k: nat): (r: seq<Bytes>)
    ensures |r| == k
  {
    if k == 0 then [] else [log] + Repeat(log, k - 1)
  }

  function PushAll(logs: seq<Bytes>): (ops: seq<Op>)
    ensures |ops| == |logs|
  {
    if logs == [] then [] else [Push(logs[0])] + PushAll(logs[1..])
  }

  lemma {:induction false} RepeatSnoc(log: Bytes, k: nat)
    ensures Repeat(log, k) + [log] == Repeat(log, k + 1)
  {
    if k > 0 {
      RepeatSnoc(log, k - 1);
    }
  }

  lemma {:induction false} TotalBytesRepeat(log: Bytes, k: nat)
    ensures TotalBytes(Repeat(log, k)) == k * |log|
  {
    if k > 0 {
      TotalBytesRepeat(log, k - 1);
    }
  }

  lemma MulMonotone(a: int, b: int, n: int)
    requires a <= b && n >= 0
    ensures a * n <= b * n
  {
  }

  /** The state after `j` equal records have been admitted. */
  function Holding(c: int, log: Bytes, j: nat): Queue {
    Queue(Repeat(log, j), j * |log|, false, c)
  }

  /** The conclusion of `FillFrom`, for `m` of `k` further copies admitted. */
  predicate FilledTo(c: int, n: nat, j: nat, k: nat, m: nat) {
    && m <= k
    && (m < k ==> (j + m) * n >= c)
    && (j + m > 0 ==> (j + m - 1) * n < c)
  }

  /** Pushing `k` more copies onto a queue that already holds `j` copies. */
  lemma {:induction false} FillFrom(c: int, log: Bytes, j: nat, k: nat)
    requires |log| > 0
    requires j > 0 ==> (j - 1) * |log| < c
    ensures var t := Run(Holding(c, log, j), PushAll(Repeat(log, k)));
      t.admitted == Repeat(log, |t.admitted|) && FilledTo(c, |log|, j, k, |t.admitted|)
    decreases k
  {
    if k > 0 {
      var n := |log|;
      if j * n >= c {
        FillFull(c, log, j, k);
      } else {
        FillRoom(c, log, j, k);
      }
    }
  }

  /** Pushing copies of a record: the first call, then the rest. */
  lemma PushAllRepeat(log: Bytes, k: nat)
    requires k > 0
    ensures PushAll(Repeat(log, k))[0] == Push(log)
    ensures PushAll(Repeat(log, k))[1..] == PushAll(Repeat(log, k - 1))
  {
  }

  /** One more copy fits while the bytes held are below the capacity. */
  lemma HoldingAdmits(c: int, log: Bytes, j: nat)
    requires j * |log| < c
    ensures Enqueue(Holding(c, log, j), log) == Enqueued(Holding(c, log, j + 1), None)
  {
    RepeatSnoc(log, j);
    assert j * |log| + |log| == (j + 1) * |log|;
  }

  lemma {:induction false} FillFull(c: int, log: Bytes, j: nat, k: nat)
    requires |log| > 0 && k > 0
    requires j > 0 ==> (j - 1) * |log| < c
    requires j * |log| >= c
    ensures var t := Run(Holding(c, log, j), PushAll(Repeat(log, k)));
      t.admitted == Repeat(log, |t.admitted|) && FilledTo(c, |log|, j, k, |t.admitted|)
    decreases k, 0
  {
    var q := Holding(c, log, j);
    PushAllRepeat(log, k);
    var e := Enqueue(q, log);
    assert e.queue == q && e.warning.Some?;
    FillFrom(c, log, j, k - 1);
    var t := Run(q, PushAll(Repeat(log, k - 1)));
    assert Run(q, PushAll(Repeat(log, k))) == t.(warnings := [e.warning.value] + t.warnings);
    MulMonotone(j, j + |t.admitted|, |log|);
  }

  lemma {:induction false} FillRoom(c: int, log: Bytes, j: nat, k: nat)
    requires |log| > 0 && k > 0
    requires j * |log| < c
    ensures var t := Run(Holding(c, log, j), PushAll(Repeat(log, k)));
      t.admitted == Repeat(log, |t.admitted|) && FilledTo(c, |log|, j, k, |t.admitted|)
    decreases k, 0
  {
    var n := |log|;
    PushAllRepeat(log, k);
    HoldingAdmits(c, log, j);
    assert (j + 1 - 1) * n < c;
    FillFrom(c, log, j + 1, k - 1);
    var t := Run(Holding(c, log, j + 1), PushAll(Repeat(log, k - 1)));
    var m' := |t.admitted|;
    var t0 := Run(Holding(c, log, j), PushAll(Repeat(log, k)));
    assert t0.admitted == [log] + t.admitted;
    assert t0.admitted == Repeat(log, m' + 1);
    FilledToShift(c, n, j, k, m');
  }

  /** One more copy admitted at the front shifts the fill count by one. */
  lemma FilledToShift(c: int, n: nat, j: nat, k: nat, m: nat)
    requires k > 0 && FilledTo(c, n, j + 1, k - 1, m)
    ensures FilledTo(c, n, j, k, m + 1)
  {
    assert j + 1 + m == j + (m + 1);
  }

  /** Equal records against a byte capacity: the first `m` are admitted and the
      rest dropped, where `m` is the first count whose bytes reach the capacity
      (or all of them, if they never do). */
  lemma EqualRecordsFillToCapacity(c: int, log: Bytes, k: nat)
    requires |log| > 0
    ensures var t := Run(Queue([], 0, false, c), PushAll(Repeat(log, k)));
      var m := |t.admitted|;
      && m <= k
      && t.admitted == Repeat(log, m)
      && t.queue.logs == Repeat(log, m)
      && (m < k ==> m * |log| >= c)
      && (m > 0 ==> (m - 1) * |log| < c)
  {
    var q := Queue([], 0, false, c);
    assert q == Holding(c, log, 0);
    FillFrom(c, log, 0, k);
    RunFifo(q, PushAll(Repeat(log, k)));
    DequeueFree(Repeat(log, k), q);
    var t := Run(q, PushAll(Repeat(log, k)));
    assert t.queue.logs == t.dequeued + t.queue.logs == q.logs + t.admitted == t.admitted;
  }

  /** Pushes alone never dequeue anything. */
  lemma {:induction false} DequeueFree(logs: seq<Bytes>, q: Queue)
    ensures Run(q, PushAll(logs)).dequeued == []
    decreases |logs|
  {
    if logs != [] {
      assert PushAll(logs)[0] == Push(logs[0]) && PushAll(logs)[1..] == PushAll(logs[1..]);
      DequeueFree(logs[1..], Enqueue(q, logs[0]).queue);
    }
  }

  /** A capacity of three records' worth admits exactly three of four equal records. */
  lemma ThreeOfFourAdmitted(log: Bytes)
    requires |log| > 0
    ensures var t := Run(Queue([], 0, false, 3 * |log|), PushAll(Repeat(log, 4)));
      t.queue.logs == Repeat(log, 3) && |t.warnings| == 1
  {
    var n := |log|;
    EqualRecordsFillToCapacity(3 * n, log, 4);
    var q := Queue([], 0, false, 3 * n);
    var t := Run(q, PushAll(Repeat(log, 4)));
    var m := |t.admitted|;
    if m < 3 {
      MulMonotone(m, 2, n);
    }
    if m > 3 {
      MulMonotone(3, m - 1, n);
    }
    assert m == 3;
    RunFifo(q, PushAll(Repeat(log, 4)));
    PushedPushAll(Repeat(log, 4));
  }

  lemma {:induction false} PushedPushAll(logs: seq<Bytes>)
    ensures Pushed(PushAll(logs)) == logs
  {
    if logs != [] {
      assert PushAll(logs)[1..] == PushAll(logs[1..]);
      PushedPushAll(logs[1..]);
    }
  }

  /** The queue's builder; `Build` gives an empty queue. */
  datatype Builder = Builder(capacityInBytes: int, dontCheck: bool)

  function NewBuilder(): Builder {
    Builder(DEFAULT_CAPACITY_IN_BYTES, false)
  }

  /** The sentinel switches the check off; no later value switches it back on. */
  function SetCapacityInBytes(b: Builder, capacityInBytes: int): Builder {
    Builder(capacityInBytes, b.dontCheck || capacityInBytes == DONT_LIMIT_BUFFER_SPACE)
  }

  function Build(b: Builder): (q: Queue)
    ensures Valid(q) && IsEmpty(q)
    ensures q.dontCheck == b.dontCheck && q.capacityInBytes == b.capacityInBytes
  {
    Queue([], 0, b.dontCheck, b.capacityInBytes)
  }

  /** Calls `setCapacityInBytes` with each value in turn. */
  function SetCapacities(b: Builder, cs: seq<int>): Builder
    decreases |cs|
  {
    if cs == [] then b else SetCapacities(SetCapacityInBytes(b, cs[0]), cs[1..])
  }

  /** After any sequence of settings the check is off exactly when it was off
      already or the sentinel was among them, and the capacity is the last value set. */
  lemma {:induction false} CapacitySettingsSticky(b: Builder, cs: seq<int>)
    ensures SetCapacities(b, cs).dontCheck <==> b.dontCheck || DONT_LIMIT_BUFFER_SPACE in cs
    ensures SetCapacities(b, cs).capacityInBytes == if cs == [] then b.capacityInBytes else cs[|cs| - 1]
    decreases |cs|
  {
    if cs != [] {
      CapacitySettingsSticky(SetCapacityInBytes(b, cs[0]), cs[1..]);
      assert cs == [cs[0]] + cs[1..];
    }
  }

  /** A queue built with the defaults keeps the check on and admits a record
      exactly while it holds fewer than 100 MiB. */
  lemma DefaultBuild(log: Bytes)
    ensures var q := Build(NewBuilder());
      && !q.dontCheck && q.capacityInBytes == 104857600
      && forall held: seq<Bytes> ::
           var q' := q.(logs := held, size := TotalBytes(held));
           (|Enqueue(q', log).queue.logs| > |held|) <==> TotalBytes(held) < 104857600
  {
  }
}
