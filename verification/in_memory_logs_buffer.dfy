/**
 The in-memory logs buffer: a second, independently written bounded FIFO with
 the same admission rule as the in-memory queue (drop while the total held is
 at or above the threshold, unless the threshold is the "do not limit"
 sentinel). It is modelled on its own terms and then shown to behave exactly
 like the in-memory queue, state for state and call for call.
 */
module InMemoryLogsBuffer {
  import opened Common
  import InMemoryQueue

  const DONT_LIMIT_BUFFER_SPACE: int := -1

  const DEFAULT_BUFFER_THRESHOLD: int := 100 * ONE_MEGABYTE

  datatype Buffer = Buffer(logs: seq<Bytes>, size: int, dontCheck: bool, bufferThreshold: int)

  /** The running total is the number of bytes held. */
  ghost predicate Valid(b: Buffer) {
    b.size == TotalBytes(b.logs)
  }

  datatype Enqueued = Enqueued(buffer: Buffer, warning: Option<Warning>)

  datatype Dequeued = Dequeued(buffer: Buffer, log: Bytes)

  predicate IsEnoughSpace(b: Buffer) {
    b.dontCheck || b.size < b.bufferThreshold
  }

  function Enqueue(b: Buffer, log: Bytes): (r: Enqueued)
    ensures !b.dontCheck && b.size >= b.bufferThreshold ==>
              r.buffer == b && r.warning == Some(MemoryThresholdCrossed(JavaDiv(b.bufferThreshold, ONE_MEGABYTE)))
    ensures b.dontCheck || b.size < b.bufferThreshold ==>
              r.buffer == b.(logs := b.logs + [log], size := b.size + |log|) && r.warning == None
    ensures Valid(b) ==> Valid(r.buffer)
  {
    if IsEnoughSpace(b) then
      TotalBytesAppend(b.logs, [log]);
      Enqueued(b.(logs := b.logs + [log], size := b.size + |log|), None)
    else
      Enqueued(b, Some(MemoryThresholdCrossed(JavaDiv(b.bufferThreshold, ONE_MEGABYTE))))
  }

  function Dequeue(b: Buffer): (r: Dequeued)
    requires b.logs != []
    ensures r.log == b.logs[0] && r.buffer.logs == b.logs[1..]
    ensures r.buffer.size == b.size - |r.log|
    ensures Valid(b) ==> Valid(r.buffer)
  {
    Dequeued(b.(logs := b.logs[1..], size := b.size - |b.logs[0]|), b.logs[0])
  }

  function IsEmpty(b: Buffer): (r: bool)
    ensures r <==> |b.logs| == 0
    ensures Valid(b) && r ==> b.size == 0
  {
    b.logs == []
  }

  datatype Trace = Trace(buffer: Buffer, dequeued: seq<Bytes>, admitted: seq<Bytes>, warnings: seq<Warning>)

  /** Runs the calls in order, skipping a `Pop` on an empty buffer. */
  function Run(b: Buffer, ops: seq<InMemoryQueue.Op>): Trace
    decreases |ops|
  {
    if ops == [] then Trace(b, [], [], [])
    else match ops[0]
      case Push(log) =>
        var e := Enqueue(b, log);
        var t := Run(e.buffer, ops[1..]);
        if e.warning.Some? then t.(warnings := [e.warning.value] + t.warnings)
        else t.(admitted := [log] + t.admitted)
      case Pop =>
        if IsEmpty(b) then Run(b, ops[1..])
        else
          var d := Dequeue(b);
          var t := Run(d.buffer, ops[1..]);
          t.(dequeued := [d.log] + t.dequeued)
  }

  /** The in-memory queue with the same contents and limit. */
  function AsQueue(b: Buffer): InMemoryQueue.Queue {
    InMemoryQueue.Queue(b.logs, b.size, b.dontCheck, b.bufferThreshold)
  }

  /** Same threshold and same calls give the same state, the same records out
      and the same warnings as the in-memory queue. */
  lemma {:induction false} SameAsInMemoryQueue(b: Buffer, ops: seq<InMemoryQueue.Op>)
    ensures var t := Run(b, ops);
      var u := InMemoryQueue.Run(AsQueue(b), ops);
      && AsQueue(t.buffer) == u.queue
      && t.dequeued == u.dequeued
      && t.admitted == u.admitted
      && t.warnings == u.warnings
    decreases |ops|
  {
    if ops != [] {
      match ops[0]
      case Push(log) =>
        SameAsInMemoryQueue(Enqueue(b, log).buffer, ops[1..]);
      case Pop =>
        if IsEmpty(b) {
          SameAsInMemoryQueue(b, ops[1..]);
        } else {
          SameAsInMemoryQueue(Dequeue(b).buffer, ops[1..]);
        }
    }
  }

  /** FIFO, an exact byte total and no loss, inherited from the in-memory queue. */
  lemma BufferFifo(b: Buffer, ops: seq<InMemoryQueue.Op>)
    requires Valid(b)
    ensures var t := Run(b, ops);
      && Valid(t.buffer)
      && t.dequeued + t.buffer.logs == b.logs + t.admitted
      && |t.admitted| + |t.warnings| == |InMemoryQueue.Pushed(ops)|
  {
    SameAsInMemoryQueue(b, ops);
    InMemoryQueue.RunFifo(AsQueue(b), ops);
  }

  datatype Builder = Builder(bufferThreshold: int, dontCheck: bool)

  function NewBuilder(): Builder {
    Builder(DEFAULT_BUFFER_THRESHOLD, false)
  }

  function SetBufferThreshold(b: Builder, bufferThreshold: int): Builder {
    Builder(bufferThreshold, b.dontCheck || bufferThreshold == DONT_LIMIT_BUFFER_SPACE)
  }

  function Build(b: Builder): (r: Buffer)
    ensures Valid(r) && IsEmpty(r)
    ensures r.dontCheck == b.dontCheck && r.bufferThreshold == b.bufferThreshold
  {
    Buffer([], 0, b.dontCheck, b.bufferThreshold)
  }

  function SetThresholds(b: Builder, ts: seq<int>): Builder
    decreases |ts|
  {
    if ts == [] then b else SetThresholds(SetBufferThreshold(b, ts[0]), ts[1..])
  }

  /** The sentinel switches the limit off for good; the default is 100 MiB with
      the limit on; and the builder agrees with the in-memory queue's builder. */
  lemma {:induction false} ThresholdSettingsSticky(b: Builder, ts: seq<int>)
    ensures SetThresholds(b, ts).dontCheck <==> b.dontCheck || DONT_LIMIT_BUFFER_SPACE in ts
    ensures var q := InMemoryQueue.SetCapacities(InMemoryQueue.Builder(b.bufferThreshold, b.dontCheck), ts);
      AsQueue(Build(SetThresholds(b, ts))) == InMemoryQueue.Build(q)
    ensures NewBuilder() == Builder(104857600, false)
    decreases |ts|
  {
    if ts != [] {
      ThresholdSettingsSticky(SetBufferThreshold(b, ts[0]), ts[1..]);
      assert ts == [ts[0]] + ts[1..];
    }
  }
}
