/**
 The disk-backed queue: directory validation at construction, then a gate in
 front of a persistent FIFO. While the file system's used percentage is at or
 above the threshold (and the threshold is not the -1 sentinel) each enqueued
 record is dropped and a warning is reported; otherwise it is appended. The
 persistent store itself is an abstract FIFO here, and the used percentage is
 an input, measured by the caller.
 */
module DiskQueue {
  import opened Common

  /** What the model needs of a `java.io.File`: its absolute path, the parent
      of its absolute form (`None` at a file-system root), and its last name
      component (empty for a root). */
  datatype File = File(absolutePath: string, absoluteParent: Option<string>, name: string)

  const DONT_CHECK_DISK_SPACE: int := -1
  const DEFAULT_FS_PERCENT_THRESHOLD: int := 98
  const DEFAULT_GC_INTERVAL_SECONDS: int := 30

  /** `store` is the persistent FIFO, head first. */
  datatype DiskQueue = DiskQueue(
    store: seq<Bytes>,
    queueDirectory: File,
    dontCheck: bool,
    fsPercentThreshold: int,
    gcIntervalSeconds: int)

  /** The checks made on the buffer directory before the store is opened. */
  function CheckBufferDir(bufferDir: Option<File>): (r: Result<File>)
    ensures bufferDir.None? ==> r == Failure(ParameterError("bufferDir", "value is null."))
    ensures bufferDir.Some? && (bufferDir.value.absoluteParent.None? || bufferDir.value.name == "") ==>
              r == Failure(ParameterError("bufferDir", " value is empty: " + bufferDir.value.absolutePath))
    ensures r.Success? <==> bufferDir.Some? && bufferDir.value.absoluteParent.Some? && bufferDir.value.name != ""
    ensures r.Success? ==> r.value == bufferDir.value
  {
    match bufferDir
    case None => Failure(ParameterError("bufferDir", "value is null."))
    case Some(dir) =>
      if dir.absoluteParent.None? || dir.name == "" then
        Failure(ParameterError("bufferDir", " value is empty: " + dir.absolutePath))
      else Success(dir)
  }

  /** Opens the queue over whatever an earlier process left in the directory,
      then schedules the garbage collection of its files, which the executor
      refuses, with a message-less `IllegalArgumentException`, unless the
      interval is positive. */
  function Create(bufferDir: Option<File>, dontCheck: bool, fsPercentThreshold: int,
                  gcIntervalSeconds: int, persisted: seq<Bytes>): (r: Result<DiskQueue>)
    ensures CheckBufferDir(bufferDir).Failure? ==> r == Failure(CheckBufferDir(bufferDir).error)
    ensures CheckBufferDir(bufferDir).Success? && gcIntervalSeconds <= 0 ==> r == Failure(IllegalArgument(""))
    ensures r.Success? <==> CheckBufferDir(bufferDir).Success? && gcIntervalSeconds > 0
    ensures r.Success? ==>
              && r.value.store == persisted
              && Some(r.value.queueDirectory) == bufferDir
              && r.value.dontCheck == dontCheck
              && r.value.fsPercentThreshold == fsPercentThreshold
              && r.value.gcIntervalSeconds == gcIntervalSeconds
  {
    match CheckBufferDir(bufferDir)
    case Failure(e) => Failure(e)
    case Success(dir) =>
      if gcIntervalSeconds <= 0 then Failure(IllegalArgument(""))
      else Success(DiskQueue(persisted, dir, dontCheck, fsPercentThreshold, gcIntervalSeconds))
  }

  /** The gate: a record may be stored at this used percentage. */
  predicate IsEnoughSpace(q: DiskQueue, usedPercent: int) {
    q.dontCheck || usedPercent < q.fsPercentThreshold
  }

  datatype Enqueued = Enqueued(queue: DiskQueue, warning: Option<Warning>)

  function Enqueue(q: DiskQueue, log: Bytes, usedPercent: int): (r: Enqueued)
    ensures !q.dontCheck && usedPercent >= q.fsPercentThreshold ==>
              r.queue == q && r.warning == Some(DiskThresholdCrossed(usedPercent, q.fsPercentThreshold))
    ensures q.dontCheck || usedPercent < q.fsPercentThreshold ==>
              r.queue == q.(store := q.store + [log]) && r.warning == None
  {
    if IsEnoughSpace(q, usedPercent) then Enqueued(q.(store := q.store + [log]), None)
    else Enqueued(q, Some(DiskThresholdCrossed(usedPercent, q.fsPercentThreshold)))
  }

  datatype Dequeued = Dequeued(queue: DiskQueue, log: Option<Bytes>)

  /** Passes straight through to the store, which answers `null` when empty. */
  function Dequeue(q: DiskQueue): (r: Dequeued)
    ensures q.store == [] ==> r == Dequeued(q, None)
    ensures q.store != [] ==> r.log == Some(q.store[0]) && r.queue == q.(store := q.store[1..])
  {
    if q.store == [] then Dequeued(q, None)
    else Dequeued(q.(store := q.store[1..]), Some(q.store[0]))
  }

  function IsEmpty(q: DiskQueue): (r: bool)
    ensures r <==> |q.store| == 0
  {
    q.store == []
  }

  /** A record offered together with the used percentage measured at that moment. */
  datatype Offer = Offer(log: Bytes, usedPercent: int)

  /** Enqueues each offer in turn, collecting the warnings. */
  function EnqueueAll(q: DiskQueue, offers: seq<Offer>): (DiskQueue, seq<Warning>)
    decreases |offers|
  {
    if offers == [] then (q, [])
    else
      var e := Enqueue(q, offers[0].log, offers[0].usedPercent);
      var (q', ws) := EnqueueAll(e.queue, offers[1..]);
      (q', (if e.warning.Some? then [e.warning.value] else []) + ws)
  }

  /** The offers the gate lets through, judged from the configuration alone. */
  function Admitted(dontCheck: bool, fsPercentThreshold: int, offers: seq<Offer>): seq<Bytes> {
    if offers == [] then []
    else if dontCheck || offers[0].usedPercent < fsPercentThreshold then
      [offers[0].log] + Admitted(dontCheck, fsPercentThreshold, offers[1..])
    else Admitted(dontCheck, fsPercentThreshold, offers[1..])
  }

  /** Enqueuing appends exactly the admitted records, in order, after what was
      stored; every other offer draws one warning; nothing else changes. */
  lemma {:induction false} EnqueueAllAppendsAdmitted(q: DiskQueue, offers: seq<Offer>)
    ensures var (q', ws) := EnqueueAll(q, offers);
      var adm := Admitted(q.dontCheck, q.fsPercentThreshold, offers);
      && q'.store == q.store + adm
      && q' == q.(store := q'.store)
      && |adm| + |ws| == |offers|
    decreases |offers|
  {
    if offers != [] {
      var e := Enqueue(q, offers[0].log, offers[0].usedPercent);
      EnqueueAllAppendsAdmitted(e.queue, offers[1..]);
      if e.warning.None? {
        var adm := Admitted(q.dontCheck, q.fsPercentThreshold, offers[1..]);
        assert q.store + [offers[0].log] + adm == q.store + ([offers[0].log] + adm);
      }
    }
  }

  /** A threshold of 0 (with the check on) drops every record at any real used
      percentage, with one warning per record. */
  lemma {:induction false} ZeroThresholdDropsAll(q: DiskQueue, offers: seq<Offer>)
    requires !q.dontCheck && q.fsPercentThreshold == 0
    requires forall i :: 0 <= i < |offers| ==> offers[i].usedPercent >= 0
    ensures EnqueueAll(q, offers).0 == q
    ensures |EnqueueAll(q, offers).1| == |offers|
    decreases |offers|
  {
    if offers != [] {
      ZeroThresholdDropsAll(q, offers[1..]);
    }
  }

  datatype Builder = Builder(dontCheck: bool, fsPercentThreshold: int, gcIntervalSeconds: int, bufferDir: Option<File>)

  function NewBuilder(): Builder {
    Builder(false, DEFAULT_FS_PERCENT_THRESHOLD, DEFAULT_GC_INTERVAL_SECONDS, None)
  }

  function SetFsPercentThreshold(b: Builder, fsPercentThreshold: int): Builder {
    b.(fsPercentThreshold := fsPercentThreshold,
       dontCheck := b.dontCheck || fsPercentThreshold == DONT_CHECK_DISK_SPACE)
  }

  function SetGcPersistedQueueFilesIntervalSeconds(b: Builder, seconds: int): Builder {
    b.(gcIntervalSeconds := seconds)
  }

  function SetBufferDir(b: Builder, bufferDir: Option<File>): Builder {
    b.(bufferDir := bufferDir)
  }

  function Build(b: Builder, persisted: seq<Bytes>): Result<DiskQueue> {
    Create(b.bufferDir, b.dontCheck, b.fsPercentThreshold, b.gcIntervalSeconds, persisted)
  }

  function SetThresholds(b: Builder, ts: seq<int>): Builder
    decreases |ts|
  {
    if ts == [] then b else SetThresholds(SetFsPercentThreshold(b, ts[0]), ts[1..])
  }

  /** The sentinel switches the check off and no later threshold switches it
      back on; the threshold is the last one set; nothing else changes. */
  lemma {:induction false} ThresholdSettingsSticky(b: Builder, ts: seq<int>)
    ensures SetThresholds(b, ts).dontCheck <==> b.dontCheck || DONT_CHECK_DISK_SPACE in ts
    ensures SetThresholds(b, ts).fsPercentThreshold == if ts == [] then b.fsPercentThreshold else ts[|ts| - 1]
    ensures SetThresholds(b, ts).gcIntervalSeconds == b.gcIntervalSeconds
    ensures SetThresholds(b, ts).bufferDir == b.bufferDir
    decreases |ts|
  {
    if ts != [] {
      ThresholdSettingsSticky(SetFsPercentThreshold(b, ts[0]), ts[1..]);
      assert ts == [ts[0]] + ts[1..];
    }
  }

  /** Given a usable directory, the builder fails exactly when the garbage
      collection interval it was given is not positive, and with the executor's
      error; the directory is checked first, so without one the interval does
      not matter. */
  lemma GcIntervalChecked(dir: File, seconds: int, persisted: seq<Bytes>)
    requires dir.absoluteParent.Some? && dir.name != ""
    ensures var r := Build(SetGcPersistedQueueFilesIntervalSeconds(SetBufferDir(NewBuilder(), Some(dir)), seconds), persisted);
      && (r.Failure? <==> seconds <= 0)
      && (r.Failure? ==> r.error == IllegalArgument(""))
      && (r.Success? ==> r.value.gcIntervalSeconds == seconds && r.value.store == persisted)
    ensures Build(SetGcPersistedQueueFilesIntervalSeconds(NewBuilder(), seconds), persisted)
            == Failure(ParameterError("bufferDir", "value is null."))
  {
  }

  /** With the defaults the builder has no directory and so fails; given a usable
      directory it yields a queue that collects garbage every 30 seconds and drops
      exactly when the file system is at least 98 percent used. */
  lemma DefaultBuild(dir: File, persisted: seq<Bytes>, log: Bytes, usedPercent: int)
    requires dir.absoluteParent.Some? && dir.name != ""
    ensures Build(NewBuilder(), persisted) == Failure(ParameterError("bufferDir", "value is null."))
    ensures var r := Build(SetBufferDir(NewBuilder(), Some(dir)), persisted);
      && r.Success?
      && r.value.gcIntervalSeconds == 30
      && (Enqueue(r.value, log, usedPercent).warning.Some? <==> usedPercent >= 98)
  {
  }
}
