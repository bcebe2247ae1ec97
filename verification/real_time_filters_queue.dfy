/**
 The real-time filter decorator over an in-memory queue. Each record is decoded
 from UTF-8, parsed, and judged by two filter lists: "real-time" filters keep a
 record that any of them matches, and "default" filters drop a record that
 any of them matches otherwise. A kept record is re-encoded and enqueued on the
 wrapped queue; the other calls pass straight through.

 The class declares both filter arrays but nothing assigns them: the
 constructor sets only the wrapped queue, so each array is `null` (`None`
 here), and the first loop of `shouldEnqueue` throws a `NullPointerException`
 on every enqueue. The decision is also modelled for arrays that have been
 assigned. There, as written, the second loop scans the real-time filters a
 second time instead of the default filters, so every record is kept; that
 version is `ShouldEnqueueAsWritten`. `ShouldEnqueue` is the decision the
 otherwise unused `defaultFilters` field evidently intends, and `Enqueue` uses it.

 JSON parsing is not modelled: a filter is a predicate over the decoded text,
 standing for a JSON-path query applied to the parsed object.
 */
module RealTimeFiltersQueue {
  import opened Common
  import Utf8
  import InMemoryQueue

  type Filter = string -> bool

  /** A filter array, or `None` for a `null` one. */
  type Filters = Option<seq<Filter>>

  datatype FiltersQueue = FiltersQueue(
    rtQueryFilters: Filters,
    defaultFilters: Filters,
    filteredQueue: InMemoryQueue.Queue)

  /** The constructor: it sets the wrapped queue and leaves both arrays `null`. */
  function New(filteredQueue: InMemoryQueue.Queue): (q: FiltersQueue)
    ensures q.rtQueryFilters.None? && q.defaultFilters.None?
    ensures q.filteredQueue == filteredQueue
  {
    FiltersQueue(None, None, filteredQueue)
  }

  /** A loop over the filters that returns as soon as one matches. */
  function AnyMatches(filters: seq<Filter>, log: string): (r: bool)
    ensures r <==> exists i :: 0 <= i < |filters| && filters[i](log)
    decreases |filters|
  {
    if filters == [] then false
    else if filters[0](log) then true
    else
      var r := AnyMatches(filters[1..], log);
      assert forall i :: 1 <= i < |filters| ==> filters[i] == filters[1..][i - 1];
      r
  }

  /** The decision as the source writes it: the second loop repeats the first,
      and the default filters are never read. */
  function ShouldEnqueueAsWritten(rtQueryFilters: Filters, defaultFilters: Filters, log: string): (keep: Result<bool>)
    ensures keep.Failure? <==> rtQueryFilters.None?
    ensures keep.Failure? ==> keep.error == NullPointer("RTQueryFilters")
    ensures keep.Success? ==> keep.value
  {
    match rtQueryFilters
    case None => Failure(NullPointer("RTQueryFilters"))
    case Some(rt) =>
      if AnyMatches(rt, log) then Success(true)
      else if AnyMatches(rt, log) then Success(false)
      else Success(true)
  }

  /** The intended decision: keep on any real-time match, otherwise drop on any
      default match, otherwise keep. A `null` array throws when its loop is reached. */
  function ShouldEnqueue(rtQueryFilters: Filters, defaultFilters: Filters, log: string): (keep: Result<bool>)
    ensures rtQueryFilters.None? ==> keep == Failure(NullPointer("RTQueryFilters"))
    ensures rtQueryFilters.Some? && defaultFilters.None? ==>
              keep == if AnyMatches(rtQueryFilters.value, log) then Success(true)
                      else Failure(NullPointer("defaultFilters"))
    ensures rtQueryFilters.Some? && defaultFilters.Some? ==>
              && keep.Success?
              && (keep.value <==>
                    (exists i :: 0 <= i < |rtQueryFilters.value| && rtQueryFilters.value[i](log))
                    || !(exists i :: 0 <= i < |defaultFilters.value| && defaultFilters.value[i](log)))
  {
    match rtQueryFilters
    case None => Failure(NullPointer("RTQueryFilters"))
    case Some(rt) =>
      if AnyMatches(rt, log) then Success(true)
      else match defaultFilters
        case None => Failure(NullPointer("defaultFilters"))
        case Some(df) => Success(!AnyMatches(df, log))
  }

  /** With both arrays assigned, a record that only a default filter matches is
      kept as written and dropped as intended. */
  lemma AsWrittenIgnoresDefaultFilters()
    ensures var dropAll: Filter := (s: string) => true;
      && ShouldEnqueueAsWritten(Some([]), Some([dropAll]), "{}") == Success(true)
      && ShouldEnqueue(Some([]), Some([dropAll]), "{}") == Success(false)
  {
    var dropAll: Filter := (s: string) => true;
    assert [dropAll][0]("{}");
  }

  /** With both arrays assigned, the two decisions agree exactly when a
      real-time filter matches or no default filter does. */
  lemma AsWrittenAgreesOnlyWithoutDefaultMatch(rtQueryFilters: seq<Filter>, defaultFilters: seq<Filter>, log: string)
    ensures ShouldEnqueueAsWritten(Some(rtQueryFilters), Some(defaultFilters), log)
            == ShouldEnqueue(Some(rtQueryFilters), Some(defaultFilters), log)
            <==> AnyMatches(rtQueryFilters, log) || !AnyMatches(defaultFilters, log)
  {
  }

  datatype Enqueued = Enqueued(queue: FiltersQueue, warning: Option<Warning>)

  /** Decodes the record, judges it, and enqueues its re-encoding if kept. */
  function Enqueue(q: FiltersQueue, log: Bytes): (r: Result<Enqueued>)
    ensures var keep := ShouldEnqueue(q.rtQueryFilters, q.defaultFilters, Utf8.Decode(log));
      && (keep.Failure? ==> r == Failure(keep.error))
      && (keep == Success(false) ==> r == Success(Enqueued(q, None)))
      && (keep == Success(true) ==>
            var e := InMemoryQueue.Enqueue(q.filteredQueue, Utf8.ReEncode(log));
            r == Success(Enqueued(q.(filteredQueue := e.queue), e.warning)))
    ensures r.Success? && InMemoryQueue.Valid(q.filteredQueue) ==> InMemoryQueue.Valid(r.value.queue.filteredQueue)
  {
    var strJson := Utf8.Decode(log);
    match ShouldEnqueue(q.rtQueryFilters, q.defaultFilters, strJson)
    case Failure(e) => Failure(e)
    case Success(keep) =>
      if keep then
        var e := InMemoryQueue.Enqueue(q.filteredQueue, Utf8.Encode(strJson));
        Success(Enqueued(q.(filteredQueue := e.queue), e.warning))
      else
        Success(Enqueued(q, None))
  }

  /** The source's enqueue: it fails when the real-time array is `null`, and
      otherwise every record's re-encoding reaches the wrapped queue. */
  function EnqueueAsWritten(q: FiltersQueue, log: Bytes): (r: Result<Enqueued>)
    ensures q.rtQueryFilters.None? ==> r == Failure(NullPointer("RTQueryFilters"))
    ensures q.rtQueryFilters.Some? ==>
              var e := InMemoryQueue.Enqueue(q.filteredQueue, Utf8.ReEncode(log));
              r == Success(Enqueued(q.(filteredQueue := e.queue), e.warning))
  {
    var strJson := Utf8.Decode(log);
    match ShouldEnqueueAsWritten(q.rtQueryFilters, q.defaultFilters, strJson)
    case Failure(e) => Failure(e)
    case Success(keep) =>
      if keep then
        var e := InMemoryQueue.Enqueue(q.filteredQueue, Utf8.Encode(strJson));
        Success(Enqueued(q.(filteredQueue := e.queue), e.warning))
      else
        Success(Enqueued(q, None))
  }

  /** A queue as the constructor leaves it rejects every record with a
      `NullPointerException` and never reaches the wrapped queue, whichever
      decision is used. */
  lemma ConstructedQueueRejectsEveryRecord(filteredQueue: InMemoryQueue.Queue, log: Bytes)
    ensures EnqueueAsWritten(New(filteredQueue), log) == Failure(NullPointer("RTQueryFilters"))
    ensures Enqueue(New(filteredQueue), log) == Failure(NullPointer("RTQueryFilters"))
  {
  }

  /** For well-formed UTF-8, a kept record reaches the wrapped queue byte for
      byte: enqueuing through the wrapper is enqueuing on the wrapped queue. */
  lemma KeptRecordForwardedUnchanged(q: FiltersQueue, log: Bytes)
    requires Utf8.Valid(log)
    ensures ShouldEnqueue(q.rtQueryFilters, q.defaultFilters, Utf8.Decode(log)) == Success(true) ==>
              var e := InMemoryQueue.Enqueue(q.filteredQueue, log);
              Enqueue(q, log) == Success(Enqueued(q.(filteredQueue := e.queue), e.warning))
    ensures q.rtQueryFilters.Some? ==>
              var e := InMemoryQueue.Enqueue(q.filteredQueue, log);
              EnqueueAsWritten(q, log) == Success(Enqueued(q.(filteredQueue := e.queue), e.warning))
  {
    Utf8.ReEncodeProperties(log);
  }

  datatype Dequeued = Dequeued(queue: FiltersQueue, log: Bytes)

  /** Passes straight through to the wrapped queue. */
  function Dequeue(q: FiltersQueue): (r: Dequeued)
    requires q.filteredQueue.logs != []
    ensures var d := InMemoryQueue.Dequeue(q.filteredQueue);
      r.log == d.log && r.queue.filteredQueue == d.queue
    ensures r.queue.rtQueryFilters == q.rtQueryFilters && r.queue.defaultFilters == q.defaultFilters
  {
    var d := InMemoryQueue.Dequeue(q.filteredQueue);
    Dequeued(q.(filteredQueue := d.queue), d.log)
  }

  function IsEmpty(q: FiltersQueue): (r: bool)
    ensures r <==> q.filteredQueue.logs == []
  {
    InMemoryQueue.IsEmpty(q.filteredQueue)
  }
}
