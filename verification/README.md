# logzio-java-sender, modelled in Dafny

This project models the core of the logz.io Java sender, a library that buffers log records and ships them in bulk to the logz.io listener over HTTPS. The parts modelled are:

- **The in-memory queue** (`InMemoryQueue`) and **the in-memory logs buffer** (`InMemoryLogsBuffer`). Each is a bounded FIFO of serialized records with a running byte total. A record is dropped, with a warning, while the total held is at or above the capacity, unless the capacity is the `-1` "do not limit" sentinel. The model shows that the two classes behave identically, call for call.
- **The disk queue** (`DiskQueue`). It validates the buffer directory and the garbage-collection interval when it is built. It puts a gate in front of a persistent FIFO: a record is dropped, with a warning, while the file system's used percentage is at or above the threshold, unless the threshold is the `-1` sentinel.
- **The real-time filters decorator** (`RealTimeFiltersQueue`). It decodes each record from UTF-8 and judges it against two filter lists. A kept record's re-encoding goes onto a wrapped in-memory queue. Nothing assigns the two filter arrays, so as the class stands every enqueue throws a `NullPointerException`. The model keeps that behaviour, and also models the decision for arrays that have been assigned. The UTF-8 decoder and encoder it relies on are modelled in `Utf8`. The decoder replaces malformed input with U+FFFD as the JDK's decoder does: one maximal ill-formed subpart at a time, except that an encoded surrogate (0xED followed by 0xA0..0xBF) is replaced as one unit.
- **The legacy sender** (`LogzioSender`):
  - the per-type registry with its one-sender-per-type factory;
  - the constructor's checks;
  - `send`, which appends the message and a newline behind the disk-space gate;
  - batching of up to 3 MiB;
  - the drain loop. It posts each batch with up to three attempts and a doubling back-off. It puts a failed batch back through the gate and stops early when the thread is interrupted.
- **The synchronous HTTPS transport** (`HttpsSyncSender`): the newline-separated request body, and the retry loop driven by its configuration. The back-off doubles in 32-bit `int` arithmetic, and `Thread.sleep` refuses a negative one with an `IllegalArgumentException`.
- **The transport configuration builder** (`HttpsRequestConfiguration`): defaults, setters, the listener URL, and the order of the `build` checks.

The network is an oracle (`Transport`). For the n-th attempt of a send, it says what came back (a status code or an I/O failure) and whether the back-off sleep after that attempt was interrupted. A send is described by how it ended, the responses it saw and the sleeps it took. Several things are inputs to the model rather than computed by it:

- the used percentage of the file system;
- the thread's interrupt flag during each batch;
- what an earlier process left in the queue directory;
- whether `java.net.URL` accepts a string;
- the filters' verdicts.

Every operation is a pure function on immutable datatypes. Reporter warnings are returned as values.

A queue that holds only empty records still yields one batch with no records, and that batch is sent as an empty POST. The model keeps this behaviour.

## Model

| member | source | states |
|---|---|---|
| Common.NonEmptyAppend | logzio-sender/src/main/java/io/logz/sender/LogzioSender.java:222-229 | Dropping the empty records of two sequences laid end to end is the same as dropping them from each and concatenating. |
| Common.NonEmptySplit | logzio-sender/src/main/java/io/logz/sender/LogzioSender.java:222-229 | Splitting a queue anywhere splits its non-empty records at the same place. |
| Common.TotalBytesAppend | logzio-sender/src/main/java/io/logz/sender/LogzioSender.java:260-265 | The byte total of two sequences laid end to end is the sum of their totals. |
| Common.NonEmptyIdempotent | logzio-sender/src/main/java/io/logz/sender/LogzioSender.java:224 | Filtering a sequence that has no empty records returns it unchanged. |
| InMemoryQueue.Enqueue | logzio-sender/src/main/java/io/logz/sender/InMemoryQueue.java:27-57 | With the check on and the total held at or above the capacity, the queue is unchanged and the warning names the capacity in whole megabytes. Otherwise the record is appended, the total grows by exactly its length, and there is no warning. The settings never change. An exact total stays exact. Once a record is admitted, the new total is at most capacity - 1 plus that record's length. |
| InMemoryQueue.Dequeue | logzio-sender/src/main/java/io/logz/sender/InMemoryQueue.java:35-38 | Returns the head. The tail stays, and the total falls by the head's length. |
| InMemoryQueue.IsEmpty | logzio-sender/src/main/java/io/logz/sender/InMemoryQueue.java:42-44 | True exactly when no record is held, and then an exact total is 0. |
| InMemoryQueue.RunKeepsOrder | logzio-sender/src/main/java/io/logz/sender/InMemoryQueue.java:27-44 | Over any sequence of enqueues and dequeues, the records dequeued followed by those still held equal the records held at the start followed by those admitted. |
| InMemoryQueue.RunCounts | logzio-sender/src/main/java/io/logz/sender/InMemoryQueue.java:27-57 | Every record pushed is either admitted or answered by exactly one warning. With the check off, everything pushed is admitted. |
| InMemoryQueue.RunValid | logzio-sender/src/main/java/io/logz/sender/InMemoryQueue.java:27-38 | The running byte total stays equal to the bytes held across any sequence of calls. |
| InMemoryQueue.RunFifo | logzio-sender/src/main/java/io/logz/sender/InMemoryQueue.java:27-57 | FIFO with no loss and no duplication, one warning per dropped record, an exact total, unchanged settings, and everything admitted when the check is off. |
| InMemoryQueue.ZeroCapacityDropsAll | logzio-sender/src/main/java/io/logz/sender/InMemoryQueue.java:46-57 | A capacity of 0 or below, with the check on, admits nothing and reports one warning per push. |
| InMemoryQueue.EqualRecordsFillToCapacity | logzio-sender/src/main/java/io/logz/sender/InMemoryQueue.java:46-57 | Equal records pushed onto an empty queue: exactly the first m are admitted. m is the least count whose bytes reach the capacity, or all of the records if none does. |
| InMemoryQueue.ThreeOfFourAdmitted | logzio-sender/src/main/java/io/logz/sender/InMemoryQueue.java:46-57 | A capacity of three records' worth holds three of four equal records and reports one warning. |
| InMemoryQueue.Build | logzio-sender/src/main/java/io/logz/sender/InMemoryQueue.java:91-93 | The built queue is empty, its total is exact, and it has the builder's capacity and check flag. |
| InMemoryQueue.CapacitySettingsSticky | logzio-sender/src/main/java/io/logz/sender/InMemoryQueue.java:73-79 | After any sequence of capacity settings, the check is off exactly when it already was or -1 was among them. The capacity is the last value set. |
| InMemoryQueue.DefaultBuild | logzio-sender/src/main/java/io/logz/sender/InMemoryQueue.java:63-93 | The default queue keeps the check on, with 104857600 bytes. For any contents it admits a record exactly while it holds fewer bytes than that. |
| InMemoryLogsBuffer.Enqueue | logzio-sender/src/main/java/io/logz/sender/InMemoryLogsBuffer.java:29-59 | Drops with a megabyte-named warning while the total held is at or above the threshold and the check is on. Otherwise it appends the record and adds its length. An exact total stays exact. |
| InMemoryLogsBuffer.Dequeue | logzio-sender/src/main/java/io/logz/sender/InMemoryLogsBuffer.java:37-40 | Returns the head, keeps the tail, and takes the head's length off the total. |
| InMemoryLogsBuffer.IsEmpty | logzio-sender/src/main/java/io/logz/sender/InMemoryLogsBuffer.java:44-46 | True exactly when nothing is held. |
| InMemoryLogsBuffer.SameAsInMemoryQueue | logzio-sender/src/main/java/io/logz/sender/InMemoryLogsBuffer.java:29-59 | With the same limit and the same calls, the buffer and the in-memory queue reach the same state and yield the same records and warnings. |
| InMemoryLogsBuffer.BufferFifo | logzio-sender/src/main/java/io/logz/sender/InMemoryLogsBuffer.java:29-46 | FIFO with no loss, an exact total, and one warning per dropped record. |
| InMemoryLogsBuffer.Build | logzio-sender/src/main/java/io/logz/sender/InMemoryLogsBuffer.java:93-95 | The built buffer is empty, with the builder's threshold and flag. |
| InMemoryLogsBuffer.ThresholdSettingsSticky | logzio-sender/src/main/java/io/logz/sender/InMemoryLogsBuffer.java:65-81 | -1 switches the limit off for good. The default is 100 MiB with the limit on. The buffer's builder builds what the queue's builder builds. |
| DiskQueue.CheckBufferDir | logzio-sender/src/main/java/io/logz/sender/DiskQueue.java:22-29 | A null directory fails with "value is null.". A directory without a parent or a name fails with "value is empty" and its path. Otherwise it succeeds. |
| DiskQueue.Create | logzio-sender/src/main/java/io/logz/sender/DiskQueue.java:19-37 | A failed directory check fails with its error. Failing that, a garbage-collection interval of 0 or less fails with the executor's `IllegalArgumentException`. It succeeds exactly when both checks pass, and then the queue holds what was persisted, with the given directory and settings. |
| DiskQueue.GcIntervalChecked | logzio-sender/src/main/java/io/logz/sender/DiskQueue.java:36 | With a usable directory, the builder fails exactly when the interval it was given is 0 or less. Without a directory, the directory error comes first whatever the interval. |
| DiskQueue.Enqueue | logzio-sender/src/main/java/io/logz/sender/DiskQueue.java:40-68 | With the check on and the used percentage at or above the threshold, the queue is unchanged and the warning names both numbers. Otherwise the record is appended. |
| DiskQueue.Dequeue | logzio-sender/src/main/java/io/logz/sender/DiskQueue.java:47-49 | An empty store answers null and is unchanged. Otherwise it answers the head and keeps the tail. |
| DiskQueue.IsEmpty | logzio-sender/src/main/java/io/logz/sender/DiskQueue.java:52-54 | True exactly when the store holds nothing. |
| DiskQueue.EnqueueAllAppendsAdmitted | logzio-sender/src/main/java/io/logz/sender/DiskQueue.java:40-68 | A run of enqueues appends exactly the admitted records, in order. Every other record draws one warning. The settings do not change. |
| DiskQueue.ZeroThresholdDropsAll | logzio-sender/src/main/java/io/logz/sender/DiskQueue.java:56-68 | A threshold of 0, with the check on, drops every record at any non-negative used percentage, with one warning each. |
| DiskQueue.ThresholdSettingsSticky | logzio-sender/src/main/java/io/logz/sender/DiskQueue.java:92-108 | -1 switches the check off for good, and the threshold is the last one set. The other settings are untouched. |
| DiskQueue.DefaultBuild | logzio-sender/src/main/java/io/logz/sender/DiskQueue.java:85-117 | The default builder has no directory, so it fails with "value is null.". With a usable directory, the queue collects garbage every 30 s and drops exactly at 98 percent used or more. |
| RealTimeFiltersQueue.AnyMatches | logzio-sender/src/main/java/io/logz/sender/RealTimeFiltersQueue.java:22-26 | The early-exit loop answers true exactly when some filter matches. |
| RealTimeFiltersQueue.ShouldEnqueueAsWritten | logzio-sender/src/main/java/io/logz/sender/RealTimeFiltersQueue.java:21-35 | Fails with a null-pointer error exactly when the real-time array is null. Otherwise every record is kept, whatever the default filters say. |
| RealTimeFiltersQueue.ShouldEnqueue | logzio-sender/src/main/java/io/logz/sender/RealTimeFiltersQueue.java:21-35 | A null real-time array fails. A real-time match keeps the record. Otherwise a null default array fails. With both arrays assigned, the record is kept exactly when a real-time filter matches or no default filter does. |
| RealTimeFiltersQueue.AsWrittenIgnoresDefaultFilters | logzio-sender/src/main/java/io/logz/sender/RealTimeFiltersQueue.java:28-32 | With both arrays assigned, a record that only a default filter matches is kept as written and dropped as intended. |
| RealTimeFiltersQueue.AsWrittenAgreesOnlyWithoutDefaultMatch | logzio-sender/src/main/java/io/logz/sender/RealTimeFiltersQueue.java:21-35 | With both arrays assigned, the two decisions agree exactly when a real-time filter matches or no default filter does. |
| RealTimeFiltersQueue.Enqueue | logzio-sender/src/main/java/io/logz/sender/RealTimeFiltersQueue.java:38-44 | A failed decision fails the enqueue with its error. A rejected record leaves the queue alone. A kept record's UTF-8 re-encoding, with the JDK's replacement of malformed input, is enqueued on the wrapped queue, with its warning. The filters do not change, and an exact total stays exact. |
| RealTimeFiltersQueue.EnqueueAsWritten | logzio-sender/src/main/java/io/logz/sender/RealTimeFiltersQueue.java:38-44 | A null real-time array fails the enqueue with a null-pointer error. Otherwise every record's re-encoding reaches the wrapped queue. |
| RealTimeFiltersQueue.ConstructedQueueRejectsEveryRecord | logzio-sender/src/main/java/io/logz/sender/RealTimeFiltersQueue.java:16-44 | A queue as the constructor leaves it fails every enqueue with a null-pointer error and never touches the wrapped queue. This holds for the decision as written and for the intended one. |
| RealTimeFiltersQueue.KeptRecordForwardedUnchanged | logzio-sender/src/main/java/io/logz/sender/RealTimeFiltersQueue.java:39-42 | For well-formed UTF-8, a kept record reaches the wrapped queue byte for byte. |
| RealTimeFiltersQueue.Dequeue | logzio-sender/src/main/java/io/logz/sender/RealTimeFiltersQueue.java:46-49 | Passes straight through to the wrapped queue and leaves the filters alone. |
| RealTimeFiltersQueue.IsEmpty | logzio-sender/src/main/java/io/logz/sender/RealTimeFiltersQueue.java:51-54 | True exactly when the wrapped queue holds nothing. |
| Utf8.DecodeEncode | logzio-sender/src/main/java/io/logz/sender/RealTimeFiltersQueue.java:39-42 | Decoding the encoding of any string of scalar values gives the string back. |
| Utf8.EncodeDecode | logzio-sender/src/main/java/io/logz/sender/RealTimeFiltersQueue.java:39-42 | Encoding the decoding of well-formed UTF-8 gives the bytes back. |
| Utf8.ReEncodeProperties | logzio-sender/src/main/java/io/logz/sender/RealTimeFiltersQueue.java:39-42 | Re-encoding always yields well-formed UTF-8 that decodes to the same text, and is the identity on well-formed input. |
| Utf8.EncodeAppend | logzio-sender/src/main/java/io/logz/sender/LogzioSender.java:193-195 | The encoding of a concatenation is the concatenation of the encodings. |
| Utf8.EncodedSurrogateReplacedOnce | logzio-sender/src/main/java/io/logz/sender/RealTimeFiltersQueue.java:39 | An encoded surrogate is replaced by one U+FFFD: all three bytes, or the two left at the end of the input. Its first two bytes followed by a non-continuation byte are also replaced as one unit. |
| Utf8.EncodedSurrogateExample | logzio-sender/src/main/java/io/logz/sender/RealTimeFiltersQueue.java:39-42 | The bytes ED A0 80 are not well formed, decode to one U+FFFD, and re-encode as EF BF BD. |
| HttpsSyncSender.ToNewLineSeparatedByteArray | logzio-sender/src/main/java/io/logz/sender/HttpsSyncSender.java:33-53 | The body's length is the messages' byte total plus one newline byte per message. |
| HttpsSyncSender.SplitLinesInvertsPayload | logzio-sender/src/main/java/io/logz/sender/HttpsSyncSender.java:33-46 | Messages without an embedded newline are read back one for one from the body. |
| HttpsSyncSender.HandleRetry | logzio-sender/src/main/java/io/logz/sender/HttpsSyncSender.java:88-101 | Gives up exactly on the last allowed attempt, naming the status. Otherwise a negative back-off ends the send with `Thread.sleep`'s exception. A non-negative one is slept and doubled in `int` arithmetic: exactly twice it below 2^31, negative between 2^31 and 2^32. |
| HttpsSyncSender.AttemptsInOrder | logzio-sender/src/main/java/io/logz/sender/HttpsSyncSender.java:60-81 | The loop sees the network's responses in attempt order. Every response but the last was retried after an uninterrupted sleep. There is no attempt exactly when the budget is already spent. |
| HttpsSyncSender.AttemptsLast | logzio-sender/src/main/java/io/logz/sender/HttpsSyncSender.java:55-118 | The last response explains the ending. The send returns normally exactly when that response needs no retry. It gives up exactly when the response is retryable and the budget is used up, naming its status (0 after an I/O failure). A refused back-off was negative. An interrupted ending follows an interrupted sleep. |
| HttpsSyncSender.AttemptsStopReason | logzio-sender/src/main/java/io/logz/sender/HttpsSyncSender.java:55-118 | Both of the above together, and an empty budget means a normal return with nothing sent. |
| HttpsSyncSender.AttemptsSleeps | logzio-sender/src/main/java/io/logz/sender/HttpsSyncSender.java:76-100 | The k-th sleep is the initial wait times 2^k, wrapped to a Java `int`. There is one sleep between consecutive attempts, plus one when it was interrupted. A refused back-off is the next value of that sequence. |
| HttpsSyncSender.AttemptsSleepsTaken | logzio-sender/src/main/java/io/logz/sender/HttpsSyncSender.java:97-100 | Every sleep taken is non-negative, and a refused back-off is negative. |
| HttpsSyncSender.NegativeWaitEndsAtFirstRetry | logzio-sender/src/main/java/io/logz/sender/HttpsSyncSender.java:58-99 | A negative initial wait ends the send at the first retry, with that value and no sleep taken. |
| HttpsSyncSender.DefaultBackoffWraps | logzio-sender/src/main/java/io/logz/sender/HttpsSyncSender.java:100 | Doubling 2000 ms in `int` stays positive for 20 doublings and gives -100663296 on the 21st. |
| HttpsSyncSender.WrappedBackoffEndsSend | logzio-sender/src/main/java/io/logz/sender/HttpsSyncSender.java:55-101 | With a 2000 ms first wait and more than 22 attempts allowed, a listener that always fails is tried 22 times. The send then ends because `Thread.sleep` refuses the wrapped back-off of -100663296 ms. |
| HttpsSyncSender.SendToLogzio | logzio-sender/src/main/java/io/logz/sender/HttpsSyncSender.java:55-86 | At most maxRetriesAttempts attempts, and none when that is 0 or less. The send gives up exactly when the last of maxRetriesAttempts responses is retryable. Every earlier response was retryable. Every sleep taken is non-negative and doubles from the initial wait in `int` arithmetic. A refused back-off is negative. |
| HttpsSyncSender.FirstFinalResponseStops | logzio-sender/src/main/java/io/logz/sender/HttpsSyncSender.java:70-80 | A first response of 200, 400 or 401 ends the send at once, with no sleep. |
| HttpsSyncSender.DefaultsGiveUpAfterThreeAttempts | logzio-sender/src/main/java/io/logz/sender/HttpsSyncSender.java:88-101 | With 3 attempts and a 2000 ms first wait, a listener that always fails is tried three times, with sleeps of 2000 and 4000 ms, and the send gives up with the third status. |
| HttpsRequestConfiguration.SetterWritesOnlyItsField | logzio-sender/src/main/java/io/logz/sender/HttpsRequestConfiguration.java:87-132 | Each setter writes its own field with its argument and leaves every other field alone. Only a null listener URL fails. |
| HttpsRequestConfiguration.SettersCommute | logzio-sender/src/main/java/io/logz/sender/HttpsRequestConfiguration.java:87-132 | Setters of different fields commute. |
| HttpsRequestConfiguration.SetListenerUrlIdempotent | logzio-sender/src/main/java/io/logz/sender/HttpsRequestConfiguration.java:121-127 | Setting the URL the builder already has leaves it unchanged. |
| HttpsRequestConfiguration.ListenerUrlRoundTrip | logzio-sender/src/main/java/io/logz/sender/HttpsRequestConfiguration.java:134-138 | The token (when it has no "&type=") and the type are read back exactly from the URL that createURL forms. |
| HttpsRequestConfiguration.Build | logzio-sender/src/main/java/io/logz/sender/HttpsRequestConfiguration.java:140-157 | A URL that is not well formed fails with a parameter error. Failing that, a null token fails with a null-pointer error. Otherwise every field is copied and the URL is the formed one. |
| HttpsRequestConfiguration.DefaultBuild | logzio-sender/src/main/java/io/logz/sender/HttpsRequestConfiguration.java:77-85 | The defaults are 3 attempts, a 2000 ms wait, 10 s timeouts, POST, no compression, no type, and the public listener with just the token. |
| LogzioSender.LegacyAttemptsAgree | logzio-sender/src/main/java/io/logz/sender/LogzioSender.java:278-373 | The legacy retry loop, with its own status test, is the transport's loop run with 3 attempts, for every first back-off and network. |
| LogzioSender.LegacyBackoffsValid | logzio-sender/src/main/java/io/logz/sender/LogzioSender.java:294-367 | From the legacy 2000 ms first back-off, `Thread.sleep` never refuses a back-off, so a legacy send never ends with that exception. |
| LogzioSender.SendToLogzioMatchesHttpsSyncSender | logzio-sender/src/main/java/io/logz/sender/LogzioSender.java:290-373 | The legacy send is the transport's send under any configuration with 3 attempts and a 2000 ms first wait. |
| LogzioSender.LegacyGivesUpAfterThreeAttempts | logzio-sender/src/main/java/io/logz/sender/LogzioSender.java:290-373 | Against a listener that always fails, the legacy send tries three times, sleeps 2000 then 4000 ms, and gives up with the last status. |
| LogzioSender.LegacyPayloadMatches | logzio-sender/src/main/java/io/logz/sender/LogzioSender.java:267-276 | The legacy body of newline-terminated records is the transport's body of the bare messages. |
| LogzioSender.TakeBatchTakesPrefix | logzio-sender/src/main/java/io/logz/sender/LogzioSender.java:220-232 | The batch loop takes the non-empty records of a prefix of the queue, in order. |
| LogzioSender.DequeueTakesPrefix | logzio-sender/src/main/java/io/logz/sender/LogzioSender.java:220-232 | A batch is the non-empty records of a prefix of the queue, and the queue keeps the matching suffix. Batch plus the rest's non-empty records is the queue's non-empty records. |
| LogzioSender.DequeueBatchSize | logzio-sender/src/main/java/io/logz/sender/LogzioSender.java:220-232 | The batch stops short of the end of the queue only once it holds at least 3 MiB, and it was under 3 MiB before its last record. |
| LogzioSender.NewSender | logzio-sender/src/main/java/io/logz/sender/LogzioSender.java:61-107 | The directory is checked first, then the URL `<url>/?token=<token>&type=<type>`, with the default URL when none is given. Every failure is a parameter error. On success the queue holds what was persisted, -1 switches the disk check off, and the settings are copied. |
| LogzioSender.ListenerUrlAlwaysNamesType | logzio-sender/src/main/java/io/logz/sender/LogzioSender.java:97 | The legacy URL always carries a type, "null" when there is none, and token and type read back from it. |
| LogzioSender.GetOrCreateSenderByType | logzio-sender/src/main/java/io/logz/sender/LogzioSender.java:109-139 | An existing sender for the type is returned, taking the new executor only if its own has terminated. Otherwise a null directory fails with ("bufferDir", "null"), and a new sender is built and registered. |
| LogzioSender.OneSenderPerType | logzio-sender/src/main/java/io/logz/sender/LogzioSender.java:109-139 | Java returns the same instance on every request for a type. The model returns an equal value: identical when the executor is live, and differing only in the new executor when the old one has terminated. The registry holds the sender handed out, and gains only that type. |
| LogzioSender.Enqueue | logzio-sender/src/main/java/io/logz/sender/LogzioSender.java:197-218 | Appends the record exactly when the disk check is off or the used percentage is below the threshold. Otherwise it warns and changes nothing. |
| LogzioSender.Send | logzio-sender/src/main/java/io/logz/sender/LogzioSender.java:193-201 | Stores the message's bytes and a newline behind the gate. The stored record decodes back to the message plus "\n". Nothing else about the sender changes. |
| LogzioSender.AdmittedAtOneReading | logzio-sender/src/main/java/io/logz/sender/LogzioSender.java:247 | At one reading of the used percentage, the gate takes back the whole failed batch or none of it. |
| LogzioSender.DrainKeepsSettings | logzio-sender/src/main/java/io/logz/sender/LogzioSender.java:234-258 | The drain changes only the queue's contents. It handles no batch exactly when the queue starts empty, and then it stops as drained with the queue unchanged. |
| LogzioSender.DrainSends | logzio-sender/src/main/java/io/logz/sender/LogzioSender.java:234-258 | The k-th batch is the k-th send. Every batch but the last was delivered with no interrupt. |
| LogzioSender.DrainStopReason | logzio-sender/src/main/java/io/logz/sender/LogzioSender.java:236-255 | The stop is explained by the last batch: a server error exactly when its send gave up, and an interrupt exactly when its back-off sleep was interrupted or it returned and the thread flag was set. A drained stop leaves the queue empty. |
| LogzioSender.DrainAccounting | logzio-sender/src/main/java/io/logz/sender/LogzioSender.java:234-258 | Every non-empty record is accounted for. If drained, all were sent and the queue is empty. If interrupted, the records were sent or are still queued behind them. On a server error with room on the disk, the failed batch is back at the tail with no warnings. On a server error without room, the batch is lost with one warning per record. |
| LogzioSender.DrainAllDelivered | logzio-sender/src/main/java/io/logz/sender/LogzioSender.java:234-258 | When every send returns and nothing interrupts, the drain empties the queue and sends exactly its non-empty records, in order, with no warnings. |
| LogzioSender.ServerErrorRequeuesBatch | logzio-sender/src/main/java/io/logz/sender/LogzioSender.java:242-250 | A first send that gives up, with room on the disk, puts the batch back behind the rest of the queue and stops. The same non-empty records are queued as before. |
| LogzioSender.InterruptedBatchNotRequeued | logzio-sender/src/main/java/io/logz/sender/LogzioSender.java:252-255 | An interrupt after a batch is sent stops the drain without putting that batch back. |
| LogzioSender.RequeuedLosesNothing | logzio-sender/src/main/java/io/logz/sender/LogzioSender.java:242-250 | After a requeue, the earlier batches plus what is queued are, as a multiset, the non-empty records the drain began with. |
| LogzioSender.ServerErrorLosesNothing | logzio-sender/src/main/java/io/logz/sender/LogzioSender.java:234-258 | A server error with room on the disk loses no record and repeats none. |
| LogzioSender.RecoveryAfterServerError | logzio-sender/src/main/java/io/logz/sender/LogzioSender.java:234-258 | After such a server error, a later drain in which every send returns empties the queue. Across the two drains, every non-empty record is delivered exactly once. |
| LogzioSender.DrainSender | logzio-sender/src/main/java/io/logz/sender/LogzioSender.java:234-258 | Draining a sender changes only its queue's contents. |
| LogzioSender.DrainSenderSends | logzio-sender/src/main/java/io/logz/sender/LogzioSender.java:234-258 | Through a sender, the k-th batch goes out on the k-th network with between one and three attempts. Only the last batch may have failed or been interrupted, and the records are accounted for as in DrainAccounting. |

## Left out

- Concurrency is not modelled. This covers `drainRunning` and `drainQueueAndSend`, the scheduled executors, `start` and `stop` with their final-drain timeout, and the garbage-collection task (`gcBigQueue`, `close`). The model is single-threaded and runs one drain at a time.
- HTTP I/O is not modelled: connections, timeouts, the request method, gzip compression of the body, and `readErrorStream`. The network is an oracle of responses.
- Reporter and debug messages are not modelled, apart from the warnings whose numbers the contracts state.
- BigQueue's internals are not modelled: the persistent store is an abstract FIFO, and what was persisted earlier is an input.
- The used percentage is an integer input. The source computes it in floating point from usable and total space.
- JSON parsing and the JsonPath filters are not modelled. A filter is a predicate over the decoded text. In the source, text that is not a JSON object can make Gson throw, or yield null for empty input. The model passes every decoded record to the filters.
- FormattedLogMessage is not part of this model. A record's size is taken to be its byte length.
- `send(JsonObject)` is not modelled: it serializes the object first, and serialization is not modelled.
- LogzioSender.Send: `String.getBytes()` uses the platform charset. The model assumes UTF-8.
- LogzioSender.Send: the message is a string of Unicode scalar values. A Java `String` can also hold a lone surrogate, which `getBytes` writes as `?`. Such messages are outside the model, so "decodes back to message plus newline" is promised only for strings without lone surrogates.
- LogzioSender.GetOrCreateSenderByType: senders are values, not one shared object. The source hands every caller the same instance and swaps a terminated executor in place, so all holders see the change. In the model, a change made through one handle (an executor swap, a `Send`, a `DrainSender`) is not seen through another handle or through the registry's entry.
- LogzioSender.NewSender: the legacy constructor only stores the garbage-collection interval. `start` schedules it, and `start` is not modelled, so the legacy sender does not fail on an interval of 0 or less.
- InMemoryQueue.Enqueue: the Java `int` byte total can wrap around past 2^31 - 1. The model's total is unbounded.
- InMemoryLogsBuffer.Enqueue: the same 32-bit wrap-around of the byte total is not modelled.
- LogzioSender.DequeueBatchSize: the Java `int` batch size can wrap around. The model's size is unbounded.
- LogzioSender.DrainQueue: when a failed batch is put back, the source measures the used percentage again before each record. The model uses one reading per drain, so a reading that changes half-way through a batch is not modelled.
- HttpsRequestConfiguration.Build: the text of the caught exception, which the source appends to the error message, is left out of the message.
- The configuration's getters and constructor are not separate members: they are the fields of the `Configuration` datatype, so each getter returns what was passed in by construction.
- `close` on the filters queue and on the in-memory queues releases resources and is not modelled.
- The truncation or dropping of oversized records is not part of this model. Its implementation is in a file outside the modelled core.
- InMemoryQueue.Dequeue: dequeuing an empty queue throws in Java. The model requires a non-empty queue, as every caller checks `isEmpty` first.
- InMemoryLogsBuffer.Dequeue: `remove()` on an empty buffer throws `NoSuchElementException` in Java. The model requires a non-empty buffer, as every caller checks `isEmpty` first.
- RealTimeFiltersQueue.Dequeue: it delegates to the in-memory queue, which throws when empty. The model requires a non-empty wrapped queue, for the same reason.

## Findings

| source | as written | input that shows it | evidently intended | confidence | as-written member | corrected member |
|---|---|---|---|---|---|---|
| logzio-sender/src/main/java/io/logz/sender/RealTimeFiltersQueue.java:28 | the second loop of `shouldEnqueue` scans `RTQueryFilters` again, so any record it could drop was already kept by the first loop, and every record is enqueued | with both arrays assigned, no real-time filters and one default filter that matches every record: the record is kept. As shipped nothing assigns the arrays, so `enqueue` throws `NullPointerException` at line 22 before either loop decides (`ConstructedQueueRejectsEveryRecord`) | the second loop scans `defaultFilters`, so a record only a default filter matches is dropped | not executed | RealTimeFiltersQueue.ShouldEnqueueAsWritten | RealTimeFiltersQueue.ShouldEnqueue |
