# Verified models of muduo's cores

muduo is a C++ reactor network library. This project models the parts of it that carry real
invariants and proves them in Dafny: the calendar and the time zones, the byte buffer, the two
stream parsers, integer formatting, the two pollers, the timer queue, the hand-off of tasks to an
event loop, the asynchronous logger, the bounded queues and the output path and life cycle of a TCP
connection. `dafny verify dfyconfig.toml` checks everything.

How the source's forms are kept:

- Arithmetic (`Date`, the conversions of `TimeZone`) becomes functions; C++ division truncates toward
  zero and is written out as such (`Arithmetic.TruncDiv`).
- An object that one thread owns becomes a class whose fields are those of the source. Its methods
  are proved equal to functions on a value, and the theorems are about those functions.
- A protocol between threads becomes a step machine. A step is what one thread does between two
  points where another can interfere. The theorems hold in every state of every run. Where the source
  asserts something, either no assertion fails in any run, and that is proved, or the runs go up to
  a failed assertion and the exact condition for failing is proved.
- The kernel, the clock, the heap's choice of addresses, the condition variables' choice of thread
  and the message library are parameters that may answer anything their contract allows.

The main results, hardest first:

1. `TimeZones.LocalTimeRoundTripIff`: `fromLocalTime` undoes `toLocalTime` at every instant, both
   passes of every repeated hour included, **if and only if** every backward step of the zone's table
   is a one-hour end of daylight saving time.
2. `TimerQueues.RunsAreSafe` and `CancelledNeverFiresAgain`: over all runs with adds and cancels from
   anywhere, callbacks included, the two indexes agree, no timer is used or deleted after its
   deletion, the descriptor is armed, and a cancelled timer never fires again.
3. `TcpConnections.ByteStreamIsConserved`, `LifeCycle`, `HalfCloseLosesNothing`, `ShutdownIsDone`,
   `RegisteredUntilDestroyedIff`, `StreamIsWhatWasSent`.
4. `EventLoops.NoLostWakeup`, `AsyncLogs.LinesAreConserved` and `TextIsConservedIff`,
   `BoundedQueues.WaitersAreServed`.
5. `FrameCodec` and `Http`: independence of chunking, and printing followed by parsing.
6. `Calendar`: bijection between dates and day numbers, with the exact range in which the code has it.
7. `Pollers.RunBoth`: under every sequence of calls both pollers are the same map from descriptors to
   interests, up to the first call that fails an assertion, which is characterised.

Properties that fail on some inputs are given with the exact condition:

- `Calendar.JulianDayNumberCorrectIff` and `FromJulianDayNumberCorrectIff`: before -4800-03-01 the
  truncated quotients go wrong (only some years survive in one direction, no day in the other).
- `TimeZones.UtcRoundTripIff`, `ToUtcTimeIsGmTimeIff` and `FirstUtcSecond`: the truncating remainder in
  `weekDay` is negative before day number -1 except on Sundays (week day -4 for -4800-03-01), and in
  the year -4800 the day of the year is one too small.
- `TimeZones.StandardTimeMovedBackIsLost`: a zone that moves its standard time back loses the first
  pass of the repeated stretch, since the correction looks for daylight saving time only.
- `FrameCodec.FrameAtFront`: the encoder does not check the limit the decoder enforces.
- `TcpConnections.CloseAssertionIff`, with the failing runs `HangUpThatReads` and `ReadAfterClose`: the
  assertion in `handleClose` fails exactly when an event closes, or reads the end of, a connection
  that was closed before it arrived, or reads the end with a mask that closes as well (a hang-up
  without POLLIN but with POLLPRI or POLLRDHUP).
- `TcpConnections.RemovalAfterCloseIff`, with the failing run `StartReadBeforeDestroy`: the assertion in
  `Channel::remove` holds on a closed connection exactly if every `startRead` after the close was
  followed by a `stopRead`; `RemoveAssertionIff` is the condition in every other state.
- `TcpConnections.RegisteredUntilDestroyedIff` and `StopReadAfterDestroy`: `stopRead` on a destroyed
  connection still passes its guard, since `reading_` is never cleared by the close, and
  `Channel::update` then registers the removed channel again; with poll, whose `removeChannel` leaves
  the index in place, the assertion at muduo/net/poller/PollPoller.cc:112 fails instead.
- `Pollers.RemovalAssertionIff` and `RunBoth`, with the failing calls `RemovedAfterEmptyRegistration`:
  poll's `removeChannel` fails its assertion exactly for a channel that was registered without
  interest and not updated since, because its slot is not marked ignored; epoll's does not.

## Model

| member | source | states |
|---|---|---|
| Calendar.NextDayNumber | muduo/base/Date.cc:21-28 | over all integers, successive days of the Gregorian calendar (month lengths and leap rule as reference) get successive numbers |
| Calendar.Epoch | muduo/base/Date.cc:45 | 1970-01-01 has the number the header documents, which fixes the numbering |
| Calendar.CivilDateInvertsDayNumber | muduo/base/Date.cc:30-43 | the inverse formulas return every valid date from its number, unbounded in both directions |
| Calendar.DayNumberInvertsCivilDate | muduo/base/Date.cc:30-43 | every integer is the number of the valid date computed from it |
| Calendar.JulianDayNumberCorrectIff | muduo/base/Date.cc:21-28 | the C++ code gives the calendar's number exactly when the March-based year is not negative or is a leap year |
| Calendar.FromJulianDayNumberCorrectIff | muduo/base/Date.cc:30-43 | the C++ code returns a valid date exactly for numbers from -32044 on, and the number of that date is the argument |
| Calendar.JulianDayRoundTrip | muduo/base/Date.cc:21-43 | every valid date from -4800-03-01 on survives both conversions, and its successor gets the next number |
| Calendar.WeekDayCorrectIff | muduo/base/Date.h:95-99 | the week day is right, and not negative, exactly from day number -1 on and on earlier Sundays |
| Calendar.WeekDaysFollow | muduo/base/Date.h:95-99 | from day -1 on week days follow each other, and the epoch is a Thursday |
| Calendar.DayOfYear | muduo/base/TimeZone.cc:342-346 | the day of the year of every valid date lies in 0..364, or 0..365 in leap years |
| Calendar.NoOverflow | muduo/base/Date.cc:21-43 | for the years 1900 to 2500 every product and sum either conversion forms, the returned number included, is positive and fits 32 bits |
| TimeZones.FloorOfTrunc | muduo/base/TimeZone.cc:327-333 | the sign correction turns C++ quotient and remainder into floor division for negative times |
| TimeZones.HMSRoundTrip | muduo/base/TimeZone.cc:76-82 | hour, minute and second are in range and add up to the second of the day |
| TimeZones.UtcRoundTripIff | muduo/base/TimeZone.cc:322-363 | date and time of day are in range exactly from -4800-03-01 00:00:00 on, and from there `fromUtcTime` undoes `toUtcTime`, negative times included; all fields, week day and day of the year too, are in range exactly where in addition the day number is at least -1 or the day is a Sunday |
| TimeZones.UtcFieldsRoundTrip | muduo/base/TimeZone.cc:322-363 | conversely every valid calendar time from there on comes back from its second count |
| TimeZones.ToUtcTimeIsGmTimeIff | muduo/base/TimeZone.cc:322-348 | the break-down agrees with the calendar in every field exactly from day number -1 on and, before, on the Sundays from -4799-01-01 on |
| TimeZones.YearDayOff | muduo/base/TimeZone.cc:342-346 | the day of the year is right from -4799-01-01 on and one too small in the year -4800, for every day in range |
| TimeZones.FirstUtcSecond | muduo/base/TimeZone.cc:322-348 | the failing input: -4800-03-01 gets week day -4 and day of the year 59, where the calendar has 3 and 60 |
| TimeZones.TimeGmInvertsGmTime | muduo/base/TimeZone.cc:289-305 | the break-down and the second count used for local time are inverse on all integers, with every field of the break-down in range |
| TimeZones.LowerBoundPartitions | muduo/base/TimeZone.cc:234-237 | the halving search splits an ascending table into the smaller keys and the rest |
| TimeZones.LowerBoundSkipsSmaller | muduo/base/TimeZone.cc:242 | the assertion inside `findLocaltime` holds for every table, sorted or not |
| TimeZones.FindLocaltimeIsLastAtOrBefore | muduo/base/TimeZone.cc:223-255 | in both orders the result is the local time type of the last transition at or before the time, or the first type before all of them |
| TimeZones.UniqueReading | muduo/base/TimeZone.cc:277-320 | an instant whose local reading occurs once comes back |
| TimeZones.RepeatedReading | muduo/base/TimeZone.cc:299-320 | for an instant whose local reading occurs again, by how much the result is off: the step back, less one hour if daylight saving time ends there |
| TimeZones.LocalTimeRoundTripIff | muduo/base/TimeZone.cc:223-320 | for every table with transitions further apart than the stretches they repeat: the round trip holds at all instants if and only if every backward step is 3600 s from daylight saving to standard time |
| TimeZones.TwoHourSpacing | muduo/base/TimeZone.cc:223-320 | 7200 s between transitions are enough for the round trip in tables of that kind |
| TimeZones.StandardTimeMovedBackIsLost | muduo/base/TimeZone.cc:308-318 | for every amount by which standard time moves back, a concrete instant that comes back wrong |
| NetworkOrder.DecodeInvertsEncode | muduo/net/Buffer.h:235-337 | for every width, every signed value of that width is read back as written |
| NetworkOrder.EncodeInvertsDecode | muduo/net/Buffer.h:303-337 | every byte string is the encoding of exactly the integer read from it |
| NetworkOrder.MostSignificantFirst | muduo/net/Buffer.h:235-260 | for every value, width and position the byte is the base-256 digit of that weight, most significant first |
| Buffers.FindCRLF | muduo/net/Buffer.h:77-83 | the first CRLF, or none exists |
| Buffers.Buffer.constructor | muduo/net/Buffer.h:50-62 | empty, with the requested writable space and eight bytes to prepend into |
| Buffers.Buffer.Retrieve | muduo/net/Buffer.h:112-123 | drops that prefix of the readable bytes and nothing else |
| Buffers.Buffer.RetrieveAsString | muduo/net/Buffer.h:171-177 | the returned bytes and the ones left are the readable bytes before |
| Buffers.Buffer.Unwrite | muduo/net/Buffer.h:226-230 | drops that suffix |
| Buffers.Buffer.MakeSpace | muduo/net/Buffer.h:411-431 | growing and compacting keep the readable bytes and give the space; the compaction assertion holds whenever it is reached; no growth when there is room |
| Buffers.Buffer.EnsureWritableBytes | muduo/net/Buffer.h:205-212 | the space is there, the readable bytes unchanged |
| Buffers.Buffer.Append | muduo/net/Buffer.h:190-197 | the readable bytes are extended by the data at the end |
| Buffers.Buffer.Prepend | muduo/net/Buffer.h:368-374 | extended at the front, at the cost of prepend space only |
| Buffers.Buffer.Swap | muduo/net/Buffer.h:64-69 | contents and spaces of the two buffers exchanged |
| Buffers.Buffer.Shrink | muduo/net/Buffer.h:377-388 | same readable bytes, with at least the reserve writable |
| Buffers.Buffer.ReadFd | muduo/net/Buffer.cc:28-73 | however the kernel's bytes fall on the two segments, they are appended in order; an error changes nothing |
| Buffers.Buffer.AppendInt | muduo/net/Buffer.h:235-260 | the encoding is appended |
| Buffers.Buffer.PrependInt | muduo/net/Buffer.h:341-366 | the encoding is prepended |
| Buffers.Buffer.PeekInt | muduo/net/Buffer.h:303-337 | the one integer whose encoding is at the front |
| Buffers.Buffer.ReadInt | muduo/net/Buffer.h:266-296 | the same, taken off the front |
| Buffers.Perform | muduo/net/Buffer.h:112-431 | one operation acts on the abstract byte sequence or is refused for its precondition, and only prepends use up prepend space |
| Buffers.Run | muduo/net/Buffer.h:112-431 | for every sequence of operations and every initial size the buffer is the abstract byte sequence, and a run can only stop at a retrieval or an unwrite of more than there is, at prepends of more than eight bytes together, or at a read of more than 64 KiB |
| FrameCodec.AdlerIsSums | muduo/net/protobuf/ProtobufCodecLite.cc:195-199 | the two sums of Adler-32 reduced byte by byte are those of sections 2.2 and 8.2 of RFC 1950 reduced once |
| FrameCodec.ChecksumIsAdler32 | muduo/net/protobuf/ProtobufCodecLite.cc:195-199 | the checksum a frame carries is the Adler-32 value of section 8.2 of RFC 1950, the sum of sums in the upper half |
| FrameCodec.VerdictIff | muduo/net/protobuf/ProtobufCodecLite.cc:201-242 | which bodies get which error, and which the message: first the last four bytes must be the checksum's encoding, then the tag must match, then the payload must parse |
| FrameCodec.FrontIff | muduo/net/protobuf/ProtobufCodecLite.cc:62-96 | exactly when the loop waits for more bytes, complains about the length or skips a frame, and how many bytes it takes |
| FrameCodec.OnMessage | muduo/net/protobuf/ProtobufCodecLite.cc:58-97 | messages delivered, error and bytes left are those of the scan of the whole buffer |
| FrameCodec.FillEmptyBuffer | muduo/net/protobuf/ProtobufCodecLite.cc:42-56 | the buffer holds exactly the frame of the message |
| FrameCodec.LookAtAppend | muduo/net/protobuf/ProtobufCodecLite.cc:62-96 | more bytes never change a decision about the front of the stream |
| FrameCodec.ChunkingIsInvisible | muduo/net/protobuf/ProtobufCodecLite.cc:58-97 | every chunking of a stream delivers the same messages and ends with the same error and left-over bytes as the stream in one piece |
| FrameCodec.BodyParses | muduo/net/protobuf/ProtobufCodecLite.cc:188-242 | checksum, tag and message of an encoded body are accepted and give the message back |
| FrameCodec.FrameAtFront | muduo/net/protobuf/ProtobufCodecLite.cc:42-97 | an encoded frame at the front is taken whole exactly when it is within the length limit, and rejected otherwise |
| FrameCodec.TakenFrameIsValid | muduo/net/protobuf/ProtobufCodecLite.cc:58-97 | conversely a delivered message lay in bytes with exactly the length, tag and checksum an encoder writes, and the raw callback let them through |
| FrameCodec.FramesUpTo | muduo/net/protobuf/ProtobufCodecLite.cc:42-97 | frames within the limit are taken off in order whatever follows them; a raw callback removes exactly the messages it refuses |
| FrameCodec.FramesDecode | muduo/net/protobuf/ProtobufCodecLite.cc:42-97 | frames all within the limit decode to the messages in order, the buffer ending empty |
| FrameCodec.OverlongFrameStops | muduo/net/protobuf/ProtobufCodecLite.cc:42-97 | otherwise the messages before the first frame over the limit are delivered, the error is the invalid length, and that frame and all after it stay in the buffer |
| FrameCodec.EncodedMessagesArrive | muduo/net/protobuf/ProtobufCodecLite.cc:42-97 | the same for every way the frames are cut into chunks |
| Http.HttpContext.AddHeader | muduo/net/http/HttpRequest.h:145-168 | the trimming loops store what the specification of one header line stores |
| Http.HeaderStored | muduo/net/http/HttpRequest.h:145-168 | for every line and every spacing: the text between the white space after the colon and the white space at the end, empty or not, is stored under exactly the text before the colon, and all else is kept |
| Http.HttpContext.Parse | muduo/net/http/HttpContext.cc:65-133 | the loop over a buffer ends, and verdict, context and bytes left are those of the parser on the buffer's bytes |
| Http.ParseAppend | muduo/net/http/HttpContext.cc:65-133 | parsing an input and then more equals parsing both at once, up to rejection or completion |
| Http.WhatIsLeft | muduo/net/http/HttpContext.cc:65-133 | a rejection leaves everything from the rejected request line on; otherwise, unless the request is complete, at most a part of a line is left |
| Http.AnyHeaderLine | muduo/net/http/HttpContext.cc:100-121 | every header line with a colon, however spaced, is stored under its field and consumed |
| Http.NoColonEndsHeaders | muduo/net/http/HttpContext.cc:107-120 | every line without a colon, empty or not, completes the request |
| Http.ChunkingIsInvisible | muduo/net/http/HttpContext.cc:65-133 | verdict, state, request and bytes left do not depend on how the input was cut |
| Http.RequestLineParses | muduo/net/http/HttpContext.cc:16-61 | a request line printed as in section 3.1.1 of RFC 7230 gives back method, path, query and version |
| Http.AcceptedLineIsPrinted | muduo/net/http/HttpContext.cc:16-61 | conversely every accepted request line is the printing of the request read from it: nothing else is accepted |
| Http.HeaderLineParses | muduo/net/http/HttpRequest.h:145-168 | a header line printed as in section 3.2 of RFC 7230 gives back field and value |
| Http.MethodParses | muduo/net/http/HttpRequest.h:56-115 | the names of the five methods are read back |
| Http.PrintedRequestParses | muduo/net/http/HttpContext.cc:16-133 | every well-formed request, printed, parses to itself and leaves the bytes after it |
| Http.PrintedRequestArrives | muduo/net/http/HttpContext.cc:16-133 | the same however it arrives in chunks |
| Http.HeadersKept | muduo/net/http/HttpRequest.h:145-180 | every header that no later one of the same name replaces is found under its own name |
| Http.HeaderFields | muduo/net/http/HttpRequest.h:145-180 | and no header appears that was not sent |
| LogStreams.DecimalIsCanonical | muduo/base/LogStream.cc:48-71 | the text of every integer is a canonical numeral whose value, read by Horner's rule, is that integer |
| LogStreams.DecimalIsUnique | muduo/base/LogStream.cc:48-71 | there is no other canonical numeral of that value |
| LogStreams.DecimalFits | muduo/base/LogStream.cc:240-251 | with its NUL, every 64-bit value of either signedness fits the 48 bytes checked for |
| LogStreams.TwoSidedTable | muduo/base/LogStream.cc:38-40 | the two-sided digit table gives the right digit for truncated remainders of either sign, the most negative value included |
| LogStreams.WriteDigits | muduo/base/LogStream.cc:51-59 | the digits of the magnitude, least significant first, without ever negating the value |
| LogStreams.ReverseInPlace | muduo/base/LogStream.cc:67 | reverses that range of the array and leaves the rest |
| LogStreams.Convert | muduo/base/LogStream.cc:48-71 | the canonical text and a NUL are in the array, nothing before them changed |
| LogStreams.FixedBuffer.Append | muduo/base/LogStream.h:42-50 | data is added whole if a byte is left over, otherwise not at all |
| LogStreams.FixedBuffer.FormatInteger | muduo/base/LogStream.cc:240-251 | the canonical text is added if 48 bytes are available, otherwise nothing |
| Pollers.Ready | muduo/net/poller/PollPoller.cc:60-82 | the slots with events, all of them, each once, in order |
| Pollers.PollPoller.Register | muduo/net/poller/PollPoller.cc:95-107 | a new slot at the end keeps the bijection between channels and slots |
| Pollers.PollPoller.Change | muduo/net/poller/PollPoller.cc:111-131 | rewriting a slot keeps it, the descriptor encoded when no interest is left |
| Pollers.PollPoller.Update | muduo/net/poller/PollPoller.cc:86-132 | the bijection is kept; the slot is ignored exactly when a registered channel drops all interest, and no other slot changes |
| Pollers.PollPoller.Remove | muduo/net/poller/PollPoller.cc:135-171 | swapping with the last slot removes this channel only, keeps the bijection and which of the other slots are ignored |
| Pollers.PollPoller.CanRemove | muduo/net/poller/PollPoller.cc:144-146 | the assertion on the slot holds exactly for ignored ones |
| Pollers.PollPoller.FillActiveChannels | muduo/net/poller/PollPoller.cc:60-82 | the early exit returns the channels of the first ready slots in order, all of them if the count is not too small, with their events |
| Pollers.PollPoller.WatchesInterests | muduo/net/poller/PollPoller.cc:86-132 | what poll is asked to watch is the nonempty interests of the registered channels, nothing else |
| Pollers.EPollPoller.Ctl | muduo/net/poller/EPollPoller.cc:183-205 | every call meets the kernel's condition: ADD only for an absent descriptor, MOD and DEL only for a present one |
| Pollers.EPollPoller.Update | muduo/net/poller/EPollPoller.cc:110-157 | the three-valued index keeps telling whether the kernel has the descriptor and for which events |
| Pollers.EPollPoller.Remove | muduo/net/poller/EPollPoller.cc:159-180 | channel and kernel entry are gone, all others kept |
| Pollers.EPollPoller.WatchesInterests | muduo/net/poller/EPollPoller.cc:110-180 | what the kernel watches is the nonempty interests of the registered channels |
| Pollers.RemovalAssertionIff | muduo/net/poller/PollPoller.cc:135-146 | after any calls, the assertion on a channel without interest fails exactly if it was not updated since its registration |
| Pollers.StepPoll | muduo/net/poller/PollPoller.cc:86-171 | every call acts on the registry and the ignored slots as specified, or is a removal whose assertion fails |
| Pollers.StepEPoll | muduo/net/poller/EPollPoller.cc:110-205 | every call acts on the registry as specified, meeting all assertions and the kernel's conditions |
| Pollers.RemovedAfterEmptyRegistration | muduo/net/poller/PollPoller.cc:95-107 | the failing calls: registered without interest, then removed |
| Pollers.RunBoth | muduo/net/poller/EPollPoller.cc:110-205 | for every call sequence, first updates without interest included, both pollers hold the same registry and watch the same descriptors for the same events; an assertion fails, in poll only, exactly at the first removal of a channel not updated since its registration |
| TimerQueues.InsertSorted | muduo/net/TimerQueue.cc:299-303 | ordered insertion adds exactly that entry and keeps the order |
| TimerQueues.Erase | muduo/net/TimerQueue.cc:176-177 | removes exactly that entry and keeps the order |
| TimerQueues.DueCount | muduo/net/TimerQueue.cc:223-230 | splits the ordered entries at the time: due before, later after |
| TimerQueues.TimespecIsExact | muduo/net/TimerQueue.cc:42-56 | the descriptor never fires before the expiration, is late only by the 100 microsecond floor, and the timespec loses nothing to rounding |
| TimerQueues.ArmedExactly | muduo/net/TimerQueue.cc:71-85 | after arming the descriptor is due at the expiration, or 100 microseconds ahead if that is later |
| TimerQueues.RearmedIff | muduo/net/TimerQueue.cc:151-163 | adding re-arms the descriptor exactly for a timer due before all others, and the end of a batch exactly for a valid earliest expiration |
| TimerQueues.InsertKeeps | muduo/net/TimerQueue.cc:285-313 | inserting a live timer in neither index keeps the indexes in agreement and the ownership single, and the entry was absent as asserted |
| TimerQueues.CancelKeeps | muduo/net/TimerQueue.cc:165-190 | cancelling any identifier, in or out of callbacks, keeps both |
| TimerQueues.ExpiredExactly | muduo/net/TimerQueue.cc:217-248 | the batch is exactly the entries due, ascending, and exactly the others stay, in both indexes |
| TimerQueues.ExpireOwned | muduo/net/TimerQueue.cc:192-204 | taking the batch out passes its timers, and no others, to the batch |
| TimerQueues.ResetAllKeeps | muduo/net/TimerQueue.cc:250-271 | after the batch exactly its repeating timers not cancelled meanwhile are back, due one interval after the time of the batch and unchanged otherwise, the rest of the batch is deleted, and every other timer and entry is as before |
| TimerQueues.AddArms | muduo/net/TimerQueue.cc:151-163 | adding a timer keeps the descriptor armed for the earliest one |
| TimerQueues.CancelArms | muduo/net/TimerQueue.cc:165-190 | so does cancelling, the earliest one included |
| TimerQueues.FinishArms | muduo/net/TimerQueue.cc:273-282 | so does the end of a batch, also when the earliest expiration is not positive |
| TimerQueues.StepKeeps | muduo/net/TimerQueue.cc:126-313 | every step keeps indexes, ownership, histories and arming |
| TimerQueues.RunsAreSafe | muduo/net/TimerQueue.cc:126-313 | over every run the indexes describe the same live timers, each live timer has one owner, no deleted timer is touched, and while the loop waits the descriptor is due no later than the earliest timer, up to the 100 microsecond floor |
| TimerQueues.CancelledNeverFiresAgain | muduo/net/TimerQueue.cc:165-214 | over every run, once a timer handed to `addTimerInLoop` is cancelled, from anywhere, no later batch contains it |
| TimerQueues.TimersAreAsCreated | muduo/net/Timer.cc:16-30 | over every run each live timer has the interval, kind and sequence number it was created with, and is due when asked for or one interval after a batch |
| TimerQueues.BatchIsOfLastFire | muduo/net/TimerQueue.cc:192-210 | over every run the batch being called is what was due at the last expiry, with its time, and one callback has been called for each step since |
| TimerQueues.CancelingIsOfThisBatch | muduo/net/TimerQueue.cc:184-203 | over every run, only a cancel made during the callbacks of the current batch keeps a timer from being restarted |
| TimerQueues.StaleIdIsHarmless | muduo/net/TimerQueue.cc:165-190 | an identifier of another sequence number never touches the timer that now has the address |
| TimerQueues.SameSize | muduo/net/TimerQueue.cc:168-189 | the asserted equality of the two sizes |
| TimerQueues.TimerQueue.ResetTimerfd | muduo/net/TimerQueue.cc:71-85 | the descriptor is armed as the specification says |
| TimerQueues.TimerQueue.InsertTimer | muduo/net/TimerQueue.cc:285-313 | both indexes get the timer, and the result tells whether it is now the earliest |
| TimerQueues.TimerQueue.AddTimer | muduo/net/TimerQueue.cc:151-163 | the queue after adding is the specified one |
| TimerQueues.TimerQueue.Cancel | muduo/net/TimerQueue.cc:165-190 | the queue after cancelling is the specified one, its indexes in agreement and of equal size |
| TimerQueues.TimerQueue.EraseActive | muduo/net/TimerQueue.cc:238-244 | the loop removes the identifiers of exactly these entries |
| TimerQueues.TimerQueue.TakeExpired | muduo/net/TimerQueue.cc:192-248 | the queue and the batch are the specified ones, sizes equal as asserted |
| TimerQueues.TimerQueue.ResetEntry | muduo/net/TimerQueue.cc:256-270 | a repeating, uncancelled timer is restarted and reinserted, any other deleted |
| TimerQueues.TimerQueue.Reset | muduo/net/TimerQueue.cc:250-283 | the loop over the batch and the rearming give the specified queue and keep the invariant |
| EventLoops.StepKeeps | muduo/net/EventLoop.cc:116-190 | every step of the loop or a caller keeps order of tasks and the promise to wake |
| EventLoops.NoLostWakeup | muduo/net/EventLoop.cc:116-300 | in every interleaving: executed, snapshot and pending tasks are the submitted ones in order; a loop in poll with tasks pending or quit set has a readable eventfd or a caller about to write it |
| EventLoops.CalledInOrder | muduo/net/EventLoop.cc:176-300 | over every run the tasks called, those in the snapshot and those pending are the tasks of the `queueInLoop` calls, in order |
| EventLoops.QuitIff | muduo/net/EventLoop.cc:149-159 | over every run the quit flag is set exactly once `quit` has been called |
| EventLoops.QuitEndsTheLoop | muduo/net/EventLoop.cc:116-159 | over every run, after a call of `quit` from any thread a loop in poll will be woken, and its next undisturbed round is the last |
| EventLoops.OneRoundExecutesAll | muduo/net/EventLoop.cc:116-141 | an undisturbed round from poll on executes everything submitted before it, in a stated number of steps, and then the loop ends exactly if quit was called |
| EventLoops.EventLoop.QueueInLoop | muduo/net/EventLoop.cc:176-190 | the functor is last in the queue, and the loop is woken unless the loop thread itself queues outside of functors |
| EventLoops.EventLoop.DoPendingFunctors | muduo/net/EventLoop.cc:279-300 | exactly the tasks pending at the swap run, in order; what they queue stays pending, with one wakeup for each |
| AsyncLogs.AppendKeeps | muduo/base/AsyncLogging.cc:34-56 | appending keeps every line in order, and a missing spare implies a queued buffer |
| AsyncLogs.CollectKeeps | muduo/base/AsyncLogging.cc:75-88 | so does the writer's critical section |
| AsyncLogs.LinesAreConserved | muduo/base/AsyncLogging.cc:34-133 | in every interleaving of appends with the writer: all assertions of the writer hold; collected batches, queued buffers and the current one are everything appended, in order; the file is what the batches emit |
| AsyncLogs.AppendedInOrder | muduo/base/AsyncLogging.cc:34-56 | over every run what counts as appended is the lines of the calls that fit a buffer, in order, and no buffer overflows |
| AsyncLogs.HandOverIff | muduo/base/AsyncLogging.cc:34-56 | a buffer is handed over exactly when the line does not fit with a byte to spare, and the line then starts the next one |
| AsyncLogs.EmitAllText | muduo/base/AsyncLogging.cc:92-107 | for every mixture of batches the text written is all of each small batch and the first two buffers of each large one |
| AsyncLogs.NothingDroppedIff | muduo/base/AsyncLogging.cc:92-107 | the text written is all the text collected if and only if every dropped buffer was empty |
| AsyncLogs.TextIsConservedIff | muduo/base/AsyncLogging.cc:34-133 | over every run: the text in the file is what survives of the batches written; file, batch being written, queued buffers and current buffer together are everything appended if and only if every dropped buffer was empty, so always if no batch exceeds 25 buffers |
| AsyncLogs.LargeBatch | muduo/base/AsyncLogging.cc:92-107 | a larger batch loses exactly what lies past its first two buffers, and the notice gives their number |
| AsyncLogs.AsyncLogging.AppendLine | muduo/base/AsyncLogging.cc:34-56 | the shared buffers after an append are the specified ones |
| AsyncLogs.AsyncLogging.CollectBuffers | muduo/base/AsyncLogging.cc:81-87 | the swap gives the specified buffers and spares |
| AsyncLogs.AsyncLogging.WriteBuffers | muduo/base/AsyncLogging.cc:92-107 | the loop writes the batch, or the notice and two buffers |
| AsyncLogs.AsyncLogging.FlushBuffers | muduo/base/AsyncLogging.cc:92-132 | both spares are refilled, the assertions on the way holding |
| BoundedQueues.StepKeeps | muduo/base/ThreadPool.cc:52-116 | every step of any thread keeps the invariant on queue, waiters and woken threads |
| BoundedQueues.RunsKeepInv | muduo/base/BoundedBlockingQueue.h:32-71 | for any number of threads, single signals and spurious wakeups: a waiting consumer implies no more items than woken consumers, a waiting producer no more free places than woken producers, and taken then queued items are the accepted ones |
| BoundedQueues.WaitersKeepTheirItem | muduo/base/BoundedBlockingQueue.h:32-41 | over every run a producer that waits, or has been woken, still holds the item of its own latest call |
| BoundedQueues.ItemsAreWhatWasPut | muduo/base/ThreadPool.cc:75-116 | over every run the accepted items are those of the calls that found room on a running queue, each its thread's own, and the taken ones are the oldest, in the order of the calls that took them |
| BoundedQueues.RunsUntilStop | muduo/base/ThreadPool.cc:52-64 | over every run the queue runs exactly until `stop` |
| BoundedQueues.WaitersAreServed | muduo/base/BoundedBlockingQueue.h:32-71 | nobody waits over an item or a place without a woken thread to take it, and nobody waits after stop |
| BoundedQueues.StopIsFinal | muduo/base/ThreadPool.cc:52-96 | over every run, nothing is accepted any more once the pool has been stopped |
| BoundedQueues.AtMostOneMoreTask | muduo/base/ThreadPool.cc:52-145 | a worker that takes a task after stop takes no other one |
| TcpConnections.SendTakesWholeMessages | muduo/net/TcpConnection.cc:150-211 | a message is taken whole or not at all, refused only on a closed connection or when the direct write finds it broken |
| TcpConnections.SendKeeps | muduo/net/TcpConnection.cc:150-211 | whatever the write answers, the byte stream is conserved and write interest is on exactly when bytes wait |
| TcpConnections.SendNotices | muduo/net/TcpConnection.cc:163-203 | the high-water mark is reported exactly when the buffer crosses it, write complete exactly when the kernel took the whole message at once |
| TcpConnections.WriteKeeps | muduo/net/TcpConnection.cc:438-481 | a writable event, partial writes included, conserves the byte stream and the accepted messages, and keeps write interest on exactly while bytes wait |
| TcpConnections.WriteNotices | muduo/net/TcpConnection.cc:447-466 | write complete is reported exactly when the buffer becomes empty, and a shutdown waiting for that happens then |
| TcpConnections.SendWrites | muduo/net/TcpConnection.cc:163-204 | the kernel gets exactly what the direct write took, and exactly what it did not take goes behind the buffer |
| TcpConnections.WriteWrites | muduo/net/TcpConnection.cc:441-449 | a writable event moves exactly what the write took from the front of the buffer to the kernel |
| TcpConnections.StepKeeps | muduo/net/TcpConnection.cc:97-506 | every call, functor and event that passes its assertion keeps the invariant and moves the state forward only |
| TcpConnections.ByteStreamIsConserved | muduo/net/TcpConnection.cc:150-481 | over every run, of any calls and events: bytes given to the kernel followed by the output buffer are the accepted messages in order, and while open write interest is on exactly when bytes wait |
| TcpConnections.StreamIsWhatWasSent | muduo/net/TcpConnection.cc:97-481 | over every run: what the writes took, one after the other, followed by the output buffer, is the messages of the sends that were not refused, one after the other |
| TcpConnections.FunctorsRunInOrder | muduo/net/TcpConnection.cc:97-277 | over every run the functors that have run followed by those queued are the ones posted by calls from other threads, in order |
| TcpConnections.HalfCloseLosesNothing | muduo/net/TcpConnection.cc:214-243 | over every run: an open connection's write side is shut down only after all accepted bytes went to the kernel |
| TcpConnections.ShutdownIsDone | muduo/net/TcpConnection.cc:214-243 | over every run: a shutdown asked for is done once its functor has run and the buffer is empty |
| TcpConnections.LifeCycle | muduo/net/TcpConnection.cc:353-506 | over every run: the state never moves back, UP is reported once, DOWN and the close callback at most once |
| TcpConnections.ClosedIff | muduo/net/TcpConnection.cc:291-506 | over every run the connection is closed, with the close callback called once, exactly if a hang-up without POLLIN, a read that found the end or the functor of `forceClose` met it open |
| TcpConnections.ForceCloseIsDone | muduo/net/TcpConnection.cc:269-299 | over every run, once `forceClose` was called on an open connection and its functor has run, the connection is closed |
| TcpConnections.EndingIsFinal | muduo/net/TcpConnection.cc:214-289 | over every run, after `shutdown`, `forceClose` or `forceCloseWithDelay` the connection is never connected again |
| TcpConnections.ReadsUnlessStopped | muduo/net/TcpConnection.cc:323-365 | over every run an open connection has read interest exactly unless `stopRead` was called after the last `startRead` |
| TcpConnections.RegisteredUntilDestroyedIff | muduo/net/TcpConnection.cc:323-390 | over every run: the channel is registered exactly from establishment to destruction if and only if neither `startRead` nor `stopRead` passes its guard after the destruction |
| TcpConnections.StopReadAfterDestroy | muduo/net/TcpConnection.cc:343-351 | the failing run: hang-up, close, destruction, then `stopRead`, which registers the removed channel again |
| TcpConnections.CloseAssertionIff | muduo/net/TcpConnection.cc:484-488 | over every run, for both callers in a dispatch: the assertion fails exactly when the event found the connection closed already and closes or reads the end, or reads the end with a mask that closes |
| TcpConnections.HangUpThatReads | muduo/net/Channel.cc:92-123 | a failing run: a hang-up with POLLRDHUP and without POLLIN |
| TcpConnections.ReadAfterClose | muduo/net/TcpConnection.cc:328-336 | a failing run: close, `startRead`, POLLIN, and the read finds the end |
| TcpConnections.RemoveAssertionIff | muduo/net/TcpConnection.cc:375-390 | on every consistent connection, closed ones included: the assertion in the removal of the channel holds exactly if it is connected, or read interest is off and no bytes wait in a half-closed one |
| TcpConnections.RemovalAfterCloseIff | muduo/net/TcpConnection.cc:328-390 | over every run, once closed: that assertion holds if and only if every `startRead` after the close was followed by a `stopRead` |
| TcpConnections.StartReadBeforeDestroy | muduo/net/TcpConnection.cc:328-336 | a failing run: close, `startRead`, destruction |
| TcpConnections.ExpectedStepsAreSafe | muduo/net/TcpConnection.cc:97-506 | over every run without `startRead` after the close, events for a closed connection and masks that close and read: no step can fail an assertion, and the destruction finds no interest |
| TcpConnections.TcpConnection.Enqueue | muduo/net/TcpConnection.cc:193-210 | the rest goes behind the buffer, interest and notice as specified |
| TcpConnections.TcpConnection.Send | muduo/net/TcpConnection.cc:150-211 | the connection after a send is the specified one, for every answer of the kernel |
| TcpConnections.TcpConnection.OnWritable | muduo/net/TcpConnection.cc:438-481 | the same for a writable event |
| TcpConnections.TcpConnection.ShutdownWrite | muduo/net/TcpConnection.cc:232-243 | the same for the shutdown functor |
| TcpConnections.TcpConnection.Close | muduo/net/TcpConnection.cc:484-506 | the same for closing, where the state allows it |
| TcpConnections.TcpConnection.Establish | muduo/net/TcpConnection.cc:353-373 | the same for the start |
| TcpConnections.TcpConnection.StartReading | muduo/net/TcpConnection.cc:328-336 | the same for starting reads, the registration by `Channel::update` included |
| TcpConnections.TcpConnection.StopReading | muduo/net/TcpConnection.cc:343-351 | the same for stopping them |
| TcpConnections.TcpConnection.Destroy | muduo/net/TcpConnection.cc:375-390 | the same for the end, given that the removal's assertion holds |
| TcpConnections.TcpConnection.HandleEvent | muduo/net/Channel.cc:92-123 | close, read and write of one dispatch, in this order, give the specified connection and pass the assertion |

## Left out

- TimeZones.LocalTimeRoundTripIff: assumes transitions further apart than the stretches they repeat; tables with closer transitions are not characterised.
- Calendar.NoOverflow: machine integers appear in this lemma only; everywhere else integers are unbounded, since the values the source handles are far from their limits.
- Buffers.Buffer.MakeSpace: the bytes are a sequence that is reassigned, so the overlapping copy of the compaction is one step.
- EventLoops.NoLostWakeup: `quit` before `loop` is forgotten by the source and is not a step; a functor that `runInLoop` executes at once in the loop thread is not a queued task.
- EventLoops, AsyncLogs, BoundedQueues: the interleavings are step machines on values; the classes in the first two are the loop thread's and the lock holder's code, and the bounded queues have no class, since every one of their operations is a wait loop under a lock.
- TimerQueues.RunsAreSafe: assumes that the clock is positive and not set back; intervals are whole microseconds, as `addTime` leaves them.
- TcpConnections.LifeCycle: `shutdown` and `forceClose` from other threads are atomic up to the functor they queue, as the source leaves that race open; `connectDestroyed` is what the close callback leads to, not the destructor of a server.
- TcpConnections.RegisteredUntilDestroyedIff: `startRead` and `stopRead` before `connectEstablished` are not steps, since the connection is not handed out before.
- TcpConnections.ByteStreamIsConserved: a write after the write side was shut down is taken to fail with EPIPE.
- Http.ChunkingIsInvisible: from `kExpectRequestLine` or `kExpectHeaders` and up to rejection or completion, after which the server drops or resets the context; the receive time is not part of the request.
- FrameCodec.FramesDecode: the message library is any pair of functions of which the second inverts the first.
- The wait of the logger's writer ending by signal or timeout is one step; lines still in memory when the logger stops, file rolling and flushing are not modelled.
- `readTimeZoneFile`, `tm_zone` and the zone abbreviations: file contents only.
- `shutdown` and `forceClose` of a connection are functions and steps only, without methods of the class; they are one assignment each.
- The input buffer, error callback and high-water mark setter of a connection: they would add easy members only.
- `ThreadPool` without threads, which runs tasks in the caller, and exceptions thrown by tasks or callbacks.
- `convertHex`, floating point, SI and IEC formatting: the same loop over another base, or library formatting.
- Sockets, acceptor, connector, client and server objects, inspectors, RPC, gzip and process information: wrappers around the system or around what is modelled.
- Mutexes, condition variables, atomics and reference counts: assumed to do what they promise.
