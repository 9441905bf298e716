# A verified model of the vkt7d data path

vkt7d reads the archives of a VKT-7 heat meter over a lossy byte link and stores them with a cursor
that survives restarts. This project models the code between the wire and the table in Dafny 4.11 and
proves what that code is for: a damaged frame is not taken for data, a response survives Telnet
escaping and TCP fragmentation, an acknowledgement reaches only the caller that asked for it, a record
read in pieces is the record, and a period of an archive is passed over in silence in no run but those
whose exact condition is given.

`dafny verify dfyconfig.toml` checks everything.

## How it is organised

| layer | modules | what is proved there |
|---|---|---|
| octets | `Bytes`, `ValueTypes` | octet arithmetic, concatenation and folds used everywhere |
| checksum | `Crc`, `CrcBursts`, `CrcDistance` | the CRC loop is a bit-serial shift register; bursts up to 16 bits, odd numbers of flips, and one to three flips are detected |
| frames | `Assembly`, `Frames`, `Wire` | responses are reassembled from arbitrary reads; only well-formed frames are delivered; every failure has its exact condition; the retry rule; a transaction over the wire is one step of the meter's model |
| Telnet | `Telnet`, `TelnetCodec` | the eight-state decoder, as a class, inverts the printers over any fragmentation; every stream is one that the printers print |
| RFC 2217 port | `AckTable`, `AckDelivery`, `ReceiveQueue`, `Port` | interleaving machines for the acknowledgement table, with delivery, and the receive queue; the class whose methods are their steps |
| whole receive path | `EndToEnd` | a response comes out of `readResponse` as the meter sent it |
| elements | `Integers`, `Elements`, `Readings`, `ReadLists`, `Chunks` | two's complement, record parsing and what its readings say, read lists, the greedy split and its optimality, chunks against the whole |
| time | `Calendar`, `Marks`, `Starts` | Gregorian months, Go's normalising dates, archive marks, due marks, keys, the dates on the wire |
| meter | `Meter`, `ArchiveRecord`, `RecordLaws`, `Order` | a meter with state, arbitrary behaviour and a log of its commands; reading one record with a scheme change, what its result says about the log, and the order of commands |
| archive | `Archive`, `ArchiveRows`, `ArchiveMissed`, `Batches` | sessions over a table: no silent gaps, one row per period, which missing dates are asked for again, batching |
| collector | `Collector`, `SessionLaws`, `InForce`, `Typing`, `LostType`, `Driven` | `collectArchive` itself against meter and table, turn by turn; which active list and metadata it goes by; under which type it reads; against a steady meter it does what the batching theorems say |
| report | `Cumulative` | readings reconstructed in both directions |

Where the source updates fields, the model is a class (`Telnet.Decoder`, `Port.Port`, `Meter.Meter`,
`Collector.Store`); where it loops, a method with a loop. Each such method is tied to a function of
its inputs or old state, and the lemmas are about that function. Concurrent code is a state machine
whose steps are the critical sections and channel operations; the lemmas hold for every interleaving.

The environment is never assumed to behave. Reads come from arbitrary scripts of data, empty reads,
end-of-file and failures. The meter is an arbitrary function of time and of its setting; a command may
be accepted, refused with any exception code or lost, and a refused or lost command may still have
taken effect. A failed save may or may not have written its row. The clock may jump, within a bound
that is needed only for termination.

## Where the code and its documentation differ

The model follows the code.

- README.md:83-85 says that a read-only request may be retried. `tx` (internal/protocol/protocol.go:131-174)
  repeats any request after a checksum error (`Frames.Transact`), and so also a write
  (`Wire.WriteSentTwice`). Repeating one does no harm to the setting: it is as if the command had been given
  once, with the effect of either sending and the answer of the second (`Wire.TwiceIsOnce`).
- README.md:123 says that a missing date can be retried by the next cycle. The cursor resumes after the
  greatest key, so a session without overlap that gets that far asks for the date again exactly when no
  row of a later period has been stored meanwhile (`ArchiveMissed.MissedIsRetried`), and otherwise no
  later session ever does (`ArchiveMissed.PassedForGood`). `Archive.NoSilentGaps` counts such a date as
  accounted for by exception 3.
- internal/collector/collector.go:459-461 says that the parser consumes the data exactly.
  `ParseElements` rejects short data and ignores trailing data (`Elements.ParseReadsPrefix`). What parses is
  consumed whole exactly when its length is that of the elements (`Elements.ConsumesExactly`). Reading in
  chunks equals reading the whole when all chunks but the last have their exact length
  (`Chunks.ChunkedIsWhole`); one octet too many in an earlier chunk makes them differ
  (`Chunks.LongChunkDiffers`).
- The docstring of tools/vkt7_report_db.py:546-571 promises readings for a report that precedes its anchor.
  The last day then never gets one (`Cumulative.AnchorAfterLosesLastDay`), and every earlier complete day
  reads too much, by exactly the consumption between the report and the anchor
  (`Cumulative.AnchorAfterIsOff`). Across days without an increment a reading departs from the promised sum
  on either side of the anchor, by exactly the consumption that its loop does not add in
  (`Cumulative.ReadingIsOff`).

## Results that needed a condition

- Several sessions agree with one long session for every meter, clock and batch exactly when the archive
  is not daily or its range starts at midnight (`Batches.BatchingExactly`). A daily range that starts
  within a day steps from that hour, while a resumed session steps from the stored date, so the two see
  different marks become due (`Batches.DailyDisagrees`). A short range always gives a daily start at hour 23;
  a long one gives the hour in its octet 11 (`Marks.DailyStart`).
- A session can leave no gap, whatever happens in it, exactly when it is safe, or when the month it starts in
  has been read to the end before (`Archive.SafeExactly`). A monthly session that resumes is unsafe when its
  overlap is one month and the report day, clamped, exceeds the month before: with report day 31 and the row
  of February stored, it starts on 2 or 3 March, finds nothing there, and passes over 31 March
  (`Archive.OverlapPassesMark`, `Archive.MarchPassed`). A monthly collection that starts from a range of fewer
  than four octets begins one year before the present and is unsafe unless that is a report mark.
- Hourly and daily archives never get two rows for one period, whatever the overlap. A monthly session can
  give a month a second row exactly when a row from its first month on lies under another key than the one it
  will come to (`ArchiveRows.FittingExactly`): with report day 31 and an overlap of one month, the row of
  31 March is joined by one of 30 March (`ArchiveRows.OverlapDoublesRow`). Without overlap, or while the
  report day is kept, no month gets two rows (`ArchiveRows.NoOverlapFits`, `ArchiveRows.SameDayOneRow`).
- `Port.Read` puts back what did not fit the caller's buffer at the end of the queue. The same steps keep the
  order of every stream exactly when each remainder meets an empty queue (`ReceiveQueue.OrderForAllOctets`);
  a small buffer can reorder it (`ReceiveQueue.SmallBufferReorders`). `readResponse` reads with a buffer of
  a whole frame, for which no remainder arises (`EndToEnd.ResponseArrives`).
- After a scheme change the archive type is restored by a command that can itself be refused. If that happens
  with exception 3, the turn is taken for one without a record and the session goes on under the type for
  current values. A turn leaves another type, and the session running, exactly when its last command was such
  a refusal, or a refusal with exception 3 of the command to leave the archive type that took effect all the
  same (`Typing.TurnLosesExactly`). A session reads data under another type exactly when such a refusal was
  followed by a read before the archive type was set again (`Typing.TypedExactly`); otherwise all its reads
  are under its own. A meter that answers its sixth command with exception 5 and its twelfth with exception 3,
  and accepts all others, makes the collector store a daily row with the readings of the type for current
  values (`LostType.StoreWrongRow`).

## Model

| member | source | states |
|---|---|---|
| `Crc.CRC16` | internal/protocol/protocol.go:78-91 | the two nested loops compute the fold of the octet step from 0xFFFF |
| `Crc.OctetIsEightBits` | internal/protocol/protocol.go:80-89 | mixing in a whole octet and shifting eight times equals eight single-bit steps, low bit first |
| `Crc.ChecksumIsBitSerial` | internal/protocol/protocol.go:78-91 | the checksum of any octet string is the shift register run over its bits in line order |
| `Crc.TrailerClears` | internal/protocol/protocol.go:233-239 | two octets bring the register to zero if and only if they are its value, low octet first |
| `Crc.PassesIffZero` | internal/protocol/protocol.go:233-239 | a frame of at least two octets passes the check if and only if the checksum of all of it, trailer included, is zero |
| `Crc.CheckValue` | internal/protocol/protocol.go:78-91 | the digits 1 to 9 give 0x4B37, the published check value of this CRC |
| `CrcBursts.DifferenceClears` | internal/protocol/protocol.go:233-239 | the bit difference of two passing frames of one length runs the register from zero to zero |
| `CrcBursts.BurstRejected` | internal/protocol/protocol.go:219-242 | damage within any 16 consecutive bits, trailer and unaligned bursts included, never gives another passing frame, at any length |
| `CrcBursts.PassingIsEven` | internal/protocol/protocol.go:219-242 | every passing frame carries an even number of one bits |
| `CrcBursts.OddFlipsRejected` | internal/protocol/protocol.go:219-242 | any odd number of flipped bits is rejected, at any length |
| `CrcDistance.ReturnsLate` | internal/protocol/protocol.go:82-88 | the shift register returns to a single one only after 32767 shifts |
| `CrcDistance.FewFlipsRejected` | internal/protocol/protocol.go:219-242 | one, two or three flips anywhere in a frame of up to 4095 octets are rejected: the code has distance 4 on every frame the protocol carries |
| `Frames.SealedPasses` | internal/protocol/protocol.go:101-106 | whatever the body, its checksum appended low octet first makes a frame that passes |
| `Frames.FrameSays` | internal/protocol/protocol.go:101-106 | a request frame passes the check and gives back address, function, register, quantity and payload |
| `Frames.NeverTooLong` | internal/protocol/protocol.go:181-216 | the branch for a response over the maximum is unreachable; an announced length lies between 5 and 260 |
| `Frames.LengthExactly` | internal/protocol/protocol.go:181-216 | octets have the length they announce exactly if they are six of an exception, five around the data of a read, or the eight that acknowledge a write |
| `Frames.ValidateExactly` | internal/protocol/protocol.go:219-242 | exactly a frame of the expected length that passes the check is accepted, and exactly one of that length that fails it is a checksum error |
| `Frames.ReadResponse` | internal/protocol/protocol.go:244-319 | the reading loop returns what the assembly function gives on the same script of reads, and the lemmas below say exactly when that is a frame or which failure |
| `Frames.DecideExactly` | internal/protocol/protocol.go:266-313 | the loop ends with a frame if and only if what has arrived is well formed, and then with exactly that |
| `Frames.PrefixWaits` | internal/protocol/protocol.go:181-216 | no proper prefix of a well-formed response ends the wait, neither with a frame nor with an error |
| `Assembly.Reassembled` | internal/protocol/protocol.go:244-319 | a message none of whose proper prefixes is decided arrives whole, however it is cut |
| `Assembly.DecidedOnReceived` | internal/protocol/protocol.go:244-319 | every decision is the rule applied to exactly what the reads so far have brought |
| `Frames.ResponseReassembled` | internal/protocol/protocol.go:244-319 | a well-formed response in any split, with empty and end-of-file reads anywhere, is returned exactly |
| `Frames.OnlyWellFormed` | internal/protocol/protocol.go:244-319 | whatever the port delivers, a returned frame passes the check, has the length it announces, and is what arrived first |
| `Assembly.EndDecides` | internal/protocol/protocol.go:244-319 | a collection ends at the first read that is broken or after which the rule decides, and what the reads up to there brought decides its outcome |
| `Frames.ReturnedExactly` | internal/protocol/protocol.go:244-319 | a frame is returned if and only if the first octets that do not wait for more are well formed, and then they are the frame |
| `Frames.CrcErrorExactly` | internal/protocol/protocol.go:244-319 | a checksum error is returned if and only if those octets have exactly the length they announce and fail the check |
| `Frames.ExcessExactly` | internal/protocol/protocol.go:244-319 | trailing octets are reported if and only if those octets are more than they announce, a response too long if and only if they are more than any frame has |
| `Frames.UnstoppedExactly` | internal/protocol/protocol.go:244-319 | the reading times out with what has come if and only if all of it waits for more; it fails with the port if and only if a read is broken and all that came before waits |
| `Frames.DamageIsCrcError` | internal/protocol/protocol.go:219-242 | a short burst, an odd number of flips or up to three flips in an accepted frame is reported as a checksum error |
| `Frames.DamageNotDelivered` | internal/protocol/protocol.go:244-319 | no such damaged form of a good frame is ever returned, whatever the reads |
| `Frames.Transact` | internal/protocol/protocol.go:113-177 | the request goes out twice if and only if the purge worked and the first octets that did not wait for more had exactly the length they announce and failed the check, always with two 0xFF octets before it; the result is exactly the answer to the last sending, or a port failure where nothing was sent, the write failed, or the purge before the retry failed |
| `Frames.ReadReplyDelivers` | internal/protocol/protocol.go:438-450 | a read reply with up to 255 octets is well formed and gives back exactly its data |
| `Frames.ReadReplyExactly` | internal/protocol/protocol.go:438-450 | conversely every well-formed normal read response is the reply to its own data part |
| `Frames.ExceptionReplyDelivers` | internal/protocol/protocol.go:488-499 | an exception frame is well formed for any function and gives back its code |
| `Wire.RequestHeard` | internal/protocol/protocol.go:516-637 | a device that reads a request field by field, marks of the read list and quantities included, takes it for exactly the command it was made from: type, read list, date or one of the reads |
| `Wire.HeaderOctets` | internal/protocol/protocol.go:101-106 | function, register and quantity of every request, octet for octet |
| `Wire.ResponseUnderstood` | internal/protocol/protocol.go:445-499 | the frame a device sends for a fate is well formed, and the client understands by it what the model of the meter reports for that fate, data and all; the refusal of a diagnostic read passes for its data |
| `Wire.IntactIsHonest` | internal/protocol/protocol.go:244-319 | a response that arrives whole, in any pieces, is the answer |
| `Wire.GarbledIsCrcFault` | internal/protocol/protocol.go:219-319 | a damaged response that still announces its length is a checksum error, in whatever pieces it comes |
| `Wire.TwiceIsOnce` | internal/protocol/protocol.go:131-174 | a command that the device carries out twice leaves the setting of one command with the effect of either and the answer of the second |
| `Wire.Execute` | internal/protocol/protocol.go:113-177 | on any line where no answer passes for another the client learns exactly what the model of the meter reports for the fate the sendings met, with the data of the last answer; it learns it whenever the first answer is accepted, or fails its checksum and the second is accepted |
| `Wire.SentTwice` | internal/protocol/protocol.go:131-174 | a damaged first answer costs a second sending of the same request and nothing else: the client learns the answer to the second |
| `Wire.OneStep` | internal/protocol/protocol.go:113-177 | a transaction is one step of the meter: the step has the answer that the client learnt and leaves the setting that the sendings left |
| `Wire.WriteSentTwice` | internal/protocol/protocol.go:131-174 | for every write command there is a run in which its request, with the function code for writing, goes out twice |
| `Telnet.Decoder.constructor` | internal/rfc2217/telnet.go:10-13 | a new decoder is in the data state |
| `Telnet.Decoder.Accept` | internal/rfc2217/telnet.go:42-109 | one byte moves the state machine and reports what it completes; data is pending only in the data state |
| `Telnet.Decoder.Feed` | internal/rfc2217/telnet.go:26-113 | the callbacks, flattened, are the trace of the input in stream order, and no data callback is empty |
| `Telnet.DecodeAppend` | internal/rfc2217/telnet.go:26-113 | decoding two pieces one after the other is decoding their concatenation, from any state |
| `TelnetCodec.EncodeData` | internal/rfc2217/rfc2217.go:486-501 | the loop of Write doubles every IAC |
| `TelnetCodec.CommandMessage` | internal/rfc2217/rfc2217.go:308-316 | the loop of command builds IAC SB, option, command, escaped value, IAC SE |
| `TelnetCodec.CommandIsSubnegotiation` | internal/rfc2217/rfc2217.go:308-316 | that message is the printed subnegotiation of option, command and value |
| `TelnetCodec.Messages` | internal/rfc2217/rfc2217.go:299-316 | the message that asks for a purge, a block with 255 in it, and the four negotiations, octet for octet |
| `TelnetCodec.PrintedSub` | internal/rfc2217/telnet.go:85-108 | a subnegotiation is reported with its unescaped payload if it ends in IAC SE, and dropped whole if it ends in IAC and another byte |
| `TelnetCodec.DecodeInvertsPrint` | internal/rfc2217/telnet.go:26-113 | decoding any sequence of printed items, commands without option and spoiled subnegotiations among them, yields exactly their data octets, negotiations and subnegotiations, in order, and ends between items |
| `TelnetCodec.EveryStream` | internal/rfc2217/telnet.go:39-120 | every stream of octets is the print of some items and the beginning of at most one more |
| `TelnetCodec.EveryStreamMeans` | internal/rfc2217/telnet.go:39-120 | so what the decoder makes of any stream is the meaning of the items it is the print of |
| `TelnetCodec.ReadsAreOneStream` | internal/rfc2217/rfc2217.go:353-381 | feeding reads one after another is decoding the whole stream |
| `TelnetCodec.FragmentsDecode` | internal/rfc2217/rfc2217.go:353-381 | from any state between items, the printed items cut at arbitrary points give the same trace and end between items |
| `AckTable.ChannelsDistinctKept` | internal/rfc2217/rfc2217.go:298-306 | every step keeps: no two live calls share a channel, and no channel is used again |
| `AckTable.EntriesMatchKept` | internal/rfc2217/rfc2217.go:298-351 | every step keeps: a live call finds its own channel under its command |
| `AckTable.EntriesOwnedKept` | internal/rfc2217/rfc2217.go:298-351 | every step keeps: every entry belongs to a live call |
| `AckTable.RepliesGenuineKept` | internal/rfc2217/rfc2217.go:409-447 | every step keeps: a message in a live channel, or taken from one, is a reply with the answering code handled after the call registered |
| `AckTable.RunKeeps` | internal/rfc2217/rfc2217.go:298-447 | the four hold after every interleaving of callers, reader, timeouts and close |
| `AckTable.OneOwner` | internal/rfc2217/rfc2217.go:298-351 | in every reachable state a command has an entry if and only if a live call owns it, and then exactly one does |
| `AckTable.RemoveIsOwn` | internal/rfc2217/rfc2217.go:347-351 | deleting by key removes the entry of the deleting call and leaves every other live call its own |
| `AckTable.NeverUnexpected` | internal/rfc2217/rfc2217.go:325-330 | the branch for an unexpected acknowledgement is unreachable |
| `AckTable.SuccessWasAnswered` | internal/rfc2217/rfc2217.go:325-330 | success means that a reply with the answering code was handled after the call registered |
| `AckTable.AnswerCodes` | internal/rfc2217/rfc2217.go:93-106 | exactly the twelve client commands have an answer, a hundred above, and the reverse search is the inverse |
| `AckDelivery.AnswerDelivered` | internal/rfc2217/rfc2217.go:409-447 | in every reachable state an answer to a live call goes into its empty channel, whole, and changes no other |
| `AckDelivery.AnswerTaken` | internal/rfc2217/rfc2217.go:320-331 | a waiting call can then take it, and succeeds with it |
| `AckDelivery.DeliveredExactly` | internal/rfc2217/rfc2217.go:409-447 | a subnegotiation changes the table if and only if it answers a live call whose channel is empty |
| `AckDelivery.MessageStays` | internal/rfc2217/rfc2217.go:299-345 | a message stays in its channel, through every other step, until the call that owns it takes it |
| `ReceiveQueue.ConservedKept` | internal/rfc2217/rfc2217.go:449-542 | every channel step keeps: what was pushed is what was returned, queued, held back, purged or dropped, as multisets |
| `ReceiveQueue.QueueConserves` | internal/rfc2217/rfc2217.go:449-542 | so it is after every interleaving of pushes, reads, put-backs, purges and close |
| `ReceiveQueue.NothingLost` | internal/rfc2217/rfc2217.go:449-542 | while nobody purges or closes the port, no octet is lost, whatever the interleaving |
| `ReceiveQueue.SmoothRunInOrder` | internal/rfc2217/rfc2217.go:519-531 | while every block fits its buffer, octets come out in the order in which they went in |
| `ReceiveQueue.PutBackOrder` | internal/rfc2217/rfc2217.go:521-530 | putting a remainder back keeps stream order if and only if it commutes with what is queued |
| `ReceiveQueue.PutBackNeedsEmpty` | internal/rfc2217/rfc2217.go:521-530 | where all octets pushed are different, putting a remainder back keeps the order if and only if nothing is queued |
| `ReceiveQueue.EmptyPutsKeepOrder` | internal/rfc2217/rfc2217.go:449-542 | a run without purge or drop in which every remainder meets an empty queue keeps the order of any octets |
| `ReceiveQueue.OrderKeptExactly` | internal/rfc2217/rfc2217.go:449-542 | a run without purge or drop that pushes octets all different keeps their order if and only if every remainder meets an empty queue |
| `ReceiveQueue.OrderForAllOctets` | internal/rfc2217/rfc2217.go:449-542 | the same steps keep the order for all octets if and only if every remainder meets an empty queue |
| `ReceiveQueue.SmallBufferReorders` | internal/rfc2217/rfc2217.go:521-530 | octets 1 2 3 read with a buffer of one can come out as 1 3 2 |
| `Port.Port.constructor` | internal/rfc2217/rfc2217.go:164-173 | a new port is the initial state of both machines |
| `Port.Port.Claim` | internal/rfc2217/rfc2217.go:299-306 | a pending command is refused and changes nothing; otherwise it gets a fresh channel |
| `Port.Port.RemoveAck` | internal/rfc2217/rfc2217.go:347-351 | the table loses exactly the entry of the command |
| `Port.Port.HandleSubneg` | internal/rfc2217/rfc2217.go:409-447 | a modem-state notice of three octets sets the modem bits and nothing else; any other reply is delivered as `AckDelivery.DeliveredExactly` says; the reverse search of the table finds the command for every code |
| `Port.Port.PushData` | internal/rfc2217/rfc2217.go:449-458 | a non-empty block is one push step, or is given up if the port is closed, or blocks while neither is possible; where both are, either may be chosen |
| `Port.Port.Receive` | internal/rfc2217/rfc2217.go:519-523 | a read hands out as much of the first block as fits, keeps the rest, and is one take step |
| `Port.Port.GiveBack` | internal/rfc2217/rfc2217.go:524-529 | the remainder returns to the channel, or is dropped if the port is closed, or stays while neither is possible; where both are, either may be chosen |
| `Port.Port.Drain` | internal/rfc2217/rfc2217.go:567-574 | everything queued is lost, nothing that was returned or held back changes |
| `Port.Port.Shut` | internal/rfc2217/rfc2217.go:623-651 | the closing step sets the flag and leaves queue and counts alone |
| `EndToEnd.Reader` | internal/rfc2217/rfc2217.go:353-381 | the connection reader feeds every read through one decoder, in order |
| `EndToEnd.PushedIsSent` | internal/rfc2217/rfc2217.go:353-381 | from any decoder state between items, the blocks pushed to the queue spell exactly the data octets among the printed items, wherever TCP cut them |
| `EndToEnd.ReadsDepend` | internal/rfc2217/rfc2217.go:449-542 | what the calls of Read return depends on the queue, the remainder and the closed flag alone, not on what went through before |
| `EndToEnd.ResponseArrives` | internal/protocol/protocol.go:244-319 | at any point of a connection where the decoder is between items and the queue is empty, a well-formed response, escaped, mixed with negotiations and subnegotiations, cut into any TCP reads, decoded, queued and read in any interleaving of pushes, reads and timeouts, is returned exactly |
| `Integers.SignedInverse` | internal/protocol/protocol.go:860-882 | decoding inverts little-endian two's complement at every width |
| `Integers.OctetsInverse` | internal/protocol/protocol.go:860-882 | encoding inverts decoding for every octet string |
| `Integers.SignExtension` | internal/protocol/protocol.go:860-882 | widening by the sign octet does not change the value |
| `Integers.SignedFits` | internal/protocol/protocol.go:860-882 | the value is in range for its width, negative if and only if the top bit is set, and differs from the unsigned one by the modulus |
| `Integers.OrAbove` | internal/protocol/protocol.go:868-871 | the bitwise or of a number and bits shifted above it is their sum |
| `Integers.SignAbove` | internal/protocol/protocol.go:873-879 | the 64-bit pattern of up to eight octets, with the shifted mask of ones put in if the top bit is set, is that of their two's complement value |
| `Elements.DecodeSignedInt` | internal/protocol/protocol.go:860-882 | the loop of 64-bit shifts and ors and the sign mask give one to eight octets their two's complement value; other lengths are refused |
| `Elements.ParseElements` | internal/protocol/protocol.go:816-846 | the loop over a running offset equals parsing the remaining data element by element; what the readings are is told by `Readings.RecordSays`, what is refused by `Readings.RefusedExactly` |
| `Elements.DecodeElementValue` | internal/protocol/protocol.go:760-814 | the value of an element, integers by the loop that extends their sign |
| `Readings.DecodedSays` | internal/protocol/protocol.go:760-882 | a value is what its octets say for the kind of the element: five counters whose octets they are, a digit, a number in two's complement of their width, or the octets themselves; exactly the sizes that the kind does not have are refused |
| `Readings.IntegerUnique` | internal/protocol/protocol.go:860-882 | no other number has those octets |
| `Readings.WiderIsSame` | internal/protocol/protocol.go:860-882 | a number sent one octet wider, with its sign repeated, decodes to the same value |
| `Readings.RecordSays` | internal/protocol/protocol.go:816-846 | the addresses of a parsed record are those of the list, and the reading of each has value, quality and NS octet from exactly the place where its last element stands |
| `Readings.ParsedExactly` | internal/protocol/protocol.go:816-846 | data are parsed if and only if they are long enough for the list and every size fits its kind |
| `Readings.RefusedExactly` | internal/protocol/protocol.go:816-846 | otherwise the error names the first element that lacks data or has a size its kind does not have, and which of the two |
| `Elements.ParseConcat` | internal/protocol/protocol.go:816-846 | parsing a concatenation of streams of exact length merges the records; the first error wins |
| `Elements.ParseInvertsStream` | internal/protocol/protocol.go:816-846 | the stream of value, quality and NS octets parses to exactly the readings it was written from |
| `Elements.ParsedIsStream` | internal/protocol/protocol.go:816-846 | whatever parses begins with the stream of the readings it yields |
| `Elements.ParseReadsPrefix` | internal/protocol/protocol.go:816-846 | octets after those the elements take change nothing |
| `Elements.ConsumesExactly` | internal/collector/collector.go:459-461 | data that parses is some stream of readings, with nothing left over, if and only if its length is that of the elements |
| `ReadLists.MakeReadListPayload` | internal/protocol/protocol.go:607-624 | a payload exists if and only if there are at most 42 entries, and is the length octet followed by them |
| `ReadLists.DecodeActiveList` | internal/protocol/protocol.go:566-595 | the loop over six-octet entries keeps the supported ones in order; bad lengths and empty results are errors |
| `ReadLists.OneActive` | internal/protocol/protocol.go:576-590 | an entry of the active list is kept, with its 30-bit address and its size, exactly if its address is at most 82 |
| `ReadLists.ActiveListIsShort` | internal/protocol/protocol.go:570-591 | a response gives at most one element for every six octets, each with a supported address and a 16-bit size |
| `ReadLists.ReadListInverse` | internal/protocol/protocol.go:607-624 | a written read list, read as an active list, gives the same addresses and sizes |
| `ReadLists.EntriesMarked` | internal/protocol/protocol.go:607-625 | the k-th entry of a written read list is the address with bit 30 set, and the size, in little-endian octets |
| `ReadLists.SelectionIsWritable` | internal/protocol/protocol.go:627-637 | any selection from a received active list has a payload, and its request with wake-up octets has at most 263 octets |
| `ReadLists.Select` | internal/collector/collector.go:200-222 | the selection holds an element if and only if the list does and it is meaningful for the type |
| `ReadLists.MeaningfulApart` | internal/collector/collector.go:210-222 | up to address 43 an element is a current value or a total and never both, reserved ones apart; the archives of hours, days and months hold all but the momentary flows; both kinds of totals hold the same |
| `ReadLists.SelectAppend` | internal/collector/collector.go:200-208 | the selection keeps the order of the list |
| `ReadLists.Filter` | internal/collector/collector.go:200-208 | the loop computes that selection |
| `ReadLists.SplitArchiveReadList` | internal/collector/collector.go:346-386 | the loop over an open chunk computes the greedy split |
| `ReadLists.SplitIsSplit` | internal/collector/collector.go:346-386 | the chunks, concatenated, are the list; each is non-empty and takes at most 60 octets or is a single element |
| `ReadLists.ReadableIsShort` | internal/collector/collector.go:346-386 | a chunk has at most 30 elements, so writing it as read list is never refused for its size |
| `ReadLists.SplitIsShortest` | internal/collector/collector.go:346-386 | no other split into such chunks has fewer of them |
| `Calendar.MonthsAbut` | internal/collector/collector.go:539-571 | every Gregorian month begins where the one before it ends |
| `Calendar.DateOfParts` | internal/collector/collector.go:539-571 | on whole hours a normalising date of the parts of a time is that time |
| `Calendar.PartsOfDate` | internal/collector/collector.go:643-652 | a date of valid parts has those parts |
| `Calendar.ReportDateIsMark` | internal/collector/collector.go:539-571 | the three normalising dates come to hour 23 of the clamped report day of the month that many months away |
| `Calendar.ReportMarkParts` | internal/collector/collector.go:539-571 | that mark lies in its month on its clamped day |
| `Calendar.SteppingAdds` | internal/collector/collector.go:539-571 | month steps add up, for all offsets and report days, so end-of-month clamping never drifts |
| `Marks.NextPeriod` | internal/collector/collector.go:590-599 | every step leads to the mark of exactly the next hour, day or month, on the grid |
| `Marks.NextLater` | internal/collector/collector.go:302-310 | a step always advances, so the guard against a cursor that stands still never fires |
| `Marks.LaterPeriod` | internal/storage/storage.go:115-126 | marks of later periods are later and have later keys |
| `Marks.KeyKeepsPeriod` | internal/storage/storage.go:115-126 | the stored key stands for the same period as its mark |
| `Marks.ResumeAgrees` | internal/storage/storage.go:115-126 | for every type the next key after a stored key is the next key after its mark |
| `Marks.DueIsOver` | internal/collector/collector.go:573-588 | a due mark stands for a period that has ended |
| `Marks.DueExactly` | internal/collector/collector.go:573-588 | an hourly or midnight mark, and any monthly one, is due if and only if its hour or day is over |
| `Marks.DueIsAntitone` | internal/collector/collector.go:573-588 | once a mark is not due no later one is, so stopping there loses nothing |
| `Marks.StartOnGrid` | internal/collector/collector.go:601-641 | a range of at least four octets puts the first cursor on the grid |
| `Marks.DailyStart` | internal/collector/collector.go:601-641 | the first daily cursor is at midnight if and only if octet 11 of a long range is 0 modulo 24, or now is midnight when there is no range; a short range always gives hour 23 |
| `Marks.OverlapOnGrid` | internal/collector/collector.go:269-279 | a monthly cursor moved back is on the grid if and only if the clamped report days agree; always for days up to 28 |
| `Marks.OverlapLands` | internal/collector/collector.go:269-279 | a monthly cursor moved back lands in the month that many months before or, if that month lacks the day, in the next one and off the grid |
| `Marks.OverlapGoesBack` | internal/collector/collector.go:269-279 | the overlap never moves the cursor to a later period |
| `Marks.ReportedDateReturns` | internal/protocol/protocol.go:525-544 | a valid date read from the meter is written back as the same four octets |
| `Marks.SameKeySameStamp` | internal/protocol/protocol.go:525-544 | marks with one key ask the meter for one record |
| `Marks.DifferentKeyDifferentStamp` | internal/protocol/protocol.go:525-544 | between 2000 and 2255 different keys ask for different records |
| `Starts.ParsedDateShows` | internal/collector/collector.go:643-652 | four octets of a valid date are the time that shows that day, month, year and full hour |
| `Starts.DateCarries` | internal/collector/collector.go:643-652 | impossible parts carry over, months into years, days into months and hours into days |
| `Starts.StartShows` | internal/collector/collector.go:601-641 | an hourly archive begins at the hour in octets 0 to 3; a daily one on the day in octets 8 to 11 of a long range, at its hour, or in octets 0 to 3 of a short one, at hour 23; monthly and total ones at the report mark of that month |
| `Starts.YearBefore` | internal/collector/collector.go:640-640 | without a range a collection begins one year before, at the same time of the same day, or on 1 March if the year has no such day |
| `Starts.NoGapsSinceReported` | internal/collector/collector.go:256-333 | over any sequence of safe sessions that are told the same range, every period from the one that the octets name to the greatest key is stored or was found missing at its mark |
| `Starts.OverlapMoves` | internal/collector/collector.go:269-279 | an overlap leads back by exactly so many hours, days or months, to the same time of the hour or day, and by months to the same day or past the end of a month that lacks it |
| `Starts.StampReadsBack` | internal/protocol/protocol.go:525-544 | the date written for a mark of the years 2000 to 2255, read as the meter reads it, is its hour in the hourly archive and hour 23 of its day in the others |
| `Starts.KeyIsDate` | internal/storage/storage.go:99-140 | hourly records are kept under their mark, the others under the date of it |
| `Meter.Meter.constructor` | internal/protocol/protocol.go:113-177 | a meter starts with the given setting and an empty log |
| `Meter.Meter.Write` | internal/protocol/protocol.go:325-327 | what the client learns, what the meter is set to and what is logged are fixed by the fate of this very command; a refused or lost command may have taken effect |
| `Meter.Meter.SetType` | internal/protocol/protocol.go:516-522 | an acknowledged command sets the type; the fault reported is that of this very command |
| `Meter.Meter.SetReadList` | internal/protocol/protocol.go:627-637 | more than 42 entries are refused without sending anything; otherwise an acknowledged command replaces the list and nothing else, and the fault reported is that of this very command |
| `Meter.Meter.SetDate` | internal/protocol/protocol.go:525-544 | an acknowledged command replaces the date and nothing else; the fault reported is that of this very command |
| `Meter.Meter.ReadData` | internal/protocol/protocol.go:640-653 | the answer is that of the meter for its present setting, and the read is logged with it |
| `Meter.Meter.ActiveElements` | internal/protocol/protocol.go:549-601 | the answer is the decoded list of the meter for its present setting; refusals, losses and lists that do not decode are told apart |
| `Meter.Meter.ReadNumber` | internal/protocol/protocol.go:381-408 | the first octet of the answer of the meter, an exception taken for an answer too; data shorter than three octets and a lost answer are errors |
| `ArchiveRecord.ReadChunk` | internal/collector/collector.go:405-456 | answer and meter afterwards are those of one list, one date and one read, told by `RecordLaws.OneLaw` |
| `ArchiveRecord.ReadChunks` | internal/collector/collector.go:405-479 | the loop over chunks does what the recursion over the remaining chunks does, told by `RecordLaws.AttemptLaw` |
| `ArchiveRecord.Refresh` | internal/collector/collector.go:485-527 | answer and meter afterwards are those of the refresh, told by `RecordLaws.RefreshingLaw` and `RecordLaws.RefreshGives` |
| `ArchiveRecord.ReadArchiveRecord` | internal/collector/collector.go:388-534 | the loop of two attempts does what the recursion over the remaining attempts does, told by the laws of `RecordLaws`; no answer and no error is left open |
| `RecordLaws.OneLaw` | internal/collector/collector.go:405-456 | a chunk is read under the type at entry, with this list and date, and adds exactly that access to the log; a failure adds exactly one refusal or loss, which is its error |
| `RecordLaws.AttemptLaw` | internal/collector/collector.go:389-479 | the n-th read of an attempt has the type at entry, the date and the n-th chunk; a complete attempt merges exactly those replies, a scheme change is one exception 5 and the only error met, and any other failure is the only refusal or loss met, or data that do not parse |
| `RecordLaws.RefreshingLaw` | internal/collector/collector.go:485-527 | a refresh that succeeds met no error and leaves the archive type set and a list to read; one that fails met its error and no other, or an answer of no use |
| `RecordLaws.RefreshGives` | internal/collector/collector.go:485-527 | it takes the active list that the meter gives at this point, its selection, and the three numbers that the meter gives next under the type for current values, each in its place; the meter is left with type and list set |
| `RecordLaws.RecordLaw` | internal/collector/collector.go:388-534 | the errors met are one exception 5 for each refresh and then the error returned, if that is a refusal or a loss; every other error has its cause in an answer of no use or an empty list; there are at most two refreshes, and at most one before a result |
| `RecordLaws.RecordReads` | internal/collector/collector.go:388-534 | from the archive type, every read of a record has the type, the date and a chunk of a list tried as read list, with no more reads than chunks; a result is the merge of the last complete read of the last list |
| `RecordLaws.TriedLists` | internal/collector/collector.go:480-527 | the list that gave the record is the selection from the active list returned with it |
| `RecordLaws.RecordObtained` | internal/collector/collector.go:388-534 | with a list that is not empty and answers that serve, there is a record if nothing was refused or lost, and also if only one exception 5 was met: then after exactly one refresh |
| `RecordLaws.LastErrorReturned` | internal/collector/collector.go:388-534 | a refusal or loss that is returned is the last error met; a date is reported missing if and only if the last error met is exception 3 |
| `RecordLaws.SchemeChangeRetried` | internal/collector/collector.go:480-533 | a first exception 5 always leads to a refresh; exception 5 is returned only after two refreshes or from within one |
| `RecordLaws.RefreshedOnce` | internal/collector/collector.go:388-534 | a result comes with the active list and the metadata given, or with those of the one refresh |
| `Order.OneInOrder` | internal/collector/collector.go:405-456 | a chunk is read by list, date and data, in this order, as far as nothing fails |
| `Order.RefreshInOrder` | internal/collector/collector.go:485-527 | a refresh asks for the active list, selects the type for current values, asks for the three numbers, and restores type and read list, in this order, as far as nothing fails |
| `Order.PreparedInOrder` | internal/collector/collector.go:226-255 | a session begins with type, active list and read list, in this order, as far as nothing fails |
| `Order.RecordInOrder` | internal/collector/collector.go:388-534 | a record is given by the commands for its chunks alone, in order, the date before each; or by some of them, one whole refresh, and all commands for the chunks of the renewed list |
| `Chunks.ChunkedIsWhole` | internal/collector/collector.go:405-479 | chunks merge to what the whole list gives on the whole data, errors included, if all of them but the last have their exact length |
| `Chunks.LongChunkDiffers` | internal/collector/collector.go:459-477 | with one octet too many in the first of two chunks both readings succeed and differ |
| `Chunks.ConsistentReadIsWhole` | internal/collector/collector.go:405-479 | against a consistent meter the chunks of a list merge to what one read of the list would give |
| `Chunks.RecordIsWholeRead` | internal/collector/collector.go:388-534 | so a record that was returned is the parse of one whole read |
| `Archive.AdvanceCovers` | internal/collector/collector.go:280-333 | a turn of the loop, with any answer and any save, keeps every period before the cursor accounted for, from a cursor on the grid or in a period already accounted for |
| `Archive.PlacedExactly` | internal/collector/collector.go:260-279 | a monthly session that resumes starts on the grid if and only if its overlap keeps the clamped report day |
| `Archive.SafeStart` | internal/collector/collector.go:256-279 | a safe session starts where it can pass over nothing; an unsafe one starts off the grid in a period not yet reached |
| `Archive.NoSilentGaps` | internal/collector/collector.go:224-333 | over any sequence of safe sessions, with any answers, failures, cancellations and report days, every period from the first cursor of the session that stored the first row to the greatest key is stored or was found missing at its mark |
| `Archive.UnsafeSkips` | internal/collector/collector.go:280-333 | from an unsafe start a missing record followed by a stored one leaves a gap, unless the period had been read before |
| `Archive.SafeExactly` | internal/collector/collector.go:256-333 | a session leaves no gap whatever its turns if and only if it is safe or the period it starts in has been read to the end before |
| `Archive.OverlapPassesMark` | internal/collector/collector.go:269-279 | wherever the clamped report day exceeds the length of the month before, an overlap of one month passes over a mark |
| `Archive.MarchPassed` | internal/collector/collector.go:269-279 | report day 31 does so in every March |
| `ArchiveRows.NeverTwoRows` | internal/collector/collector.go:539-599 | over any sessions, overlaps and report days no hour and no day gets two rows, and no month does while every session fits the rows it finds |
| `ArchiveRows.FittingExactly` | internal/collector/collector.go:256-333 | a monthly session cannot store a second row for a month, whatever its turns, if and only if it fits: each row from its first month on lies under the very key it will come to |
| `ArchiveRows.NoOverlapFits` | internal/collector/collector.go:264-279 | without overlap every session fits, even if the report day has changed |
| `ArchiveRows.GridFittingExactly` | internal/collector/collector.go:264-279 | over rows on the grid of its report day, a start fits if and only if its month has no row or it lies on the day of that row |
| `ArchiveRows.SameDayOneRow` | internal/collector/collector.go:264-279 | while the report day stays the same and each overlap keeps it, every row is on the grid and no month gets two |
| `ArchiveRows.OverlapDoublesRow` | internal/collector/collector.go:269-279 | wherever the report day falls earlier in the next month, an overlap of one month can give a month two rows |
| `Archive.SessionBounds` | internal/collector/collector.go:280-333 | a session visits strictly increasing keys, one a turn, each due at its own turn, and adds at most as many rows as the batch limit, however many marks are missing; while it is not stopped, the records stored and the rows left make up the limit |
| `Archive.SessionFills` | internal/collector/collector.go:280-333 | a session that nothing stops stores as many records as its batch, and one if that is no positive number |
| `ArchiveMissed.MissedIsRetried` | internal/collector/collector.go:256-314 | a date without a row is asked for again by a session without overlap that gets that far if and only if no row of a later period has been stored |
| `ArchiveMissed.MissedAtFirst` | internal/collector/collector.go:256-314 | while the table is empty it is asked for again if and only if the reported range starts no later |
| `ArchiveMissed.PassedForGood` | internal/collector/collector.go:256-314 | once a row of its period or a later one is stored, no sequence of sessions without overlap asks for it again |
| `Batches.SettledIsRun` | internal/collector/collector.go:280-333 | the recursive session is the loop of the machine on the turns it takes, which end it |
| `Batches.OneSessionIsAfter` | internal/collector/collector.go:260-333 | an uninterrupted session without overlap is that recursion from the resumed cursor |
| `Batches.ResumeContinues` | internal/collector/collector.go:260-333 | stopping after a rows and resuming for b more leaves the table of going on for b more, missing marks at the seam included |
| `Batches.BatchesAgree` | internal/collector/collector.go:260-333 | n sessions of a batch leave the table of one session of n batches, from any table |
| `Batches.DailyDisagrees` | internal/collector/collector.go:601-641 | every range that does not start at midnight, so every short one, gives a meter and a time at which two sessions and one of twice the size differ |
| `Batches.BatchingExactly` | internal/collector/collector.go:260-333 | from a given range they agree for all meters, times, batches and n if and only if the archive is not daily or the range starts at midnight |
| `Collector.Store.SaveArchive` | internal/storage/storage.go:99-140 | a save is an upsert under the key of the mark; a failed one did that or nothing |
| `Collector.Store.Last` | internal/storage/storage.go:246-304 | the greatest key if and only if there is a row |
| `Collector.Prepare` | internal/collector/collector.go:232-255 | answer and meter afterwards are those of the four steps before the loop, told by `SessionLaws.PreparedExactly` |
| `Collector.FirstMark` | internal/collector/collector.go:256-279 | the first cursor is that of the session machine; which date that is, is told by `Starts.StartShows` and `Starts.YearBefore` |
| `Collector.TakeTurn` | internal/collector/collector.go:281-332 | meter, table and metadata after a turn are those of the session function from the same standing, which the laws of `SessionLaws`, `InForce` and `Typing` describe; it goes on only from a due mark |
| `Collector.CollectArchive` | internal/collector/collector.go:224-334 | the loop ends, although it counts backwards, after some number of turns, and meter, table and metadata are then where the session function stands after that many; a session that does not get to its loop leaves the table as it was |
| `SessionLaws.PreparedExactly` | internal/collector/collector.go:232-255 | a session gets past its preparation if and only if no command was refused or lost and the active list is of use; it goes by the selection from the list the meter gave at the second command, with type and list set |
| `SessionLaws.SessionIsAfter` | internal/collector/collector.go:224-334 | the table after so many turns is that of the session machine on turns that faced the given clock, cancellations and saves, from the cursor the machine starts with; the loop has ended if and only if that of the machine has |
| `SessionLaws.MissingExactly` | internal/collector/collector.go:288-314 | a turn that reads counts as missing if and only if the last error it met was exception 3 |
| `SessionLaws.GotExactly` | internal/collector/collector.go:288-314 | it gives a record if and only if every answer served and every error was an exception 5 that a refresh followed |
| `SessionLaws.StandSelected` | internal/collector/collector.go:281-332 | the read list in force is always the selection from the active list in force, and not empty while the session runs |
| `SessionLaws.StoredOnRead` | internal/collector/collector.go:288-332 | a turn that gives a row under the archive type ended with a complete read of one list for its mark, and the row holds what that read gave |
| `InForce.RecordRenewed` | internal/collector/collector.go:388-534 | a record comes with the active list that answered the last request for it during the record, and with the numbers read after it; without such a request with those it was given |
| `InForce.TurnGives` | internal/collector/collector.go:315-332 | a turn that gives a record stores it under its key with exactly the metadata it hands on, and hands on the active list of the record |
| `InForce.AlwaysByLast` | internal/collector/collector.go:281-333 | at every point of a session the metadata in force are the numbers of the last refresh in a turn that gave a record, or those the loop began with; while it runs, the active list is the answer that began that refresh, or the one the loop began with |
| `Typing.RecordTypes` | internal/collector/collector.go:388-534 | data are read under another type only if that was found at entry and not changed since; after a result or exception 3 the archive type is set, or has not been since entry, or was lost by the last command |
| `Typing.TurnLosesExactly` | internal/collector/collector.go:281-314 | a turn that starts under the archive type and does not end the session leaves another type if and only if it counts as missing because its last command was a refusal with exception 3: to go back to the archive type in vain, or to leave it all the same |
| `Typing.ReadsByEntry` | internal/collector/collector.go:388-534 | the reads of a turn up to its first exception 5 have the type found at entry, those after a refresh the archive type |
| `Typing.BegunTyped` | internal/collector/collector.go:232-279 | the loop of a session begins under the archive type |
| `Typing.TypedExactly` | internal/collector/collector.go:281-333 | over any number of turns data are read under another type if and only if such a refusal occurred and data were read before the archive type was set again |
| `LostType.WrongSession` | internal/collector/collector.go:281-333 | against a meter that refuses just two commands, the session ends with a row in the daily archive that was read under the type for current values |
| `LostType.StoreWrongRow` | internal/collector/collector.go:224-334 | the collector does so from an empty table, for every range, batch, report day and overlap |
| `Driven.SteadyRecord` | internal/collector/collector.go:388-534 | the record read from a steady meter is what the meter holds for the date, missing if it holds none, and an error if its data do not parse |
| `Driven.SteadyTurn` | internal/collector/collector.go:281-333 | a turn against a steady meter answers as its device, and leaves type, lists and metadata alone |
| `Driven.SteadyExists` | internal/collector/collector.go:388-534 | there is a steady meter for every archive, holding and active list |
| `Driven.TurnsSettle` | internal/collector/collector.go:280-333 | turns that answer as a device lead the machine where the recursion of the device leads |
| `Driven.SteadySession` | internal/collector/collector.go:224-334 | an undisturbed session against a steady meter gets to its loop and, when that ends, leaves the table of one session with its device, and the metadata it found |
| `Driven.SteadySessions` | internal/collector/collector.go:20-32 | n cycles of the driven collector leave the table of n sessions with the device and, where batching makes no difference, of one session of n batches |
| `Cumulative.ReadRows` | tools/vkt7_report_db.py:578-583 | the dictionary has exactly the days of the rows, each with the value of the last row for it |
| `Cumulative.ReadTotals` | tools/vkt7_report_db.py:585-590 | the totals are exactly the rows that have a value, in order |
| `Cumulative.ChoiceIsChosen` | tools/vkt7_report_db.py:600-631 | the anchor is the latest total inside the report, else the latest before it, else the earliest after it |
| `Cumulative.ChosenFromRows` | tools/vkt7_report_db.py:585-631 | sorting does not change which total is chosen: it is determined by the rows |
| `Cumulative.Forward` | tools/vkt7_report_db.py:641-654 | the running loop puts in, for each later report day, the anchor plus the increments since |
| `Cumulative.Backward` | tools/vkt7_report_db.py:656-669 | the loop from the last report day puts in, for each earlier one, the anchor minus the increments between |
| `Cumulative.BuildCumulativeValues` | tools/vkt7_report_db.py:546-703 | from the two tables of rows: nothing without daily rows or totals, else the reconstruction from the total that the rows determine |
| `Cumulative.ReadingDays` | tools/vkt7_report_db.py:633-695 | there is a reading for a day if and only if it is a report day or an anchor inside the report |
| `Cumulative.ReadingsHold` | tools/vkt7_report_db.py:633-695 | every reading is the closed form for its day |
| `Cumulative.ReadingMissing` | tools/vkt7_report_db.py:633-695 | a day has no value exactly if its own increment is missing or, before the anchor, that of the next day |
| `Cumulative.ReadingIsPromised` | tools/vkt7_report_db.py:546-571 | with the anchor inside or before the report, a day whose increments up to the anchor all exist reads the anchor plus or minus exactly their sum |
| `Cumulative.AdjacentReadings` | tools/vkt7_report_db.py:633-669 | adjacent such days differ by the increment of the later one, across the anchor as well |
| `Cumulative.AnchorAfterLosesLastDay` | tools/vkt7_report_db.py:684-695 | with the anchor after the report the last day has no reading, whatever the increments |
| `Cumulative.AnchorAfterReads` | tools/vkt7_report_db.py:684-695 | with the anchor after the report an earlier complete day reads the anchor less the increments up to the last day only |
| `Cumulative.AnchorAfterIsOff` | tools/vkt7_report_db.py:546-571 | such a reading exceeds the promised one by exactly the consumption between the report and the anchor |
| `Cumulative.ReadingIsOff` | tools/vkt7_report_db.py:633-695 | wherever the anchor lies, a reading departs from the promised one by exactly the consumption of the days its loop does not add in: days without an increment and, going back, days after one that is not in the report |

## Left out

- Meter.Meter: one object stands for the meter and for the client that talks to it, and a command is one step; `Wire` proves that a transaction is such a step wherever no answer passes for another, which the checksum guarantees only for the damage it detects.
- Port.Port.Shut: the two commands that Close issues before it sets the flag, releasing RTS and purging, are calls of command like any other in `AckTable` and not part of the method.
- Port.Port.Receive: it is the branch of Read that finds data; the error, closed and timeout branches return no octets and are the step `Wait` or nothing.
- Frames.Transact: it takes the outcomes of write, reads and purge as given; which octets a failing write sent is not modelled.
- Telnet.Decoder.Feed: callbacks are returned as a list in firing order; that the data block is a buffer reused after each callback, and copied by `pushData`, is not modelled.
- Elements.ParseElements: readings are keyed by address, not by name; the name table is one-to-one.
- Cumulative.BuildCumulativeValues: values are integers instead of floats, and what Python's two sorts return is given as arguments that are the sorted days and the sorted totals.
- Archive.NoSilentGaps: every session must be safe; `Archive.SafeExactly` shows that the code leaves gaps otherwise.
- ArchiveRows.NeverTwoRows: for months every session must fit the rows it finds; `ArchiveRows.FittingExactly` shows that the code stores second rows otherwise.
- Batches.BatchesAgree: it is about overlap 0, an unchanging meter and a fixed clock, and so is Driven.SteadySessions; what changes between sessions is covered by `Archive.NoSilentGaps`.
- One naive wall clock in whole seconds stands for the time zones: `Last` returns dates in UTC while `due` compares local time, and daylight saving is not part of this model.
- IEEE-754 and code page 866: float elements stay four opaque octets and texts stay octets.
- Connections, serial ports, sleeps and deadlines: reads are scripts, timeouts are steps that may happen at any time. Data that arrives together with a connection error, which the reader discards, is not part of a script.
- Negotiation replies and their convergence, SetMode, the modem bits, RTS and DTR: sequences of commands without a further law.
- Progress of a Read that waits on a full channel, repeated delivery of a connection error, and an acknowledgement that comes late and satisfies a later command with the same code: the code gives no guarantee.
- The address and function of a response are not compared with the request by the code, so nothing is stated about them.
- ReadRange is an arbitrary answer: the code does not turn an exception there into an error.
- Properties, service record, device time, current values and the `once` cycle around the archives: straight-line use of the operations above.
- PostgreSQL, JSON and hex encoding, migrations, logging, flags, systemd units and the PDF report: a table is a map from key to row.
