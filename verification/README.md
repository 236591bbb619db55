# dev-bench: what the bench does, and proofs that it does

The dev-bench firmware talks to a host over a COBS-framed, postcard-encoded serial link, runs the
studies the host sends it against a Bluetooth device, drives `.eap` protocol machines over live
notifications, and captures what it hears on declared taps. The PD bench is its USB Power Delivery
sibling. This project models the logic of both in Dafny and proves what it promises.

`dafny verify dfyconfig.toml` checks everything.

| part | modules |
|---|---|
| what a step or a run ends in | `Outcomes` |
| the wire: varints, strings, lists, manifests, messages, frames | `Postcard`, `Manifest`, `ManifestParser`, `ManifestRoundTrip`, `Messages`, `MessageRoundTrip`, `Spans`, `StudyRoundTrip`, `Frames`, `Encoder`, `Decoder`, `Transcript`, `HostReader` |
| framing, seals, limits and the message loop | `Cobs`, `Crc`, `CrcPolynomial`, `Walks`, `Seals`, `Budgets`, `Link`, `Limits`, `EndToEnd` |
| the `.eap` machine and the loop that drives it | `Eap`, `Scalars`, `EapSemantics`, `EapInterp`, `EapRuns`, `Driver` |
| studies and captures | `Dispatch`, `DispatchRuns`, `Taps` |
| the log, the failed-scan report, the PD bench | `LogBackend`, `ScanNames`, `PdBench` |

Code that moves a cursor, a buffer or a struct is a class or a method with the same loops, and its
contract ties it to a specification function; what the firmware promises is proved about that
function. An encoding `EncX(x, rest)` is the bytes of `x` in front of `rest`; a decoder `DecX(s)` gives
the value at the front of `s` and what follows it.

Where code and comments disagree, the model follows the code:

- `app/src/eap_interp.h:30-32` says a frame consumed without a goto leaves the timeout counting from entry. The driver
  re-arms the whole time on every turn (`Driver.TimeoutsAreDue`), so the comment holds only where
  `Driver.WaitCountsFromEntry` says, and such frames can starve the timeout for good
  (`Driver.ChatterStarvesTheTimeout`).
- `app/src/main.c:483-489` says a transcript entry always fits a record; stamped with UTC time a full-MTU one
  never does (`Transcript.FullMtuFitsExactly`).
- `app/src/serial_protocol.h:161-163` budgets 576 bytes for a step that can take 592
  (`Budgets.LegalStudyTooLong`); `DBM_MAX_OUTBOUND_RAW_LEN` itself would not fit the outbound frame buffer,
  which no message reaches (`Budgets.BudgetIsOneShort`).
- The overlong-frame comment in `app/src/main.c:923-936` speaks of dropping the frame; its tail still
  reaches the decoder (`Link.OverlongTailIsHanded`).
- The scan census is held to 256 by a one-byte length that wraps first (`ScanNames.CensusHoldsAll`).
- The protocols' seal is computed and never consulted (`DispatchRuns.ProtocolsSealIsIgnored`).
- A finished `.eap` run answers Pass to any further event (`EapRuns.VerdictRepeatsOnlyIfPass`), which is why
  the driver must never feed one again, and does not (`Driver.RunReportsTheMachine`).

## Model

| member | source | states |
|---|---|---|
| `Cobs.Encode` | app/src/serial_protocol.c:761-786 | one pass over any input leaves the stuffed form of it in the output, within the n + n/254 + 1 bytes the caller must give it |
| `Cobs.Decode` | app/src/serial_protocol.c:793-819 | a well-formed frame is unstuffed into the output; a malformed one, or one too long for the output, gives 0 |
| `Cobs.EncodedLength` | app/src/serial_protocol.c:761-786 | stuffing adds at least one byte and at most one more for each 254 |
| `Cobs.BlocksInNumbers` | app/src/serial_protocol.c:761-786 | up to 253 bytes without a zero, and the zero behind them, become a code byte one above their number and themselves; 254 become 0xFF and themselves |
| `Cobs.EncodedZeroFree` | app/src/serial_protocol.c:761-786 | a stuffed frame never holds the delimiter |
| `Cobs.DecodedOfEncoded` | app/src/serial_protocol.c:761-819 | unstuffing undoes stuffing, for every byte string |
| `Cobs.EncodedOfDecoded` | app/src/serial_protocol.c:761-819 | stuffing what a zero-free frame unstuffs to gives the frame back, followed by 0x01 exactly when its last code byte is 0xFF |
| `Cobs.DecodedInjective` | app/src/serial_protocol.c:793-819 | two frames of one string differ at most by that trailing block |
| `Crc.ComputeCrc32` | app/src/serial_protocol.c:739-752 | the masked bitwise loop computes the CRC-32/ISO-HDLC of the data, defined by shifting bits out of a register |
| `Crc.BurstDetected` | app/src/serial_protocol.c:739-752 | two strings of any length that differ only within four consecutive bytes have different CRCs |
| `Crc.FeedInjective` | app/src/serial_protocol.c:739-752 | feeding the same bytes to two different register states keeps them different |
| `Crc.EmptySeal` | app/src/serial_protocol.c:1147-1152 | the CRC of nothing is 0 |
| `CrcPolynomial.CrcIsTheRemainder` | app/src/serial_protocol.c:739-752 | the CRC is the remainder, by x^32+x^26+x^23+x^22+x^16+x^12+x^11+x^10+x^8+x^7+x^5+x^4+x^2+x+1 in long division, of the message raised by x^32 behind 32 ones, each byte low bit first, with every bit turned |
| `CrcPolynomial.FeedIsRemainder` | app/src/serial_protocol.c:739-752 | from any register, feeding data leaves the remainder of the register raised by the data's length and the data raised by x^32 |
| `CrcPolynomial.RemainderIsShort` | app/src/serial_protocol.c:739-752 | what the division leaves is of degree below 32 |
| `CrcPolynomial.RaisedRemainder` | app/src/serial_protocol.c:739-752 | a remainder may be taken before or after raising: long division in steps is long division at once |
| `CrcPolynomial.CheckValue` | app/src/serial_protocol.c:739-752 | the CRC of the nine digits is 0xCBF43926, the published check value of CRC-32/ISO-HDLC |
| `Encoder.VarintBytes` | app/src/serial_protocol.c:16-26 | the seven-bit loop writes the ULEB128 encoding of any number |
| `Postcard.Reader.ReadVarint` | app/src/serial_protocol.c:28-50 | the cursor takes exactly the groups of the varint at its front, or fails where there are none or too many; what it keeps is 64 bits |
| `Postcard.Reader.ReadString` | app/src/serial_protocol.c:71-85 | a string within the capacity is taken whole, a longer or truncated one is refused, never cut |
| `Postcard.Reader.Skip` | app/src/serial_protocol.c:93-107 | a length-prefixed run is walked past exactly, or refused when the buffer ends inside it |
| `Postcard.Reader.ReadSigned` | app/src/serial_protocol.c:267-276 | the zigzag integer at the front of the buffer |
| `Postcard.VarintRoundTrip` | app/src/serial_protocol.c:16-50 | every 64-bit number read back from its encoding, whatever follows it |
| `Postcard.ReadingIsCanonical` | app/src/serial_protocol.c:16-50 | the bytes read are the ones the writer writes for the number exactly when their last group is not an empty one and a tenth group holds nothing above the 64th bit; so decoding is not injective (`Postcard.VarintIsNotCanonical` is a pair) |
| `Postcard.SignedRoundTrip` | app/src/serial_protocol.c:267-276 | every int64 read back from its zigzag encoding |
| `Postcard.StringRoundTrip` | app/src/serial_protocol.c:52-107 | a string is read back within the capacity and refused beyond it, and skipped exactly in either case |
| `Postcard.ListRoundTrip` | app/src/serial_protocol.c:656-732 | a counted list whose elements read back reads back itself, exactly when its count is within the cap and every element fits |
| `ManifestParser.ReadOperand` | app/src/serial_protocol.c:281-322 | the operand the grammar defines, or nothing for a fifth form |
| `ManifestParser.ReadExpr` | app/src/serial_protocol.c:326-347 | a term or a sum of two operands, or nothing |
| `ManifestParser.ReadCondition` | app/src/serial_protocol.c:351-367 | the comparison of two operands, or nothing for a seventh operator |
| `ManifestParser.ReadWrite` | app/src/serial_protocol.c:370-402 | a write and its fields; more fields than the array holds are refused |
| `ManifestParser.ReadArm` | app/src/serial_protocol.c:410-466 | an event arm, its missing `otherwise` kept apart from a goto |
| `ManifestParser.ReadState` | app/src/serial_protocol.c:470-550 | a state, with its name, or nothing; a third arm is refused |
| `ManifestParser.ReadFrame` | app/src/serial_protocol.c:553-644 | a frame, its names walked past and everything else kept |
| `ManifestParser.ReadProtocol` | app/src/serial_protocol.c:656-732 | the cursor loops compute the grammar's parse of a manifest and stop exactly where it stops |
| `ManifestRoundTrip.ManifestReadsBack` | app/src/serial_protocol.c:267-732 | the encoding of any manifest, followed by any bytes, parses to the manifest without its names exactly when every count is within its cap, and is refused otherwise |
| `ManifestRoundTrip.FrameReadsBack` | app/src/serial_protocol.c:553-644 | the same for one frame |
| `ManifestRoundTrip.StateReadsBack` | app/src/serial_protocol.c:470-550 | the same for one state, whose name survives |
| `ManifestRoundTrip.ArmReadsBack` | app/src/serial_protocol.c:410-466 | the same for one event arm |
| `ManifestRoundTrip.DecodedFits` | app/src/serial_protocol.c:656-732 | whatever the bytes, a parsed manifest is within every capacity |
| `ManifestRoundTrip.GotosAreNotChecked` | app/src/serial_protocol.c:452-547 | a manifest whose goto names no state is parsed all the same: range checking is the host's |
| `Spans.ManifestAppends` | app/src/serial_protocol.c:656-732 | a manifest's bytes do not depend on what follows them, so a span's CRC is a function of its elements |
| `Spans.SpanInFront` | app/src/serial_protocol.c:1743-1871 | the bytes a walk crosses are the elements' own |
| `Scalars.ReadI64` | app/src/eap_interp.c:106-138 | the byte loop reads the integer the type's width, byte order and sign give, or nothing for too few bytes; U64 saturates at INT64_MAX |
| `Scalars.ReadInNumbers` | app/src/eap_interp.c:106-138 | for each of the fourteen integer types by its number: how many bytes it takes, in which order they weigh, and what two's complement or saturation makes of them |
| `Scalars.WriteI64` | app/src/eap_interp.c:143-160 | the byte loop writes the value's low bytes in the type's order, or nothing for a type that is no integer or too little room |
| `Scalars.ReadOfWrite` | app/src/eap_interp.c:106-160 | for every integer type and int64, reading what was written yields the value reduced to the type's width and sign |
| `Scalars.FullWidth` | app/src/eap_interp.c:106-160 | an I64 comes back as it was; a U64 does too unless it was negative, and then as INT64_MAX |
| `Scalars.NarrowWidth` | app/src/eap_interp.c:106-160 | a narrower type gives back the one value of its range congruent to the number |
| `Scalars.EndianMirror` | app/src/eap_interp.c:143-160 | each big-endian type writes the value's bytes by falling weight, which are its little-endian neighbour's reversed |
| `Scalars.ReadOfPrefix` | app/src/eap_interp.c:106-138 | on a prefix of the bytes a read fails or gives the same number |
| `EapInterp.EapRun.Start` | app/src/eap_interp.c:454-466 | a run starts in the entry state with the declared session values, or not at all for a state that does not exist |
| `EapInterp.EapRun.EvalOperand` | app/src/eap_interp.c:172-227 | an operand's value, or none for a reference that does not exist or lies beyond the payload |
| `EapInterp.EapRun.EvalExpr` | app/src/eap_interp.c:232-259 | a sum saturates at the ends of int64 and never wraps |
| `EapInterp.EapRun.EvalCondition` | app/src/eap_interp.c:264-291 | true exactly when both operands have values and their difference has the sign the operator asks for |
| `EapInterp.EapRun.SelectFrame` | app/src/eap_interp.c:298-326 | the loop finds the least frame that takes the notification, or none |
| `EapInterp.EapRun.EncodeWrite` | app/src/eap_interp.c:334-354 | every field in order, or nothing at all when one does not resolve |
| `EapInterp.EapRun.OnEntered` | app/src/eap_interp.c:409-452 | entering a state is a verdict, a write or a wait, as the semantics says |
| `EapInterp.EapRun.HandleTimeout` | app/src/eap_interp.c:484-503 | a timeout re-enters while retries last and then takes its goto |
| `EapInterp.EapRun.ApplyRemembers` | app/src/eap_interp.c:542-551 | remembers fold in order, each seeing what the ones before it stored |
| `EapInterp.EapRun.PickTarget` | app/src/eap_interp.c:553-582 | the first true guard decides, then `otherwise`, else nothing |
| `EapInterp.EapRun.HandleNotify` | app/src/eap_interp.c:505-584 | a notification moves the machine exactly as the declarative step |
| `EapInterp.EapRun.OnEvent` | app/src/eap_interp.c:586-602 | every event moves the run in place exactly as the declarative step moves its value |
| `EapInterp.EapRun.Abandon` | app/src/eap_interp.c:604-609 | an abandoned run is finished, in the state it sat in, timed out |
| `EapSemantics.FrameFor` | app/src/eap_interp.c:313-326 | the least index whose frame takes the notification, none only when no frame does |
| `EapSemantics.FrameForExactly` | app/src/eap_interp.c:298-326 | the least frame of the notification's own source whose magic the payload shows after that many bytes, and none only if there is none |
| `EapSemantics.ArmFor` | app/src/eap_interp.c:524-536 | the first arm of the state that names the frame |
| `EapSemantics.GuardFor` | app/src/eap_interp.c:553-566 | the first guard that holds, none only when none does |
| `EapRuns.ReachedIsSafe` | app/src/eap_interp.c:409-609 | over every run of a valid manifest: the state exists, retries never pass the state's own, an unfinished machine waits in an active state |
| `EapRuns.NextIsSafe` | app/src/eap_interp.c:409-609 | every step keeps that, a write goes to the state's own source in at most 48 bytes, a verdict names the state |
| `EapRuns.FinishedIsStable` | app/src/eap_interp.c:586-592 | after the end neither state nor session moves |
| `EapRuns.VerdictRepeatsOnlyIfPass` | app/src/eap_interp.c:586-592 | feeding a finished run repeats its verdict exactly when that was Pass |
| `EapRuns.FailedRunAnswersPass` | app/src/eap_interp.c:586-592 | a failed run that answers Pass when fed once more |
| `EapRuns.TerminalReasonWhole` | app/src/eap_interp.c:378-396 | the reason a terminal state reports is never cut |
| `EapRuns.SilenceTerminates` | app/src/eap_interp.c:409-503 | if every active state times out and no timeout gotos form a cycle, timeouts alone end the run within the sum of retry + 1 |
| `EapRuns.RetryRepeatsTheWrite` | app/src/eap_interp.c:484-503 | a freshly entered state repeats the identical write for each of its retries and then takes its goto |
| `EapRuns.PumpCounter` | app/src/eap_interp.c:232-259 | a variable only ever increased by span lengths holds the initial value plus every byte its arms consumed, a span counting exactly if the payload holds all of it, capped at INT64_MAX, after any events |
| `EapRuns.AbandonedIsOver` | app/src/eap_interp.c:604-609 | an abandoned run is over where it sat, timed out, and no event moves it again |
| `EapRuns.RememberSeesTheOneBefore` | app/src/eap_interp.c:542-551 | a remember sees what the one before it stored |
| `EapRuns.PumpLeavesExactly` | app/src/eap_interp.c:505-584 | an arm whose first guard compares the counter takes that goto exactly when the counter, with the notification's own bytes in it, compares so; else the rest of the arm decides |
| `EapRuns.PumpLoopEnds` | app/src/eap_interp.c:505-584 | a loop with one such guard leaves its state exactly at `>=`, `<`, `==`, `>`, `<=` or `!=` its bound |
| `EapRuns.PrefixResolvesTheSame` | app/src/eap_interp.c:172-227 | on a truncated payload a field or a span of declared length fails or has the value it has on the whole |
| `EapRuns.PrefixMatchIsAMatch` | app/src/eap_interp.c:298-307 | a frame whose magic a prefix shows is the frame the whole shows |
| `Driver.Execute` | app/src/ble_bridge_real.c:3061-3180 | for every clock, queue and write result the loop reports what its course says, under the name of the state the machine sat in |
| `Driver.RunReportsTheMachine` | app/src/ble_bridge_real.c:3061-3180 | no event is fed after the end; Pass is reported exactly when the machine sits in a passing terminal state; the protocol times out exactly when the step's deadline was found to have passed |
| `Driver.EndingIsExactly` | app/src/ble_bridge_real.c:2972-3000 | how every run ends, each way exactly: on a verdict, unfinished, refused when the last step writes to a source the manifest lacks or the link did not take the write, else on the deadline; a write the link refused is reported as the link put it |
| `Driver.FedWritesWereTaken` | app/src/ble_bridge_real.c:3115-3131 | every turn that fed an event had its write taken, by a source of the manifest |
| `Driver.NoWriteIsRefused` | app/src/ble_bridge_real.c:2972-3000 | a manifest that writes only to its own sources, on a link that takes every write, is never refused one |
| `Driver.DigitsAreDecimal` | app/src/ble_bridge_real.c:2972-3000 | the numbers in its reasons are decimal, without leading zeros |
| `Driver.NextIsCoherent` | app/src/eap_interp.c:409-602 | an unfinished machine hands back a verdict exactly when it ends, Pass exactly in a passing terminal state, and never a time-out |
| `Driver.TimeoutsAreDue` | app/src/ble_bridge_real.c:3050-3155 | over every run, a turn feeds a timeout exactly when the state declares one, nothing arrived within its whole time from when this turn armed the wait, and the step's deadline had not passed by then |
| `Driver.DeadlineWasPassed` | app/src/ble_bridge_real.c:3099-3133 | a run that ends on the step's deadline ends on a turn that found nothing until the deadline had passed |
| `Driver.WaitCountsFromEntry` | app/src/ble_bridge_real.c:3050-3155 | a wait ends when one counted from the state's entry would exactly when no timeout is declared, no time has passed since entry, or the step's deadline comes first either way; else a timeout comes later by all the time since entry |
| `Driver.StayingFramesStarve` | app/src/ble_bridge_real.c:3050-3155 | while notifications that are ignored, or consumed without a goto, each arrive within the wait the one before it armed, every turn feeds a notification and none a timeout |
| `Driver.ChatterStarvesTheTimeout` | app/src/ble_bridge_real.c:3050-3155 | a one-second timeout and a notification every 900 ms: however many turns, not one timeout is fed |
| `MessageRoundTrip.StepReadsBack` | app/src/serial_protocol.c:1427-1731 | every step, of any action, reads back within the capacities and is refused beyond them |
| `MessageRoundTrip.StepsReadBack` | app/src/serial_protocol.c:1424-1741 | so does the list of steps the loop walks |
| `MessageRoundTrip.TapReadsBack` | app/src/serial_protocol.c:126-245 | a declared tap reads back as its id, source, characteristic and scope, whatever its name and encoding |
| `MessageRoundTrip.ResultReadsBack` | app/src/serial_protocol.c:1874-2040 | every step result within its fields reads back whole |
| `StudyRoundTrip.StudyReadsBack` | app/src/serial_protocol.c:1409-1872 | a study as the host sends it arrives exactly when it is within every capacity, each of its three verdicts being whether the carried CRC is that of the carried elements |
| `Frames.MessageReadsBack` | app/src/serial_protocol.c:896-2050 | every well-formed message decodes to itself, but for the three stream messages, which decode to nothing |
| `Frames.FrameReadsBack` | app/src/serial_protocol.c:1323-2066 | its frame has one zero, the last byte, and what is in front of it decodes to the message |
| `HostReader.StreamMessageIsRead` | app/src/serial_protocol.c:935-972 | every stream message within its fields is the one a host reads by the tags 2, 3 and 4 |
| `HostReader.StreamFrameIsRead` | app/src/serial_protocol.c:1323-1354 | and so from its unstuffed frame |
| `HostReader.RowIsRead` | app/src/serial_protocol.c:832-883 | every transcript row reads back field by field, in the order a host reads it |
| `Frames.StudySealsJudged` | app/src/serial_protocol.c:1743-1751 | the frame of a StudyStart, received, holds the same steps, and its seal is judged good exactly when it is the CRC of their encoding |
| `Encoder.Writer.PutString` | app/src/serial_protocol.c:52-66 | length and bytes are written together when they fit, or neither |
| `Encoder.PutStep` | app/src/serial_protocol.c:990-1140 | one step's bytes, exactly when its counts are in range and it fits |
| `Encoder.PutResult` | app/src/serial_protocol.c:1183-1309 | one result's bytes, exactly when its counts are in range and it fits |
| `Encoder.PutRecords` | app/src/serial_protocol.c:941-968 | the records' bytes, exactly when they are no more and no longer than the arrays |
| `Encoder.EncodeBody` | app/src/serial_protocol.c:896-1321 | succeeds exactly when every count is in range and the encoding fits, and then the buffer holds the encoding |
| `Encoder.EncodeFrame` | app/src/serial_protocol.c:1323-1354 | gives the frame exactly when the message encodes and the output has the room asked for |
| `Decoder.ReadAction` | app/src/serial_protocol.c:1434-1698 | the action the tag names, or the note that this build has no name for it |
| `Decoder.ReadTargets` | app/src/serial_protocol.c:1620-1659 | one length check in front of the loop decides for all targets |
| `Decoder.ReadSteps` | app/src/serial_protocol.c:1424-1741 | the step loop, stopped at the first unknown action |
| `Decoder.ReadTap` | app/src/serial_protocol.c:126-245 | the tap at the front of the buffer |
| `Decoder.ReadStudy` | app/src/serial_protocol.c:1409-1872 | the three lists and their seals, each CRC computed over the bytes its walk crossed |
| `Decoder.DecodeBody` | app/src/serial_protocol.c:1356-2050 | the cursor code computes the specified decoding of any bytes |
| `Decoder.DecodeFrame` | app/src/serial_protocol.c:2052-2066 | a frame too long, malformed, empty or unreadable gives nothing; any other its message |
| `Seals.StudyWalk` | app/src/serial_protocol.c:1743-1871 | the three sealed spans lie one after another, and each verdict is that span's CRC against the field behind it |
| `Seals.SpansAreTheLists` | app/src/serial_protocol.c:1424-1871 | in a study as the host encodes it the three sealed spans are exactly the bytes of its three lists |
| `Seals.SealsAreIndependent` | app/src/serial_protocol.c:1743-1871 | damage within four bytes of one span that leaves the walk where it was is caught by that span's seal and leaves the other two verdicts alone |
| `Walks.ProtocolShrinks` | app/src/serial_protocol.c:656-732 | the manifest parser only ever consumes from the front |
| `Budgets.OutboundLength` | app/src/serial_protocol.h:164-205 | every outbound message within its fields is at most 3028 bytes, under the raw budget of 3068 |
| `Budgets.BudgetIsOneShort` | app/src/serial_protocol.c:1343-1350 | the outbound frame buffer takes every raw length below the budget, and not the budget itself |
| `Budgets.SendFrame` | app/src/main.c:95-121 | no outbound message is silently dropped: its frame always fits the buffer |
| `Budgets.HostStudyArrives` | app/src/serial_protocol.c:2052-2066 | a host's study arrives exactly when it is within every capacity and its encoding within the raw buffer |
| `Budgets.LongestStepLength` | app/src/serial_protocol.h:161-163 | a full write step takes 592 bytes, where 576 are budgeted |
| `Budgets.LegalStudyTooLong` | app/src/serial_protocol.h:161-163 | a study within every capacity whose frame is refused |
| `Budgets.LongStudyIsLegal` | app/src/serial_protocol.h:161-163 | such a study exists |
| `Limits.HostStudyArrivesInNumbers` | app/src/serial_protocol.h:26-239 | a host's study arrives exactly when it is within the bench's limits, each in numbers, and takes fewer than 12,312 bytes |
| `Limits.OutboundInNumbers` | app/src/serial_protocol.h:26-239 | a message goes out exactly within its limits in numbers, and its frame is at most 3,041 bytes |
| `Limits.RunsHandedInNumbers` | app/src/main.c:880-938 | a zero-free run is handed over whole exactly when it is of 1 to 12,507 bytes |
| `Transcript.EncodeEntry` | app/src/serial_protocol.c:832-894 | a transcript row's bytes, exactly when they fit |
| `Transcript.RowFitsExactly` | app/src/serial_protocol.c:832-883 | a row fits a stream record exactly when its time stamp and its fields come to at most 256 bytes |
| `Transcript.FullMtuFitsExactly` | app/src/main.c:483-489 | a full-MTU row fits a record exactly when it names neither service nor characteristic and its clock is below 2^35 ms, thirteen months: in UTC it never does |
| `Link.Receiver.Receive` | app/src/main.c:880-938 | the next message the bytes give, or none when they run out, and what is left for the next call |
| `Link.Receiver.ReceiveAll` | app/src/main.c:880-938 | call after call, every message on the stream in order |
| `Link.Resynchronises` | app/src/main.c:880-938 | every non-empty zero-free run that fits the buffer and stands between delimiters is handed over byte for byte, whatever came before |
| `Link.OverlongTailIsHanded` | app/src/main.c:923-936 | of a run of any length the bytes left after whole buffers still reach the decoder |
| `Link.IntactFramesArrive` | app/src/main.c:880-938 | every intact frame is received once and in order around arbitrary damage, and a damaged stretch yields what it would on its own |
| `Link.DecodableFits` | app/src/serial_protocol.h:207-250 | no frame the decoder could take is too long for the receive buffer |
| `EndToEnd.MessageLoop` | app/src/main.c:1581-1618 | on any byte stream the loop greets, dispatches and turns away exactly as the messages received and the bench's schema say |
| `EndToEnd.DispatchedExactlyWhenAskedFor` | app/src/main.c:1587-1611 | the studies dispatched are exactly those whose last Hello or StudyStart before them was a Hello of the bench's own schema, each once and in order |
| `EndToEnd.StudyRunsExactlyWhenAskedForAndSealed` | app/src/main.c:880-1376 | a host's study frame sent after anything and before anything is received as it was sent, is dispatched exactly when it was asked for, and then runs exactly when both seals the dispatcher asks about are good; else it is over before its first step |
| `EndToEnd.HandshakeThenStudy` | app/src/main.c:1081-1143 | a Hello frame, bytes that yield no Hello and no StudyStart, then the study: it is dispatched exactly when the Hello named the bench's schema |
| `EndToEnd.CompletedProtocolsPassed` | app/src/main.c:1412-1534 | a study reported completed left the device, after each protocol step that was not allowed to fail, in a state its manifest calls a pass |
| `EndToEnd.DeclaredTapIsHeardExactly` | app/src/serial_protocol.h:470-500 | a tap of a sealed study is opened once and closed once exactly if it is no Signal and its declared scope holds a step that ran, or the first if none did |
| `Dispatch.Dispatcher.SetTapOpen` | app/src/main.c:553-574 | the transition is sent, the tap's flag follows it, and the sampled transcript flag with it |
| `Dispatch.Dispatcher.SyncTaps` | app/src/main.c:587-612 | exactly the transitions a step's scopes ask for, each close with the tap's own loss |
| `Dispatch.Dispatcher.CloseAllTaps` | app/src/main.c:637-645 | everything of ours still open is closed, a whole-study tap too |
| `Dispatch.Dispatcher.LoadTaps` | app/src/main.c:650-665 | all closed, nothing lost, and the transcript's tap the first declared as one |
| `Dispatch.Dispatcher.RunSteps` | app/src/main.c:1412-1472 | the step loop leaves the acts, windows and verdict its specification gives |
| `Dispatch.Dispatcher.Dispatch` | app/src/main.c:1349-1534 | the whole study leaves exactly its trace |
| `DispatchRuns.StudyIsReported` | app/src/main.c:1349-1534 | results numbered from 0 without a gap, one StudyDone, the last; completed exactly when no unnamed action and neither seal stopped the study and every step named a protocol and state there are and passed or was allowed to fail |
| `DispatchRuns.TraceFollowsTheScript` | app/src/main.c:1349-1534 | apart from windows and remarks the trace is the script of the steps: each run and reported with its own verdict, up to the first that stops the study |
| `DispatchRuns.RemarksAreExactly` | app/src/main.c:1349-1534 | what is logged: why a study was refused, in that order of causes; or the verbosity not reached, a window left open and the number of transcript rows lost |
| `DispatchRuns.WindowsFollowTheSteps` | app/src/main.c:553-645 | no tap opened or closed twice, none not ours, every action run with a tap open exactly when its scope covers the step, and nothing left open |
| `DispatchRuns.TapStory` | app/src/main.c:553-645 | each of our taps whose scope meets a synced step is opened once and closed once, with all it lost while its scope covered the steps; every other is never mentioned |
| `DispatchRuns.StoryUnfolds` | app/src/serial_protocol.h:483-500 | a scope is one stretch of steps, so a sync changes exactly what is left of a tap's story |
| `DispatchRuns.ProtocolsSealIsIgnored` | app/src/main.c:1351-1376 | a study whose protocols arrived corrupt leaves the same trace as one whose did not |
| `Taps.Capture.NotifyTapWants` | app/src/main.c:237-260 | whether some open tap named this characteristic's data |
| `Taps.Capture.ChargeDrop` | app/src/main.c:270-289 | one loss to every open tap that would have had the entry, to no other |
| `Taps.Capture.SinkEntry` | app/src/main.c:317-342 | the sink's move: ignored, queued, or counted and charged |
| `Taps.Capture.SinkDrop` | app/src/main.c:303-315 | the bridge's own loss is charged to the characteristic's taps, never to the transcript |
| `Taps.Capture.TransmitOne` | app/src/main.c:344-500 | one pass of the sender is the sequence of its moves: take, each tap, the transcript |
| `Taps.Capture.SetTapOpen` | app/src/main.c:553-574 | the transition's message, a close with the tap's own counter, and the flag |
| `Taps.NothingIsMislaid` | app/src/main.c:237-500 | under every interleaving in which the tap's own window stays as it is, each entry it wanted is exactly one of sent, charged, queued or in hand |
| `Taps.PromisedExactly` | app/src/main.c:237-260 | what a tap is promised: nothing while shut, every arrival for the transcript's, its characteristic's notifications and indications for a characteristic's, and nothing for any other |
| `Taps.WireCarriesWhatWasSent` | app/src/main.c:344-500 | under every interleaving the records on the wire under a tap's id are, in order, the entries sent on it, each with its own time, the row whole on the transcript's tap and the value alone on any other |
| `Taps.ServedExactly` | app/src/main.c:395-489 | an entry served to a tap it is for is sent exactly if its record is of at most 256 bytes, and else lost to that tap |
| `Taps.CapturesKeepTheirOrder` | app/src/main.c:344-500 | under every interleaving what goes out on a tap, with what is in hand and queued for it, stands in the order in which it arrived |
| `Taps.RowsAreLosses` | app/src/main.c:262-289 | under every interleaving the count of lost rows is the number of times an entry was lost, on however many taps |
| `Taps.UpstreamExactly` | app/src/main.c:303-315 | an open characteristic's tap is charged each of the bridge's losses of that characteristic once, any other tap none |
| `Taps.BurstsQueueSixteen` | app/src/main.c:317-342 | of a burst that is wanted the first sixteen are queued, in order, and every further one is lost |
| `Taps.OnlyTheWantedIsQueued` | app/src/main.c:317-342 | while no window moves, under every interleaving, everything queued or in the sender's hand is wanted by some open tap |
| `Taps.CountersAreHonest` | app/src/main.c:184-211 | under every interleaving, windows moving or not: a tap's counter is what was charged to it here and upstream, no entry is sent or charged on a tap it is not for, the count of lost rows is zero exactly while no entry was charged, the queue never exceeds its depth, and every message sent fits |
| `Taps.ShutIsQuiet` | app/src/main.c:237-500 | while a tap stays shut, under every interleaving, it sends nothing and is charged nothing |
| `Taps.CloseReportsTheWindow` | app/src/main.c:553-574 | a StreamClose carries the tap's counter, which grew since its StreamOpen by exactly what was charged; what was sent, charged and is still waiting is what was waiting at the open and what arrived since |
| `LogBackend.Backend.LineOut` | app/src/dev_bench_log.c:188-218 | any chunk emits the lines that end in it and keeps the unfinished one as it would be rendered |
| `LogBackend.Backend.Process` | app/src/dev_bench_log.c:227-258 | a record in any chunks emits one line for each of its non-empty segments |
| `LogBackend.Backend.BacklogPut` | app/src/dev_bench_log.c:127-140 | the newest line is held; when full, the oldest gives way and is counted |
| `LogBackend.Backend.BacklogPop` | app/src/dev_bench_log.c:146-162 | the oldest held line, if there is one |
| `LogBackend.Backend.EmitLine` | app/src/dev_bench_log.c:165-177 | to the sink; before it, to the ring; in a panic without one, nowhere |
| `LogBackend.Backend.SetSink` | app/src/dev_bench_log.c:298-332 | a sink gets the count of what was overwritten, then every held line in order, each behind the lines the log thread produced in front of it; no sink only unlinks |
| `LogBackend.NothingHeldIsLost` | app/src/dev_bench_log.c:305-331 | however the two threads interleave, every held line and every new one goes out once, the held ones in their order |
| `LogBackend.BootLinesGoOut` | app/src/dev_bench_log.c:127-332 | of the lines logged before there is a sink the last eight go out, after a note of how many did not if there were more, and every later line as it comes |
| `LogBackend.Rendered` | app/src/dev_bench_log.c:188-218 | a line is printable and at most 128 bytes: whole if it fits, else its first 122 and the mark |
| `LogBackend.PrintableIsKept` | app/src/dev_bench_log.c:188-218 | printable text of up to 128 bytes is logged as it is, every other byte as a dot, a longer text's first 122 bytes and the mark |
| `LogBackend.NewlineCuts` | app/src/dev_bench_log.c:188-218 | a newline ends a segment, and nothing else does |
| `LogBackend.SegmentsAreTheText` | app/src/dev_bench_log.c:188-218 | segments cut the text at its newlines and nowhere else |
| `LogBackend.ChunksDoNotMatter` | app/src/dev_bench_log.c:188-218 | splitting the bytes anywhere gives the same lines |
| `LogBackend.AssembledIsSegments` | app/src/dev_bench_log.c:188-218 | the lines are the rendered non-empty segments, in order |
| `LogBackend.RingHoldsTheNewest` | app/src/dev_bench_log.c:127-162 | over any puts and pops the ring holds the newest lines in order, and puts are pops, held and overwritten |
| `LogBackend.RingIsAQueue` | app/src/dev_bench_log.c:127-162 | until something is overwritten, what comes out is what went in |
| `ScanNames.Append` | app/src/scan_seen_names.c:7-49 | the buffer gains the whole quoted name and a terminator exactly when there is room, and is untouched otherwise |
| `ScanNames.Summary` | app/src/ble_bridge_real.c:1138-1166 | the longest prefix of the names that fits, and truncated exactly when one is missing |
| `ScanNames.LongestIsLongest` | app/src/ble_bridge_real.c:1138-1166 | it is the one number of names such that no longer prefix fits and every shorter one does |
| `ScanNames.FailedScan` | app/src/ble_bridge_real.c:1326-1349 | the counts, as many whole names as 22 bytes take, or 8 when the census overflowed, and both marks; never more than 64 bytes together |
| `ScanNames.Scanner.EntryFor` | app/src/ble_bridge_real.c:983-1002 | an advertiser's slot, found or new, in a table whose length is one byte |
| `ScanNames.CensusKeeps` | app/src/ble_bridge_real.c:978-1002 | whatever is heard and however often: the census never flags an overflow, never holds 256, and holds exactly the different advertisers heard while they are fewer |
| `ScanNames.CensusForgets` | app/src/ble_bridge_real.c:978-1002 | at any time the census holds exactly the advertisers heard since it last emptied itself, which it does at the 256th different one since the time before |
| `ScanNames.CensusHoldsAll` | app/src/ble_bridge_real.c:978-1002 | every advertiser heard is in the census exactly while fewer than 256 different ones were |
| `PdBench.RdoMax` | pd-bench/src/main.c:310-335 | the loop picks the request the specification picks |
| `PdBench.BestIsFirstGreatest` | pd-bench/src/main.c:310-335 | the position is the first of the greatest power, half a milliwatt for each 50 mV times 10 mA at no more than 3 A, rounded down; and there is none only without a fixed supply |
| `PdBench.MaxIsWithin` | pd-bench/src/main.c:310-335 | `pd max` asks within its object, at the lesser of its current and 3 A, exactly when a fixed supply is offered; else it asks position 1 for 500 mA |
| `PdBench.RdoFor` | pd-bench/src/main.c:338-384 | the request for a choice, or none when the capabilities do not allow it |
| `PdBench.ChoiceIsWithin` | pd-bench/src/main.c:338-384 | a choice's request names the position chosen, asks what was chosen rounded down to the object's units, and is within the object |
| `PdBench.BuildOffer` | pd-bench/src/main.c:1687-1745 | the whole list, or none when one of its objects is not valid |
| `PdBench.OfferPdoExactly` | pd-bench/src/main.c:1687-1725 | an object is offered exactly when it rises above the one before, or is the first and at 5 V, and the devicetree's first fixed object at its voltage gives its 10 mA or more |
| `PdBench.OfferIsOfferable` | pd-bench/src/main.c:1687-1757 | a list set by command starts at 5 V, rises strictly and stays within the devicetree's |
| `PdBench.OneObjectAtFiveVolts` | pd-bench/src/main.c:1827-1830 | with nothing but 5 V in the devicetree, as the bench insists, such a list has one object |
| `PdBench.PdPort.SetSrcCap` | pd-bench/src/main.c:396-405 | at most seven objects replace the front of the slots, and the rest stay |
| `PdBench.PdPort.PolicyGetRdo` | pd-bench/src/main.c:407-436 | the contract again, the choice, or vSafe5V, remembered with the object it names |
| `PdBench.PdPort.WantSet` | pd-bench/src/main.c:1340-1363 | a choice is kept exactly when the bench is the sink and holds, at the position chosen, that kind of object and enough of it |
| `PdBench.PdPort.CheckSinkRequest` | pd-bench/src/main.c:790-814 | the answer, and on Accept the request with the object it named among the capabilities sent |
| `PdBench.PdPort.PolicyGetSrcCaps` | pd-bench/src/main.c:764-778 | what is sent is kept beside what may be set meanwhile |
| `PdBench.PdPort.CmdSrcCaps` | pd-bench/src/main.c:1727-1768 | the new offer whole, or the old one untouched |
| `PdBench.PdPort.PowerTransition` | pd-bench/src/main.c:924-945 | the request accepted, or the one sent, becomes the contract in force |
| `PdBench.PdPort.SetRole` | pd-bench/src/main.c:515-552 | a change of role ends the contract of the role left behind |
| `PdBench.PdPort.PartnerGone` | pd-bench/src/main.c:494-512 | a detach ends every contract and forgets the partner's capabilities |
| `PdBench.NoRequestAboveTheCaps` | pd-bench/src/main.c:764-814 | after any run, a request is accepted exactly when the host last set Accept and the object it names among the capabilities last sent is fixed, was written and gives its current; and then the devicetree lists that voltage with at least that current |
| `PdBench.SinkKeepsWithin` | pd-bench/src/main.c:396-945 | over every run of callbacks and commands, in any order: the request last sent and the one the contract was made of ask no more than the objects they name exactly if the capabilities held bore them out when they were made |
| `PdBench.SafeFirstIsBacked` | pd-bench/src/main.c:407-436 | with a fixed supply held first whenever a request is asked for, every request is borne out |
| `PdBench.OfferStaysCovered` | pd-bench/src/main.c:1687-1768 | over every run nothing offered or sent is above the devicetree's object at that voltage, and a list set by command starts at 5 V and rises |
| `PdBench.PortIsItsHistory` | pd-bench/src/main.c:396-1768 | after any run the role, the capabilities held, the choice, the offer with its dual-role bit, and whether a refresh is due are what the events say |
| `PdBench.RequestRenewsExactly` | pd-bench/src/main.c:407-436 | after any run the request is the contract's again exactly when a refresh is due and its object is held where it names it; else the choice's; else vSafe5V at up to 500 mA |
| `PdBench.FieldIsTheLowTenBits` | pd-bench/src/main.c:396-436 | whatever the first object is, its low ten bits are read as a fixed object's current |
| `PdBench.ContractsInForce` | pd-bench/src/main.c:494-945 | over every run: a contract is in force, in either role, exactly when the supply moved in that role and no detach, hard reset, end of contract or change to the other role came since |
| `PdBench.ContractFitsOnceAccepted` | pd-bench/src/main.c:790-938 | over every run: the request remembered, and the one the source contract was made of, fit the objects they name exactly if some request had been accepted by then |
| `PdBench.ContractBeforeAcceptance` | pd-bench/src/main.c:924-938 | a supply moved before any request was accepted: a contract is in force that fits nothing |

## Left out

- The Bluetooth host stack (GATT discovery, subscription, pairing, connection callbacks) is not in the
  repository; the driver starts once its sources are subscribed, and what writes and the queue give back is the
  environment's.
- UARTs, interrupts, semaphores and sleeps are byte streams, clock readings and bounded queues.
- Structs the decoder fills in place are values here; that a rejected frame can leave a half-filled struct
  behind is not modelled.
- C strings are the bytes before their terminator. A received string that holds a NUL byte is kept whole here,
  where later C code would see it end there.
- `Postcard.Reader.Skip`: lengths are mathematical integers, so the `size_t` wrap of a hostile length is not modelled.
- `Decoder.DecodeBody`: the message tag is narrowed to 32 bits, the width of the enum it is stored in.
- `Encoder.EncodeFrame`: the static staging buffer shared by all senders is a fresh one per call; the mutex that
  makes sharing safe is not modelled.
- The `.eap` manifest a host may send is only range-checked by the host; `Eap.Valid` is the precondition the
  interpreter's callers owe.
- `Driver.Execute`: the queue is what reached it, in order of arrival; what its bound made it drop, unsubscribing and
  the log line about dropped notifications are not modelled. A run the environment never ends has no report.
- `Dispatch.Dispatcher.Dispatch`: what the capture threads lose during a step is charged in one go when its action
  ends, and counters do not wrap; a study's log level is only compared. Translating a step into a bridge action, and
  the captured fields of a result, are not modelled.
- `Taps.Capture.SetTapOpen`: counters and windows move atomically; the few instructions in which a tap's flag lags its
  message are not modelled, so nothing is claimed about chunks after a StreamClose.
- `Link.Receiver.Receive`: the overrun note sent while idle is not modelled.
- `LogBackend.Backend.SetSink`: lines of the log thread come between the sink's calls, not inside one. Level filtering
  and the formatting of records are left out.
- `ScanNames.FailedScan`: names arrive as recorded; parsing advertisements and manufacturer data is left out.
- `PdBench.PdPort.PolicyGetRdo`: bit layouts of Zephyr's PDO and RDO unions are not part of this model; objects and
  requests are their fields, at the fields' widths.
- `PdBench.ContractsInForce`: PR_Swap windows, data roles beyond the dual-role bit, VBUS switching, partner answers and
  the shell are left out.
- `EndToEnd.MessageLoop`: a Hello's other effects (the bridge and log-level reset, the hardware identity, the reset
  diagnostics) and bytes the line loses while a study runs are not modelled.
- The stub bridge and the Rust reference crate.
