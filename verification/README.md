# divas4linux: models and proofs

Six parts of the driver for Eicon DIVA Server cards and of its tools, as Dafny
programs with their proofs. Each is written in the form the C code has: state
that is updated in place is a class or an array with loops and invariants, tied
by its contract to functions on values, and the properties of whole runs are
lemmas about those functions.

* **DTMF receiver** (`Words`, `Arith`, `Goertzel`, `FilterBank`, `Power`,
  `Resonator`, `LogLevel`, `Classifier`, `Debounce`, `DtmfFrame`, `DigitRing`,
  `DtmfReceiver`). Two half-overlapping windows of 160 samples run through 16
  fixed-point Goertzel filters in portions of up to 32 samples. The streaming
  code refines a batch definition that decides each frame by itself, so the way
  the samples are cut into blocks leaves no trace. The integer arithmetic does
  not overflow, the energies are the spectrum of the samples, their levels its
  logarithm, and the debounced digits come out paired with their end marks.
* **MAINT message queue** (`MsgRing`, `MsgQueue`, `Maint`). A ring of messages
  of varying length with a moving wrap mark, over bytes, as a queue of
  messages; evicting the oldest until a new one fits; sequence numbers.
* **CAPI glue** (`LiGrid`, `LineInterconnect`, `XBuffer`, `MessageFormat`,
  `Sendf`, `MessageReader`). The square table of the line interconnect as adapters come and go;
  the two rings through one array of transmit buffers; the message encoder that
  keeps its stack of open structures in the length bytes it overwrites later,
  and an application that reads what it wrote.
* **XDI request engine** (`XdiState`, `XdiSafety`, `XdiFlow`, `XdiRemoval`,
  `XdiCalls`, `XdiFragment`, `XdiReceive`, `XdiTransfer`, `XdiAdapter`). Posting,
  fragmentation, return codes, flow control, removal, credits and reassembly.
* **Pager** (`Dialog`, `Lines`, `PagerView`, `Pager`, `PagerKeys`). A sliding
  window on a file that behaves, for every sequence of keys, like a view of all
  its lines.
* **Configuration file** (`RcLine`, `RcAttr`, `RcFile`). A printer and an
  in-place parser that undo each other.

## What the proofs found

* Enabling an active receiver again, as the driver does when the mask of DTMF
  functions grows, resets `cycle_counter` but not `cycle_counter0`. The stream
  starts anew if and only if that counter was 0
  (`DtmfReceiver.Receiver.Enable`). Behind a completed window the receiver goes
  on with half a window of old samples (`DtmfReceiver.Receiver.EnableAgain`);
  in the first half of the first one the counter becomes a word of more than
  65456 that indexes the window table (`DtmfReceiver.EnabledTooEarly`).
* A power of zero shifts a 32-bit word by 32, which C leaves undefined; on a
  processor that leaves the word unchanged or clears it the level is 3
  (`LogLevel.ShiftCounts` for the shift, `LogLevel.LevelRange` with
  `LogLevel.QuantiseIsLevel` for the level). The branches for negative
  coefficients in the filter code are never taken: all are positive.
* `diva_mnt_insert_message` writes its terminator one byte behind the message.
  `Maint.Log.InsertMessage` gives the exact condition under which this is
  harmless, told from the queue before the call; in a ring of any size entries
  of three characters break it (`Maint.TerminatorCorrupts`, `Maint.CorruptLog`).
* `sendf` counts nesting in a byte and uses 0xff for errors, so it refuses
  structures nested 255 deep or deeper (`Sendf.DepthLimit`). Its first pass
  stops taking numeric arguments once the scratch message is full, but goes on
  taking strings, and is then out of step (`Sendf.OutOfStep`, for a scratch
  message of any size); a message that fits it never is.
* The second pass finds its way back from a structure to the one around it by a
  byte, so it keeps track of the open structures if and only if each that closes
  starts at most 255 bytes behind the one around it (`Sendf.TrackedIff`). If a
  single one starts farther, the outer one never gets its length
  (`Sendf.FarStructureIsLost`).
* The last fragment of a request can be empty, also behind a full one
  (`XdiFragment.EmptyLastFragment`). Reassembly then needs room for one byte
  more than the data, or an empty buffer behind a full one; without it the code
  accesses the buffer behind the last one (`XdiTransfer.Transfer`, with
  `XdiTransfer.FullAndEmpty` for the smallest case).
* A UREMOVE frees an entity number without clearing its flags; the next entity
  with that number starts with them (`XdiRemoval.FlagsLeftBehind`,
  `XdiRemoval.FlagsReached`).
* `find_free_id` searches up to 100 and returns 999 if it finds nothing, while
  the adapter table has 64 places and is indexed without a test. The number fits
  if and only if a place is not live (`LineInterconnect.FreeIdFits`).
* In `pr_out` the credits are the difference of two byte counters. That no more
  is sent than was granted needs no assumption on how far the card runs ahead
  (`XdiAdapter.Credits`).
* `m` calls of `get_line` and `back_lines (m)` are not the identity if two or
  more of the calls found the end of the file; `Pager.TextBox.ForthAndBack`
  gives the exact condition.

## Assumptions

* DTMF: the G.711 expansion tables and the window table are any functions
  within their ranges, 32256 and 32766.
* Message queue: message sizes are below 0x8000, the bit that marks a message
  as incomplete; the bytes of the queue are followed by at least one more, as
  `queueInit` is called with 512 bytes less than there are.
* Line interconnect: `vscapi_mode` is 0; the rows' tables are separate arrays
  rather than parts of one block. While later adapters move down, the removed
  adapter's own start also changes; it is not used afterwards and not modelled.
* `sendf`: the total length is at most 0xffff.
* XDI: the flag bits of More are separate fields and its low four bits a number;
  at most 15 fragments of an entity are without a return code in `XdiCalls`. The
  entity table is a map, the request queue a sequence, the pending ASSIGNs a map
  from references. Indexes are 1 to 255. The card assigns Ids whose low five bits
  are not all zero and answers an ASSIGN that waits for it; a queue entry whose
  entity is gone is skipped, as in the build with extended debugging. A client
  hands its request over when it is accepted.
* XDI reception: at least one and fewer than 255 buffers, each with memory
  behind it.
* Pager: the file does not change and holds no NUL; `read` returns all it can;
  the box is at least five rows high; the flags start as at the first call.
* Configuration file: no NUL in it; numbers are not bounded to 32 bits; values
  of booleans and highlights other than 0 and 1 are read back as 1.

## Model

| member | source | states |
|---|---|---|
| Goertzel.Coefficient | kernel/capidtmf.c:386-404 | every entry of the coefficient table, and the start value of the sweeping one, is even and strictly between 0 and 2*65536; the fixed ones stay below 2*0xe1c6 |
| Goertzel.RunConcat | kernel/capidtmf.c:183-244 | running a filter over two portions of samples one after the other is running it over their concatenation |
| Goertzel.EnergyStep | kernel/capidtmf.c:188-216 | how the quadratic form 65536(q1²+q2²) − C·q1·q2 changes in one step whose rounding error is u |
| Goertzel.DrivenStep | kernel/capidtmf.c:188-216 | one step with an input and floor error of at most B keeps the energy within 65536(m+B)², scaled for a moving coefficient |
| Goertzel.SweepStep | kernel/capidtmf.c:216-243 | lowering the coefficient of the sixteenth filter keeps the scaled energy bound |
| Goertzel.StepContained | kernel/capidtmf.c:188-243 | one sample keeps the energy invariant of a filter, floor error included |
| Goertzel.RunContained | kernel/capidtmf.c:188-243 | any run of samples keeps it, with the number of samples counted on |
| Goertzel.FixedEnergy | kernel/capidtmf.c:188-216 | for a fixed filter the invariant is 65536(q1²+q2²) − C·q1·q2 <= 65536·n²·B² |
| Goertzel.ContainedBound | kernel/capidtmf.c:188-243 | the invariant bounds q1²+q2² by the distance of the start coefficient from 2*65536 |
| Goertzel.ContainedLimit | kernel/capidtmf.c:188-243 | within a 160-sample window both outputs stay below 2^24 for the fixed filters, 2^25 for the sweeping one |
| Goertzel.WindowBound | kernel/capidtmf.c:599-657 | from a zero state, for any input of at most 160 windowed samples, energy and magnitude bounds hold for each of the 16 filters |
| FilterBank.LimbProductExact | kernel/capidtmf.c:196-199 | the 16-bit-limb product of the loop is the floor of c*q/65536 |
| FilterBank.LimbProductFits | kernel/capidtmf.c:196-199 | neither of its partial products overflows 32 bits while |q| < 2^25 |
| FilterBank.FixedFilter | kernel/capidtmf.c:188-216 | the loop of one fixed filter, in 32-bit integers without overflow, is the recurrence over all the samples |
| FilterBank.SweepingFilter | kernel/capidtmf.c:217-243 | the same for the filter whose coefficient falls with every sample |
| FilterBank.GoertzelLoop | kernel/capidtmf.c:183-244 | in place on the state buffer and the coefficient table: each of the 16 filters ran over the samples, nothing else changed, and the invariant holds on |
| Power.MultiplyLimbs | kernel/capidtmf.c:264-288 | four 16-bit partial products add up to d*e, with bounds on each limb |
| Power.AddSquare | kernel/capidtmf.c:296-311 | adding a square limb by limb adds q*q exactly, without overflow |
| Power.ScaledProduct | kernel/capidtmf.c:257-261 | the first factor is the floor of −c*q1/65536 and fits |
| Power.MixedLimbs | kernel/capidtmf.c:262-295 | the three limbs with their signs are q2 times that factor |
| Power.PowerNonnegative | kernel/capidtmf.c:247-317 | q1² + q2² + q2·floor(−c·q1/65536) is never negative |
| Power.GoertzelPower | kernel/capidtmf.c:253-316 | for |q1|,|q2| < 2^28 and a coefficient below 2*65536 the two stored words are exactly that value, the high one not negative |
| Power.GoertzelResult | kernel/capidtmf.c:247-317 | all 16 pairs of the buffer are replaced in place by the powers of what they held |
| Resonator.FilterResponds | kernel/capidtmf.c:188-216 | the outputs of a filter with a fixed coefficient are, in real numbers, the response of a resonator to all its samples, each with a rounding error of less than one |
| Resonator.EnergyIsSpectrum | kernel/capidtmf.c:188-216 | the quadratic form of such outputs is the sum over all pairs of samples of their product times the cosine of the angle between them |
| Resonator.WindowSpectrum | kernel/capidtmf.c:386-404 | so the energy each of the fifteen fixed filters ends a window with is the spectrum of the samples at its frequency, but for their rounding |
| Resonator.PowerIsEnergy | kernel/capidtmf.c:253-316 | the rounded power differs from that energy by less than the size of one output, and to a known side |
| Resonator.SweepCoefficient | kernel/capidtmf.c:217-243 | the coefficient of the sixteenth filter falls by 2*0x19 with every sample, from 2*0xf3b9 |
| LogLevel.LeadingZeroesCorrect | kernel/capidtmf.c:155-177 | the table and the byte, word and dword macros count leading zeroes: width less bit length, for every value |
| LogLevel.QuantiseIsLevel | kernel/capidtmf.c:689-708 | the shifting computation on the two words is a function of the 63-bit power alone |
| LogLevel.ShiftCounts | kernel/capidtmf.c:692-702 | the normalising shifts are in range, except by 32 exactly when the power is zero |
| LogLevel.Doubling | kernel/capidtmf.c:689-708 | doubling any positive power raises the level by exactly 3 |
| LogLevel.LevelMonotone | kernel/capidtmf.c:689-708 | a greater power has no lower level |
| LogLevel.LevelRange | kernel/capidtmf.c:703-708 | the level of a positive 63-bit power lies in 6..194 and fits the byte it is stored in |
| LogLevel.LevelIsLogarithm | kernel/capidtmf.c:689-708 | the level of a positive power is six and three times its binary logarithm, rounded down, but for one part in 65536 of the power |
| Classifier.GroupPeak | kernel/capidtmf.c:710-730 | the loop finds the first index of the greatest level above the sensitivity, or that there is none |
| Classifier.FlaggedMeaning | kernel/capidtmf.c:739-749 | the 16-bit comparisons with wrapping differences mean that a frequency disturbs the two peaks |
| Classifier.DigitTones | kernel/capidtmf.c:359-363 | the mask of the digit for two peaks has just the bits of their two frequencies |
| Classifier.Louder | kernel/capidtmf.c:710-751 | raising all levels by the same amount changes nothing of the decision but whether the peaks are above the floor |
| Classifier.TwoFailures | kernel/capidtmf.c:739-751 | the count of failing frequencies is 2 exactly when only the two peaks themselves fail |
| Classifier.FlagsDecide | kernel/capidtmf.c:739-751 | so the test `n != 2` accepts a digit exactly when no other frequency disturbs it |
| Classifier.CorrectUnique | kernel/capidtmf.c:710-751 | the description of a correct decision leaves one decision for any levels |
| Classifier.DecisionIsDigit | kernel/capidtmf.c:710-751 | a decision is no digit, or one of the 16 digits and then the likely one |
| Classifier.Suggest | kernel/capidtmf.c:710-735 | the peaks and the twist tests give the likely digit, or none if no pair of tones passes |
| Classifier.Classify | kernel/capidtmf.c:710-751 | the code takes the one correct decision |
| Debounce.FrameTiming | kernel/capidtmf.c:476-496 | the durations in frames that enabling computes from milliseconds stay in range |
| Debounce.Durations | kernel/capidtmf.c:476-496 | the milliseconds each of the two frame counts stands for |
| Debounce.AdvanceSane | kernel/capidtmf.c:753-801 | every frame keeps the detector sane: no gap is counted without a digit, and counting never reaches the 0xffff that marks a digit as reported |
| Debounce.MarksAfterDigits | kernel/capidtmf.c:753-801 | over any run of decisions every 0x7f follows a digit directly |
| Debounce.ReplayConcat | kernel/capidtmf.c:753-801 | decisions can be replayed in portions |
| Debounce.Pressing | kernel/capidtmf.c:773-801 | a steady tone, from any state of the detector: a reported digit goes on unreported, a digit that is being counted goes on being counted over a short gap, another one starts anew without a gap; it is reported once, at the frame that completes the shortest duration |
| Debounce.Releasing | kernel/capidtmf.c:753-772 | frames without a digit, whatever they look like, end it at the frame that completes the shortest gap, one later if that still looks like the digit, with 0x7f if it had been reported |
| Debounce.ChangeOver | kernel/capidtmf.c:783-797 | a digit that follows another one without a gap is reported too, without an end mark between them |
| Debounce.ShortGap | kernel/capidtmf.c:753-801 | a gap too short leaves no trace in a reported digit |
| Debounce.PendingDigit | kernel/capidtmf.c:500-514 | a digit pending when reception is enabled is not reported again, but its end is; without one, silence gives nothing |
| Debounce.PressAndRelease | kernel/capidtmf.c:753-801 | a press and a release long enough give digit and 0x7f and leave the detector idle; a press too short gives nothing |
| DtmfFrame.Tables.FramePower | kernel/capidtmf.c:599-692 | the power of every filter over a whole window lies in [0, 2^63) |
| DtmfFrame.Tables.DecisionsAt | kernel/capidtmf.c:599-802 | decision k of the batch form is that of samples [80k, 80k+160) from a zero state |
| DtmfFrame.Tables.DecisionIsLocal | kernel/capidtmf.c:599-802 | streams that agree on those samples have the same decision k |
| DtmfFrame.Tables.DecisionsExtend | kernel/capidtmf.c:599-802 | more samples do not change earlier decisions |
| DtmfFrame.FrameCount | kernel/capidtmf.c:599-683 | how many windows are complete after n samples |
| DigitRing.PushAllPrefix | kernel/capidtmf.c:557-576 | the ring keeps the first 31 of what it was given and drops the rest |
| DigitRing.PushAllConcat | kernel/capidtmf.c:557-576 | digits can be pushed in portions |
| DigitRing.Ring.IndicateDigit | kernel/capidtmf.c:557-576 | a digit is appended unless 31 are unread; the indication bit differs from its acknowledgement exactly when digits are unread |
| DigitRing.Ring.Indication | kernel/capidtmf.c:533-554 | hands out all unread digits in order and acknowledges them |
| DtmfReceiver.Receiver.constructor | kernel/capidtmf.c:451-469 | initialisation leaves the receiver idle |
| DtmfReceiver.Receiver.Enable | kernel/capidtmf.c:472-515 | from any state: detector, timings in frames and counters as set; the stream starts anew if and only if the counter of the next window was 0, that is, if the receiver was idle, had no samples, or just half a window of them |
| DtmfReceiver.Receiver.EnableAgain | kernel/capidtmf.c:472-515 | an active receiver enabled again behind a completed window decides as if the last half window of the old stream were the first of the new one, so after half a window of new samples |
| DtmfReceiver.EnabledTooEarly | kernel/capidtmf.c:599-627 | an active receiver that is enabled again in the first half of its first window starts with a counter that wrapped to more than 65456, beyond the window table |
| DtmfReceiver.Receiver.Disable | kernel/capidtmf.c:518-530 | back to idle with an empty ring |
| DtmfReceiver.Receiver.StartWindow | kernel/capidtmf.c:599-624 | the window in its first half becomes the current one, the next starts from zero half a window later |
| DtmfReceiver.Receiver.TakePortion | kernel/capidtmf.c:625-681 | a portion of at most 32 samples advances both overlapping windows, each as if it had been run over all its samples at once |
| DtmfReceiver.Receiver.MeasureWindow | kernel/capidtmf.c:683-708 | a completed window has the levels of the batch form |
| DtmfReceiver.Receiver.Debounce | kernel/capidtmf.c:753-801 | one decision moves the detector as the model says, and what it passes goes to the ring |
| DtmfReceiver.Receiver.FinishWindow | kernel/capidtmf.c:683-803 | a completed window adds its decision to those of the stream |
| DtmfReceiver.Receiver.RecvBlock | kernel/capidtmf.c:581-807 | after any blocks the detector and all it passed are those of the decisions of the batch form on the concatenated samples |
| DtmfReceiver.CutsLeaveNoTrace | kernel/capidtmf.c:581-807 | two receivers that saw the same samples in different blocks are in the same state: detector, digits passed, both counters, and each window that has begun |
| DtmfReceiver.MarksFollowDigits | kernel/capidtmf.c:753-801 | in every reachable state each 0x7f passed follows a digit, or the pending one |
| MsgRing.AllocWellFormed | kernel/debug.c:147-192 | allocation keeps the regions chained from head to wrap and from base to tail |
| MsgRing.FreeWellFormed | kernel/debug.c:194-210 | freeing keeps them so; the oldest region is at the head |
| MsgRing.CompleteWellFormed | kernel/debug.c:134 | completing a message keeps them so |
| MsgRing.RegionsDisjoint | kernel/debug.c:139-210 | live regions do not overlap and lie inside the buffer, none is split by the wrap |
| MsgRing.AdmitsIfRoom | kernel/debug.c:159-190 | a message is admitted if and only if there is a place for it behind the last one, or at the base of a ring without wrap mark, inside the buffer and apart from all messages queued; the place behind the last one is taken if it will do |
| MsgRing.EmptyOrFull | kernel/debug.c:161-165 | head equal to tail means empty exactly when nothing is wrapped, and an empty ring is the initial one |
| MsgRing.LongestSuffix | kernel/debug.c:1131-1139 | evict-and-retry stops at the first suffix of the queue that admits the message, or at an incomplete message, or at nothing |
| MsgRing.EvictionSucceeds | kernel/debug.c:1131-1142 | with all messages complete it fails exactly if the message could not fit the empty ring |
| MsgQueue.Queue.constructor | kernel/debug.c:139-145 | an empty queue over the given bytes |
| MsgQueue.Queue.AllocMsg | kernel/debug.c:147-192 | returns an address exactly if the ring admits the size; then the unread messages are the old ones and one more, incomplete, of that size |
| MsgQueue.Queue.FreeMsg | kernel/debug.c:194-210 | drops the oldest message; the byte count follows |
| MsgQueue.Queue.PeekMsg | kernel/debug.c:212-226 | shows the oldest message, all its bytes, exactly when it is complete |
| MsgQueue.Queue.CompleteMsg | kernel/debug.c:134 | clears the incomplete bit of one message and changes no other |
| MsgQueue.Queue.StoreData | kernel/debug.c:1144-1153 | writing into a message changes its bytes and no others |
| MsgQueue.Queue.StoreTerminator | kernel/debug.c:1155 | the zero written one byte behind the data leaves the queue intact if and only if the size is no multiple of 4, or the ring is not completely full, or the low byte it hits is zero already |
| MsgQueue.TerminatorEffect | kernel/debug.c:1155 | the same about the layout of any ring: exactly when that byte is not part of the next header |
| Maint.SettledLose | kernel/debug.c:1131-1139 | messages evicted before they were read extend the lost ones |
| Maint.SettledRead | kernel/debug.c:870-880 | a message read extends the delivered ones |
| Maint.GapIsLoss | kernel/debug.c:847-880 | the gap between two consecutive sequence numbers a reader gets is the number of messages lost between them |
| Maint.Log.AllocEvicting | kernel/debug.c:1131-1142 | evicts exactly the messages in front of the longest suffix that admits the new one |
| Maint.Log.AppendSized | kernel/debug.c:1131-1157 | the remaining messages keep consecutive numbers ending at dbg_sequence − 1, the new one is numbered and complete; where it is placed follows from the queue before |
| Maint.Log.Append | kernel/debug.c:997-1017 | the usual log entry: the suffix followed by the entry, or, if it can never fit, an emptied queue |
| Maint.Log.InsertMessage | kernel/debug.c:1115-1160 | the string entry: its text follows the header, cut to the longest one; its terminator does no harm if and only if the queue before the call and the size say so |
| Maint.HarmlessMeans | kernel/debug.c:1115-1157 | the condition read off the queue beforehand is the one about the ring behind the new message |
| Maint.Log.GetMessage | kernel/debug.c:847-864 | locks the queue and shows the oldest message, unless it is locked or empty |
| Maint.Log.AckMessage | kernel/debug.c:870-880 | drops that message or not, and unlocks |
| Maint.TerminatorCorrupts | kernel/debug.c:1115-1157 | in a ring of any size from 80 bytes on, texts of three characters make it do harm: the first one that needs another evicted ends at the oldest header |
| Maint.ShortsGrow | kernel/debug.c:1115-1157 | until then such texts are placed one behind the other and do no harm |
| Maint.CorruptLog | kernel/debug.c:1115-1157 | a log that starts empty and gets nothing but such texts ends corrupted |
| LiGrid.AddTiled | kernel/capifunc.c:995-998 | with a new adapter the intervals of the live adapters tile [0, total) in index order |
| LiGrid.RemoveTiled | kernel/capifunc.c:495-521 | and without a removed one |
| LiGrid.AddThenRemove | kernel/capifunc.c:495-521 | adding an adapter and removing it restores intervals and table |
| LiGrid.AddKeeps | kernel/capifunc.c:1021-1055 | an entry between two channels that were there keeps its value under re-indexing |
| LiGrid.AddBlank | kernel/capifunc.c:1024-1032 | rows and columns of a new adapter are zero |
| LiGrid.RemoveKeeps | kernel/capifunc.c:502-515 | an entry between two surviving channels keeps its value under re-indexing |
| LiGrid.RunKeeps | kernel/capifunc.c:495-521 | over any run of additions and removals the table stays well formed and entries between surviving channels keep their values |
| LiGrid.InsertSquareEntries | kernel/capifunc.c:1021-1055 | what inserting rows and columns does to each entry of a square |
| LiGrid.DeleteSquareEntries | kernel/capifunc.c:502-515 | what deleting them does |
| LineInterconnect.Interconnect.SpreadRows | kernel/capifunc.c:1020-1055 | the copying loops fill the new table with the square that has zero rows and columns inserted |
| LineInterconnect.Interconnect.AddCard | kernel/capifunc.c:987-1064 | the whole update on intervals and table |
| LineInterconnect.Interconnect.ShiftUp | kernel/capifunc.c:1061-1064 | later adapters move up |
| LineInterconnect.Interconnect.CleanAdapter | kernel/capifunc.c:486-521 | the whole removal on intervals and table |
| LineInterconnect.Interconnect.CloseRows | kernel/capifunc.c:495-516 | the memmoves in place, rows first and then columns, delete the same range of both |
| LineInterconnect.CloseColumns | kernel/capifunc.c:506-514 | the column loop |
| LineInterconnect.FindFreeId | kernel/capifunc.c:211-230 | the least number from 1 to 100 no card has, or 999 |
| LineInterconnect.FreeIdFits | kernel/capifunc.c:857-998 | the number has a place in the adapter table if and only if one of the 64 places is not live; that place is then free and not behind the end of the adapters in use |
| XBuffer.UnlinkRing | kernel/capifunc.c:669-670 | taking an element out closes its ring |
| XBuffer.PushRing | kernel/capifunc.c:671-674 | putting it behind an anchor makes it the first of that ring |
| XBuffer.MoveRings | kernel/capifunc.c:664-688 | each element is in exactly one of the two rings after any move, from whichever ring |
| XBuffer.SizesAdd | kernel/capifunc.c:647-688 | the sizes of the two rings sum to the number of elements |
| XBuffer.MutualInverses | kernel/capifunc.c:647-688 | next and prev are inverses of each other everywhere |
| XBuffer.BufferTable.constructor | kernel/capifunc.c:647-662 | all elements free, none used |
| XBuffer.BufferTable.Alloc | kernel/capifunc.c:664-675 | moves the element to the used ring, also if it is there already |
| XBuffer.BufferTable.Free | kernel/capifunc.c:677-688 | moves it to the free ring, also if it is there already |
| XBuffer.BufferTable.Next | kernel/capifunc.c:645 | a free element, or negative exactly when there is none |
| MessageFormat.BalancedIsStructure | kernel/capifunc.c:324-333 | a format string is balanced if and only if it is the flat form of a nested structure, and parsing finds it |
| MessageFormat.ParseFlatten | kernel/capifunc.c:324-333 | parsing loses nothing |
| Sendf.MachineEncodes | kernel/capifunc.c:360-398 | the machine with an explicit stack of open structures writes the recursive encoding |
| Sendf.ThreadedStep | kernel/capifunc.c:383-397 | every step keeps each length byte the distance to the structure around it, modulo 256 |
| Sendf.TopByte | kernel/capifunc.c:387-392 | the byte read back at a closing bracket leads to the enclosing structure if and only if that starts at most 255 bytes before |
| Sendf.FitsSmallContents | kernel/capifunc.c:383-397 | a structure whose parts all encode to at most 255 bytes has at most 255 bytes of contents at every moment |
| Sendf.SmallIsNear | kernel/capifunc.c:383-397 | with at most 255 bytes of contents, structures never close too far from the ones around them |
| Sendf.TrackedIff | kernel/capifunc.c:383-397 | the pass that keeps its stack in the length bytes agrees with the explicit stack at every moment if and only if no structure closes more than 255 bytes behind the start of the one around it |
| Sendf.ShortInSync | kernel/capifunc.c:289-323 | a message that fits the scratch buffer takes its arguments in step |
| Sendf.InSyncMeans | kernel/capifunc.c:289-323 | the two passes take their arguments in step if and only if no string comes behind a number that ends beyond the scratch message |
| Sendf.FirstPass | kernel/capifunc.c:289-333 | the first pass computes the length and finds out whether brackets match |
| Sendf.WriteToken | kernel/capifunc.c:361-398 | one format character of the second pass, in place, is one step of the pass on values, wherever a length byte leads |
| Sendf.SecondPass | kernel/capifunc.c:360-398 | the second pass does this for every format and all arguments, and leaves the header alone |
| Sendf.StructureWritten | kernel/capifunc.c:360-398 | what it writes for a balanced format whose structures close near is the recursive encoding of the structure |
| Sendf.Sendf | kernel/capifunc.c:265-405 | a balanced format gives header and what the second pass writes, the encoding where structures close near; a malformed one is reported as lost; a string taken out of step is undefined |
| Sendf.NestedEncodes | kernel/capifunc.c:383-397 | nested empty structures have contents that fit up to 256 deep |
| Sendf.DepthLimit | kernel/capifunc.c:324-333 | nesting is accepted up to 254 deep and no deeper, though deeper contents would fit |
| Sendf.OutOfStep | kernel/capifunc.c:291-323 | for every size of the scratch message: one number argument beyond its end and a string behind that put the arguments out of step |
| Sendf.FarStructureIsLost | kernel/capifunc.c:383-397 | a structure of k bytes and an empty structure is encoded if and only if k < 255; else the outer one does not get its length |
| MessageReader.PrefixReadBack | kernel/capifunc.c:360-398 | a reader with the same format gets all arguments back, from the encoding with anything behind it, if and only if every structure fits its length byte; from less than the encoding it gets nothing |
| MessageReader.MessageReadBack | kernel/capifunc.c:360-398 | so an application reads the arguments of a message back if and only if its structures fit |
| MessageReader.HeaderReadBack | kernel/capifunc.c:350-357 | and its length, application, command, number and controller from the header |
| Words.WordRoundTrip | kernel/capifunc.c:299-305 | the two bytes of a stored word are read back as it |
| XdiFragment.TakeSplits | kernel/di.c:129-144 | a fragment is the front of what is left, as much as fits, and the position behind it denotes the rest |
| XdiFragment.TakePassesEmpty | kernel/di.c:132-144 | an empty last buffer is passed only with room to spare |
| XdiFragment.CopyOut | kernel/di.c:129-144 | the copy loop does that |
| XdiFragment.FragmentsCarryData | kernel/di.c:129-194 | the fragments of a request concatenate to its data, all but the last are exactly 270 bytes |
| XdiFragment.EmptyLastFragment | kernel/di.c:129-194 | the last one is empty if and only if the data is a multiple of 270 bytes and either there is none or the last buffer is empty |
| XdiReceive.Receiver.Store | kernel/di.c:867-895 | the copy loop appends the indication to the contents of the buffers, over their boundaries; it runs over the end of the buffers if and only if there is too little room, or the indication is empty and the last buffer full |
| XdiReceive.Receiver.Finish | kernel/di.c:898-911 | the completion hands over buffers that hold exactly the data received |
| XdiReceive.Receiver.Indicate | kernel/di.c:766-915 | every case of an indication: look-ahead, not ready, self-copied, discarded, stored, completed, with its callbacks, and exactly when the code accesses a buffer behind the last one |
| XdiReceive.Receiver.ReceivePacket | kernel/di.c:766-915 | fragments make one look-ahead and one completion with all their data if and only if the buffers hold them: all data, and with an empty last fragment more room or an empty buffer behind |
| XdiTransfer.SendChained | kernel/di.c:129-194 | a request taken from the queue again and again goes out in these fragments |
| XdiTransfer.Transfer | kernel/di.c:129-911 | what pr_out fragments isdn_ind reassembles, byte for byte, if and only if the buffers can take it, told from the request and the buffers |
| XdiTransfer.FullAndEmpty | kernel/di.c:867-905 | 270 bytes and an empty buffer do not arrive in a buffer of 270 bytes, but in one of 271, or of 270 with an empty one behind |
| XdiSafety.StepKeeps | kernel/di.c:591-757 | every step keeps the Id tables consistent: an Id names a live entity that bears it, and back; a flow controlled channel belongs to an Id in use |
| XdiSafety.RunKeeps | kernel/di.c:591-757 | so does every run; an Id that has left the table is left in no slot |
| XdiSafety.FreeKeeps | kernel/di.c:607-612 | taking an Id out clears all its slots |
| XdiSafety.RemovalReachesClient | kernel/di.c:591-692 | a completed removal is passed to the client if and only if the final fragment was out, whatever XMOREC was, or flow control was released |
| XdiSafety.AssignGoesOut | kernel/di.c:195-215 | an ASSIGN goes out whole under the global Id of its entity, which waits for the answer under the reference of the request |
| XdiSafety.ReferenceStays | kernel/di.c:195-215 | over any run it is the one that waits under that reference, until another ASSIGN goes out with it |
| XdiSafety.AssignAnswered | kernel/di.c:695-760 | its answer calls the client back once, not busy any more, and gives the entity the Id, or takes the entity out and leaves no Id and no slot |
| XdiSafety.ForNobody | kernel/di.c:566-762 | a return code is for nobody if and only if its Id is in no use and no ASSIGN waits for it, and then changes nothing |
| XdiSafety.AcknowledgedOnly | kernel/di.c:591-600 | the acknowledgement of a REMOVE by a card that reports completed removals changes nothing but the channel noted, and the code that completes the removal is still awaited |
| XdiSafety.KnowsTheCard | kernel/di.c:594-603 | in every run the driver takes the card for one of these if and only if it did at the start or a completed removal of a network entity said so |
| XdiFlow.ControlStarts | kernel/di.c:630-640 | OK_FC takes the slot of the channel and gives the client its turn with the request done |
| XdiFlow.SkipMeansSent | kernel/di.c:162-195 | over any posts and sends, from any queue, with any data, the channel stays controlled and the skip flag is set if and only if the last fragment of a request of the entity went out on it |
| XdiFlow.ControlEnds | kernel/di.c:664-682 | the return code that ends flow control frees the slot, and is passed on unless it is OK and the skip flag is set; passed on, it ends the request if that is on its channel, and kept back, nothing the entity waits for changes |
| XdiFlow.ReleaseAnnounced | kernel/di.c:641-663 | the announcement that flow control is released tells the client and nothing else, and from then on no code is kept back |
| XdiFlow.FlowControlCycle | kernel/di.c:630-695 | so from OK_FC over anything posted and sent, the next code on the channel is kept back if and only if it is OK and such a last fragment was among those sent |
| XdiFlow.LastAnswer | kernel/di.c:683-695 | a request that is out completely, or any after flow control was released, is answered by as many codes as are outstanding; the last one is passed on and no other |
| XdiRemoval.SendStaysOut | kernel/di.c:162-195 | a fragment is noted as a removal only with the last one, and none can follow it |
| XdiRemoval.NotedIff | kernel/di.c:162-195 | an entity is noted for removal exactly from the last fragment of its REMOVE on until the code that completes it, over every event |
| XdiRemoval.StepStaysOut | kernel/di.c:591-757 | an entity is noted for removal only while its REMOVE is out completely, if its client posts nothing more |
| XdiRemoval.RemovalsAreReported | kernel/di.c:591-692 | so in every run with such clients each completed removal is passed on, exactly once, with the Id cleared |
| XdiRemoval.FlagsLeftBehind | kernel/di.c:591-615 | the next entity with the number of a removed one starts without flags after a REMOVE, but for flow control released with its last code, and with all flags of its predecessor after a UREMOVE |
| XdiRemoval.FlagsReached | kernel/di.c:222-234 | there is a run in which such a flag is set when a UREMOVE goes out |
| XdiCalls.SendTracks | kernel/di.c:162-195 | sending a fragment keeps flags and history in step, the requests the card has got included |
| XdiCalls.AnswerTracks | kernel/di.c:683-695 | a return code counts XMOREC down, and calls the client back exactly if it answers the last fragment of a request that is out completely; then the card has all its fragments |
| XdiCalls.PostTracks | kernel/io.c:545-570 | posting keeps them in step; a request to a busy entity is ignored |
| XdiCalls.NextKeeps | kernel/di.c:162-195 | every allowed event keeps flags and history in step |
| XdiCalls.EveryRequestOnce | kernel/di.c:162-195 | in every allowed run XMOREC is fragments sent less return codes received, posts less callbacks is 1 for a busy entity and 0 otherwise, and the card got of the last request fragments with its Id, channel and data, its code on the last one and the code for more on the others |
| XdiCalls.FragmentCarried | kernel/di.c:162-195 | one fragment extends what the card has got by the next part of what was asked for |
| XdiAdapter.Credits | kernel/di.c:237-249 | the difference of the byte counters never exceeds the room the card has granted, however they wrapped |
| XdiAdapter.ServedInTurn | kernel/di.c:103-219 | each entity in the queue is served in its order before any is served again, and serving ends with the credits or an empty queue |
| XdiAdapter.AskedAnswered | kernel/di.c:570-580 | the interrupt asked for when credits ran out is recognised when it comes, and no other |
| XdiAdapter.Adapter.DataReq | kernel/io.c:541-590 | the request step on the adapter |
| XdiAdapter.Adapter.AssignReq | kernel/io.c:523-590 | a new entity under the first free number, unless there are too many |
| XdiAdapter.Adapter.SendNext | kernel/di.c:103-219 | one turn of the loop in place is one step of the model |
| XdiAdapter.Adapter.PrReady | kernel/di.c:237-249 | ready is what the card has granted and not got yet, exactly if that is below 256, and modulo 256 otherwise; sending as many never exceeds the grant; with none an interrupt is asked for |
| XdiAdapter.Adapter.PrOut | kernel/di.c:77-235 | a batch is that many steps of the model; the requests sent never exceed what the card has granted |
| XdiAdapter.Adapter.ClearSlots | kernel/di.c:608-612 | the loop clears exactly the slots of the Id |
| XdiAdapter.Adapter.IsdnRc | kernel/di.c:549-762 | the return code handler in place is the return code step of the model |
| Lines.LinesAt | dialog/textbox.c:571-617 | what the lines of a file are, seen from the offset where one starts |
| Lines.LinesIff | dialog/textbox.c:571-617 | the lines of a file are the only ones without a newline in them that make it up when joined by newlines |
| Lines.StartAfterNewline | dialog/textbox.c:460-465 | before every line but the first there is a newline, the end of the line before |
| Pager.TextBox.ScanLine | dialog/textbox.c:577-611 | the loop collects the line up to its end, cut to the longest length, over any number of buffers |
| Pager.TextBox.GetLine | dialog/textbox.c:571-617 | returns the next line and moves one line on; at the end it returns nothing and stays, and end_reached says so |
| Pager.TextBox.Refill | dialog/textbox.c:425-459 | moving the buffer back keeps the position and leaves something in front of it, exactly if it is not at the beginning |
| Pager.TextBox.SkipNewline | dialog/textbox.c:422-466 | the step back from the start of a line finds the newline; the exit with an internal error is not taken |
| Pager.TextBox.SkipLines | dialog/textbox.c:468-518 | the loop goes back to the newline before the line wanted, or to the beginning |
| Pager.TextBox.BackLines | dialog/textbox.c:411-519 | lands on the start of the line n back, or at offset 0; begin_reached holds afterwards if and only if the offset is 0; never an internal error |
| Pager.TextBox.PrintLine | dialog/textbox.c:543-565 | one row shows the next line, scrolled |
| Pager.TextBox.PrintPage | dialog/textbox.c:524-538 | the window shows a page of lines, and page_length counts those that exist |
| Pager.TextBox.ForthAndBack | dialog/textbox.c:411-617 | m calls of get_line and back_lines(m) lead back to the same place if and only if at most the last call found the end of the file, or all began at its start |
| Pager.TextBox.Rewind | dialog/textbox.c:136-158 | to the first line |
| Pager.TextBox.Forward | dialog/textbox.c:169-191 | behind the last line; the seek relative to the end does not fail |
| Pager.TextBox.Restore | dialog/textbox.c:369-384 | back to a remembered position |
| PagerView.FindNext | dialog/textbox.c:353-357 | the first line from one on that contains the term |
| PagerView.FindPrevious | dialog/textbox.c:358-364 | the last line up to one that contains it |
| PagerView.OppositeKeys | dialog/textbox.c:201-281 | away from the ends, a line or page down and up again changes nothing; and exactly when up and down does |
| PagerView.SearchKeys | dialog/textbox.c:308-392 | a search forwards ends at the nearest line behind the top one that contains the term, backwards at the nearest before it, or where it started if there is none or no page in that direction; nothing else of the view changes but the term typed |
| PagerView.VerticalKeys | dialog/textbox.c:132-279 | what the window shows after each key that moves it up or down, in terms of the lines and of what it showed before |
| PagerView.SidewaysKeys | dialog/textbox.c:280-307 | scrolling right takes the first character off each row, left undoes it exactly away from the edge, and the start of the lines shows them whole |
| PagerKeys.PressHome | dialog/textbox.c:132-164 | the first page |
| PagerKeys.PressEnd | dialog/textbox.c:165-198 | the last page |
| PagerKeys.PressUp | dialog/textbox.c:199-235 | one line up, by scrolling the text window |
| PagerKeys.PressDown | dialog/textbox.c:247-266 | one line down, by scrolling it |
| PagerKeys.PressPreviousPage | dialog/textbox.c:236-246 | one page up |
| PagerKeys.PressNextPage | dialog/textbox.c:267-279 | one page down |
| PagerKeys.PressSideways | dialog/textbox.c:280-307 | scrolling sideways shows the same lines shifted |
| PagerKeys.ScanForward | dialog/textbox.c:353-357 | the loop of a forward search finds the first match |
| PagerKeys.ScanBackward | dialog/textbox.c:358-364 | the loop of a backward search finds the last match |
| PagerKeys.SearchFor | dialog/textbox.c:334-392 | the page that starts with the line found, or the page as it was |
| PagerKeys.PressFind | dialog/textbox.c:308-395 | the four search keys, with a term typed, given up or repeated |
| PagerKeys.Browse | dialog/textbox.c:109-400 | whatever the keys, the text window shows what a window on the plain lines of the file would, and neither an internal error nor a failed seek occurs |
| RcLine.BlanksDoNotMatter | dialog/rc.c:546-602 | whatever runs of blanks and tabs surround name, `=` and value, the line parses to that name and value |
| RcLine.SettingIsSpaced | dialog/rc.c:546-602 | and a line that parses to a name and a value is of that form |
| RcLine.LineKinds | dialog/rc.c:546-602 | a line is blank, a comment or a setting if and only if it has the form of one; any other is an error |
| RcLine.TrimEnd | dialog/rc.c:595-599 | trailing blanks are cut off in place |
| RcLine.FindValue | dialog/rc.c:571-593 | from the end of the name over the `=` to the value |
| RcLine.ParseLine | dialog/rc.c:546-602 | the in-place parser returns the kind of line, and pointers to name and value that now end there |
| RcAttr.ColorsDiffer | dialog/rc.c:495-499 | a colour name in any case is found under its own number |
| RcAttr.BlanksDoNotMatter | dialog/rc.c:451-530 | whatever runs of blanks and tabs surround the three parts of an attribute, in whatever case, it reads the same |
| RcAttr.ParseIff | dialog/rc.c:451-530 | texts of that form are accepted, with these values, and no others |
| RcAttr.RoundTrip | dialog/rc.c:423-530 | what attr_to_str writes str_to_attr reads |
| RcAttr.AttrToStr | dialog/rc.c:423-443 | the text of an attribute |
| RcAttr.NextColor | dialog/rc.c:470-507 | one turn of the loop over foreground and background |
| RcAttr.StrToAttr | dialog/rc.c:451-530 | the parser, on a copy it cuts up in place, accepts exactly the well formed attributes with their values |
| RcFile.NumberRoundTrip | dialog/rc.c:272-275 | atoi reads back what %d wrote, for every integer |
| RcFile.AtoiReads | dialog/rc.c:362-363 | a number is read whatever surrounds it: space, a sign, zeroes, and anything but a digit behind it |
| RcFile.ValueRoundTrip | dialog/rc.c:271-287 | every kind of value is read back from its text |
| RcFile.ReadIff | dialog/rc.c:359-403 | a setting is accepted with just the texts that stand for a value of its variable, and has that value then |
| RcFile.ParseJoin | dialog/rc.c:337-412 | a file is read line by line up to the first error; a rest that is too long for a line, or has no line end, is one |
| RcFile.LinesAndRest | dialog/rc.c:337-346 | every file consists of such lines and such a rest |
| RcFile.FirstError | dialog/rc.c:337-412 | the settings in front of the first line in error count, no others, and the result says whether there is one |
| RcFile.EntrySets | dialog/rc.c:269-290 | the three lines of an entry set its variable and no other |
| RcFile.CommentedSettings | dialog/rc.c:268-290 | in the file written each variable has its setting, behind its comment and a blank line |
| RcFile.FileRoundTrip | dialog/rc.c:245-412 | a file written from a table with distinct names parses to the same values, whatever the variables were before |
| RcFile.CreateRc | dialog/rc.c:245-293 | the file that is written |
| RcFile.Fgets | dialog/rc.c:337 | the next line, or as much as the buffer holds |
| RcFile.SetValue | dialog/rc.c:359-403 | storing a value of each kind, or refusing it |
| RcFile.ParseRc | dialog/rc.c:337-412 | the line loop: all settings in front of the first error, and the error |
| Words.DwordRoundTrip | kernel/debug.c:177-181 | the four bytes of a stored size are read back as it |

## Left out

- `capidtmf.c`: the G.711 and window tables themselves, tone frequencies and the reasons for the thresholds.
- `debug.c`: what the other callers put into their entries, trace masks, and the locks; each locked section is one step.
- `capifunc.c`: controller mapping, message buffers, the copy of a DATA_B3 payload in `sendf`, failed allocations, `vscapi` and MTPX.
- Sendf.Sendf: what a message does whose length passes 0xffff and wraps, what a format does that is both malformed and out of step, and, where the outcome is called undefined, what the code makes of memory outside the message.
- DtmfReceiver.EnabledTooEarly: what the receiver makes of memory behind the window table.
- LineInterconnect.Interconnect.AddCard: the rest of `diva_add_card`, which reads profiles and builds the PLCI table, is left out because the table does not depend on it.
- `di.c`: adapter memory accessors, stream mode (CMA and DMA), tracing, calls back into the driver from inside a callback, the saving and restoring of RNR in `isdn_rc`, the not-ready state that `pr_dpc` carries over indications, the older `scom` interface.
- XdiReceive.Receiver.Indicate: what an access behind the last buffer does is called undefined; buffers without memory, into which data is skipped, are left out; so is the length announced by stream mode.
- XdiAdapter.Adapter.AssignReq: linking of the entity table and the soft interrupt, which change nothing that the model sees.
- XdiState: that a reference is forgotten once its ASSIGN was answered; in the code it stays, and a later ASSIGN with the same reference takes precedence, as in the map.
- `textbox.c`: drawing, the cut of a row to the width of the window, the percentage shown, the mouse, and the dialogue that reads a search term; a search key comes with the term typed and whether it was entered.
- `rc.c`: finding the file by the environment, the table of variables itself, error messages, the sizes of the buffers a string is copied to.
- RcFile.Atoi: what `atoi` does on numbers outside 32 bits.
- The other parts of the repository, `cfglib.c`, `capi_man.c`, `capimain.c`, `dadapter.c` and the remaining dialog boxes: lookups, user interface and operating system glue, or built on interfaces outside the repository.
