# Verified models of libskybrush

This project models the parts of libskybrush that carry state machines, codecs or real
arithmetic, and proves what they are meant to guarantee. `dafny verify dfyconfig.toml` takes the whole
project (Dafny 4.11).

Each component has two layers. Imperative classes and loops follow the C and C++ code: the light
executor and its player, the byte buffer, the file parser, the polynomial object, the trajectory
builder, the trajectory and yaw players, the return-to-home plan. Their `ensures` clauses tie the new
state to functions on values. Lemmas then prove what those functions mean.

## Conventions

- Floats are `real`, times in the light player are milliseconds as `nat`, with clock skew factor 1.
  Integer widths are written out wherever they matter: `uint32` sums, `int16` fields, the wrap of a
  fade's length in `unsigned long`, the byte-wide fields of the formats.
- A square root is a parameter that is assumed to be one on non-negative numbers. The square root of a
  negative number gives a root that no comparison accepts (`Extrema.NaN`).
- Infinite times and durations are separate constructors (`Timeline.Infinite`, `RthPlans.Float`). The
  coordinates, and the times that a plan is evaluated at, are numbers.
- Sizes in the buffer are bounded by the largest `size_t` of a 64-bit machine. The trajectory builder's
  methods ask for less than 2^62 bytes, so that allocation never fails.
- A reader of a trajectory or yaw block takes a ghost value (the segments or deltas that the bytes read as)
  as its notion of a well-formed payload. For trajectories `TrajectoryFormat.ReadAllIff` shows that this is
  the same as "the segments end exactly at the end of the block"; for yaw blocks every block of whole deltas
  is well formed. Plans are evaluated for all bytes, malformed ones included (`RthPlans.Evaluate`).

## The components

**Lights.** `LightVm` gives the meaning of the bytecode as functions on values; `LightExecutor` and
`LoopStacks` are the classes that refine it. A structured program (`LightProgram.Prog`) plays exactly
its unrolling. The nominal run of a program (`LightSchedule.Nominal`) depends on the program alone; a
run with late steps follows it without drift. `LightSeek` proves that a seek shows what the nominal run
shows, and gives the exact condition under which seeks do not depend on history. `LightLiveness` shows
that seeks return for every target exactly when no cycle of the program takes no time, and that a
structured program finds room for its loops exactly when it nests at most four deep. `LightFade` proves
continuity and monotonicity of fades. `LightPicture` describes, without the machine, what a list of
commands shows at every instant, and proves that a seek in a structured program shows just that.

**Container and checksum.** The checksum table is compared entry by entry with eight steps of the
bit-serial division. Each step is invertible, so that any change within four consecutive bytes is
detected. Files are built byte by byte from the bodies of their blocks. The polynomial and the table are
those of section 8 of RFC 1952, with initial value 0 and without the final inversion. The parser is modelled
over a memory buffer.

**Trajectories.** `Bezier` proves that the coefficients computed by the double loop with factorials are
those of the Bezier curve (de Casteljau's form and Bernstein's form), and that the derivative is the
derivative. `Drawing`, `LineSplitting` and `BuilderRuns` prove what runs of builder calls write;
`TrajectoryBuilding` is the builder itself. `TrajectoryMotion` gives the position and velocity of the
motion and of each cached segment, `TrajectoryHistory` the exact conditions on control points and
durations under which a player's answers do not depend on what it was asked before, and
`TrajectoryPlayback` is the player; `RoundTrip` joins both ends, in seconds, `LinePlayback` bounds how far the
playback of a line of any duration is from that line, and `TrajectoryExample` gives a trajectory byte by byte.
`Extrema` and `BoundingBoxes` prove that
the bounding box contains every answer of a player, whatever the durations, and is as small as possible where
its ends are taken by segments that take time.

**Return-to-home plans and yaw control.** `RthPlans` proves what evaluation finds in every block,
`RthTrajectories` that the scale chosen up front makes every later write succeed, and `RthFlights` where the
vehicle then is, and when. `YawControl` is the exact-integer version of the segment player.

## Where the code departs from its purpose

Each of these is kept as the code has it. The lemma or contract named states exactly when the purpose is
met.

- The test for a full loop stack accepts one write too many (`LoopStacks.GuardOffByOne`). A structured
  program overflows the stack exactly when it nests deeper than four: `LightLiveness.AlwaysRoomIff`, with
  an instance in `LightLiveness.FiveLoopsOverflow`.
- A seek loops for ever in a program with a cycle that takes no time: `LightLiveness.SeeksReturnIff`, with an
  instance in `LightLiveness.JumpDeparts`.
- A seek executes one command due exactly at its target: `LightSeek.HistoryFreeIff`, with an instance in
  `LightLiveness.SeekDeparts`.
- A fade of no duration does not move the colour the next fade starts from: `LightFade.InstantFade`,
  `LightFade.InstantFadeDeparts`.
- The length of a fade that starts after its own end wraps around: `LightFade.LateFade`,
  `LightFade.LateFadeDeparts`. The player is always on time.
- A clock reset keeps the schedule exactly when it is executed on time: `LightSchedule.ClockResetOnTime`,
  `LightSchedule.ClockResetDeparts`.
- Growing a view of no bytes never ends: `Buffers.GrowthEndsIff`.
- Extending a buffer asks for the wrapped sum of size and extension: `Buffers.ExtensionCovered`,
  `Buffers.ExtensionDeparts`.
- The checksum loop counts its offset in 32 bits, so that in files of more than 2^32 + 9 bytes it passes over
  four more bytes and a change there is not noticed: `BinaryFile.ClearedOnce`, `BinaryFile.DamageRejected`,
  with an instance in `BinaryFile.LargeFileDeparts`.
- For more than four coefficients that are not negligible, the search for extrema reports success and
  leaves the result unset: `Extrema.GetExtrema`, with a segment in `BoundingBoxes.HighDegreeDeparts`.
- A line whose coordinates do not fit leaves an unfinished segment in the buffer
  (`TrajectoryBuilding.TrajectoryBuilder.AppendLine`, `TrajectoryBuilding.LineDeparts`), and a refused
  start point leaves the coordinates before the offending one written
  (`TrajectoryBuilding.TrajectoryBuilder.SetStartPosition`, `TrajectoryBuilding.StartDeparts`).
- A builder that is used again remembers its last position: `BuilderRuns.ReusedBuilderIff`,
  `BuilderRuns.ReusedBuilderDeparts`.
- The position may depend on what was asked before, because a segment of no duration is shown half way
  while it is cached: `TrajectoryHistory.PositionHistoryFreeIff` for all curves and
  `TrajectoryHistory.LinearHistoryFreeIff` for lines, with an instance in
  `TrajectoryHistory.InstantStepDeparts`. `RoundTrip.PlaysBackIff` says when this disturbs what a builder
  has drawn, and `RoundTrip.InstantLineDeparts` is a call that does.
- The velocity at a joint may depend on which of its segments is cached:
  `TrajectoryHistory.VelocityAtJointIff`, `TrajectoryHistory.VelocityHistoryFreeIff`, with an instance in
  `TrajectoryHistory.StopDeparts`.
- With durations of zero the yaw may depend on what was asked before: `YawControl.HistoryFreeIff`,
  `YawControl.ShowsProfileIff`, `YawControl.JumpDeparts`.
- A neck on an action that has none is drawn without a scale chosen for it, and may be refused:
  `RthTrajectories.TrajectoryFromEntry`, `RthTrajectories.NeckDeparts`. Evaluation returns no such entry.
- The comment on the varint parser calls its error an overflow only; in the code a number that is cut
  short is a parse error, and the parser follows the code: `Varint.TruncatedIff`, `Varint.NumberIff`.

## Model

| member | source | states |
|---|---|---|
| LightVm.ReadersAgree | src/lights/executor.cpp:275-288 | Wherever the library's 32-bit varint parser succeeds, the executor's reader yields the same number and stops at the same byte |
| LightVm.ReadersAtEnd | src/lights/bytecode_array.hpp:103-116 | Where the parser finds no terminator, the executor reads the number that it would read if an END byte followed the store, and its index stays at the end |
| LightVm.PyroMask | src/lights/executor.cpp:488-497 | A mask switches exactly the pyro channels it names, all of them on or all of them off |
| LightVm.ControlOpcodes | src/lights/executor.cpp:101-203 | The bytes of each command of the clock and of control flow, and what they mean; a duration counts 50ths of a second |
| LightVm.ColorOpcodes | src/lights/executor.cpp:101-203 | The bytes of each command that sets a colour or fades to one, for all colours and short durations |
| LoopStacks.LoopStack.Begin | src/lights/loop_stack.cpp:22-39 | Below the documented depth a new innermost loop is pushed and the others are untouched |
| LoopStacks.LoopStack.End | src/lights/loop_stack.cpp:41-62 | Infinite loops restart, a last round pops, other rounds count down by one and restart; only the innermost loop changes |
| LoopStacks.GuardOffByOne | src/lights/loop_stack.cpp:22-30 | The full-stack test and the array bound disagree exactly at the documented maximum of four open loops |
| LightExecutor.BytecodeStore.NextByte | src/lights/bytecode_array.hpp:103-116 | Past the end every byte is END and the position stays |
| LightExecutor.Transition.Step | src/lights/transition.h:214-227 | A fade is evaluated at its progress and is over exactly when the progress reaches one |
| LightExecutor.CommandExecutor.NextVarint | src/lights/executor.cpp:275-288 | The loop reads the groups up to the first byte without its top bit, or up to the end of the store |
| LightExecutor.CommandExecutor.ExecuteNextCommand | src/lights/executor.cpp:101-203 | One command changes program counter, loops and outputs as the value semantics says |
| LightExecutor.CommandExecutor.Step | src/lights/executor.cpp:331-366 | A step applies a pending clock reset, evaluates the fade, executes at most one due command and returns the next wakeup time |
| LightExecutor.CommandExecutor.RewindProgram | src/lights/executor.cpp:290-309 | Back to the first command, loops and outputs cleared, the clock to be set at the next step |
| LightExecutor.CommandExecutor.FadeColorOfLEDStrip | src/lights/executor.cpp:205-221 | The method starts the fade of the value semantics; that one shows, at every later instant, the weighted mean of the last settled colour and the operand, and ends at the operand (LightPicture.FadeShows) |
| LightProgram.DecodeInstr | src/lights/executor.cpp:101-203 | Every legal instruction is decoded back from its bytes, wherever it stands |
| LightProgram.PlaysUnrolled | src/lights/executor.cpp:460-481 | Under any open loops that leave room for its nesting, a structured program performs exactly the commands of its unrolling and returns the loop stack to what it was |
| LightProgram.ProgramPlaysUnrolled | src/lights/executor.cpp:101-203 | A structured program followed by END or by nothing performs its unrolled commands at the start times and with the outputs of the unrolled list, then ends, and no loop ever lacks a slot |
| LightProgram.LoopsAreUnrolled | src/lights/loop_stack.cpp:22-62 | The bytecode with loops and the bytecode with every loop written out leave the same trace |
| LightProgram.PlaysForever | src/lights/loop_stack.cpp:41-62 | A loop of count zero performs its body as many times as one likes and is then about to perform it again |
| LightSchedule.NoDrift | src/lights/executor.cpp:331-366 | For every sequence of step times, however late, position and consumed time depend only on the number of commands executed, and the wakeup time is the clock origin plus the nominal one |
| LightSchedule.NoDriftFromRewind | src/lights/executor.cpp:290-366 | After a rewind the run follows the nominal one, shifted by the time of the first step |
| LightSchedule.WakeupMonotone | src/lights/executor.cpp:69-79 | Until the program ends the wakeup time never decreases, clock resets or not |
| LightSchedule.TickReadyAgain | src/lights/executor.cpp:311-366 | On the machine's own schedule wakeup = origin + elapsed holds after every command, clock resets included |
| LightSchedule.ClockResetOnTime | src/lights/executor.cpp:311-318 | A clock reset keeps that equation exactly when it is executed on time |
| LightSchedule.ClockResetDeparts | src/lights/executor.cpp:311-318 | A reset executed 10 ms late: the next command is due at once, the clock says 10 ms later |
| LightSchedule.StartTimes | src/lights/executor.cpp:242-250 | Without deadlines the k-th command of an unrolled program starts after the summed durations before it |
| LightFade.FadeMonotone | src/lights/transition.h:159-178 | During a fade every channel moves in one direction from the start to the end colour, begins at the one and reaches the other exactly |
| LightFade.MixMonotone | src/lights/colors.c:97-107 | One interpolated and clamped channel is monotone in the ratio |
| LightFade.SettledIsContinuous | src/lights/executor.cpp:325-366 | When a command is about to run no fade is active and the shown colour is where the last fade led and the next starts |
| LightFade.RunContinuous | src/lights/executor.cpp:205-221 | Every run whose fades take time stays continuous after every command: an active fade ends exactly at the next wakeup |
| LightFade.InstantFade | src/lights/executor.cpp:205-221 | A fade of no duration keeps the run continuous exactly if there was nothing to fade |
| LightFade.InstantFadeDeparts | src/lights/executor.cpp:205-221 | A fade to white in no time followed by a fade to white: white is shown, and then the second begins at black |
| LightFade.LateFade | src/lights/executor.cpp:205-221 | A late fade ends at the next wakeup exactly if that time has not passed |
| LightFade.LateFadeDeparts | src/lights/executor.cpp:205-221 | A fade of 20 ms executed 100 ms late is given the range of the clock less 80 ms |
| LightPicture.FadeShows | src/lights/executor.cpp:205-221 | A fade to c of 0 < d < ULONG_MODULUS ms, executed on time in any settled state, shows the reference picture at every later instant, and c itself from the next wakeup on |
| LightPicture.HalfWay | src/lights/colors.c:97-107 | Half way through a fade each channel of the reference picture is the mean of its ends, rounded down |
| LightPicture.CommandShows | src/lights/executor.cpp:205-261 | Each command, executed on time: when the next one starts (a wait: the later of now and clock origin plus deadline), where the clock then has its origin, and what is shown at every later instant |
| LightPicture.CommandSwitches | src/lights/executor.cpp:488-503 | Which of the seven pyro channels each command leaves on, from which were on before |
| LightPicture.ListShows | src/lights/executor.cpp:101-221 | Command k of an unrolled list starts when the picture says, shows the picture at every later instant, and leaves the picture's pyro channels on |
| LightPicture.ListEnds | src/lights/executor.cpp:101-221 | At the end of the list time, colour and pyro channels are those of the picture |
| LightPicture.SeekShowsPicture | src/lights/bytecode_player.h:130-162 | From the bytes to the colour: between the starts of two consecutive commands of a structured program's unrolling, a seek shows the colour and the pyro channels of the picture, and the start of the next command as the next timestamp, whatever was sought before |
| LightPicture.SeekAfterTheEnd | src/lights/bytecode_player.h:130-162 | After the last command is over every seek shows the colour and pyro channels that the list leads to, and that the program has ended; the next timestamp is the target and 60 s |
| LightPicture.RedFadeShows | src/lights/bytecode_player.h:130-162 | Seven bytes, a fade from black to red in 1000 ms and then a rest: half red at 500 ms, red at 1500 ms, whatever was sought before |
| LightPicture.JumpGoes | src/lights/executor.cpp:447-458 | A jump goes on at its address with no loop open; one to 2^31 - 1 or beyond ends the program |
| LightPicture.StrayLoopEndPasses | src/lights/loop_stack.cpp:41-62 | The end of a loop that was never begun is passed over |
| LightPicture.TriggeredJumpPasses | src/lights/executor.cpp:585-636 | Without a signal source a triggered jump that waits for an edge is passed over, or ends the program if its address is too large |
| LightPicture.OtherOpcodesEnd | src/lights/executor.cpp:101-203 | The END command and every byte that is no command end the program |
| LightSeek.LapTracks | src/lights/bytecode_player.h:138-151 | A turn of the seek loop lands on the next due time and its proposal is never too small: the correcting branch is unreachable |
| LightSeek.SeekLands | src/lights/bytecode_player.h:130-156 | In a program whose time goes on, the loop ends from any state that seeks can reach, with the target between the player's two timestamps |
| LightSeek.SeekAnswer | src/lights/bytecode_player.h:130-162 | In a program whose time goes on, where no zero-duration command is due, a seek from any reachable state shows what the program itself shows at that time |
| LightSeek.HistoryFreeIff | src/lights/bytecode_player.h:130-162 | For every time exactly one command is the one due; seeks to that time give colour, pyro channels, ended flag and next timestamp of a fresh player's first seek, whatever was sought before, if and only if that command is not a zero-duration one due at that very time |
| LightLiveness.LiveIff | src/lights/bytecode_player.h:138-151 | The program's time goes past every instant exactly when no cycle of places takes no time |
| LightLiveness.SeeksReturnIffLive | src/lights/bytecode_player.h:130-156 | Every seek of a new player returns if and only if the program's time goes past every instant |
| LightLiveness.SeeksReturnIff | src/lights/bytecode_player.h:130-156 | The seek loop ends for every target if and only if no cycle of the program takes no time |
| LightLiveness.LiveReturns | src/lights/bytecode_player.h:130-156 | In a program whose time goes on every seek returns, from any state that seeks can reach |
| LightLiveness.JumpDeparts | src/lights/bytecode_player.h:138-151 | The two bytes of a jump to itself: a cycle that takes no time, always room in the loop stack, and a seek that does not return |
| LightLiveness.SeekDeparts | src/lights/bytecode_player.h:130-162 | A program, black for no time and then white, whose answer at time zero depends on the seeks before |
| LightLiveness.StructuredIsLive | src/lights/executor.cpp:460-481 | In structured programs nested at most four deep every seek returns and every loop finds a free slot |
| LightLiveness.AlwaysRoomIff | src/lights/loop_stack.cpp:22-39 | A structured program finds a free slot for every loop that it opens if and only if it nests at most four deep |
| LightLiveness.Overflows | src/lights/loop_stack.cpp:22-39 | Under any open loops and in any surrounding code, a structured program that nests too deep comes to a loop command with all slots taken |
| LightLiveness.FiveLoopsOverflow | src/lights/loop_stack.cpp:22-39 | The bytes of the smallest program that overflows: five loops, one inside the other |
| LightPlayback.BytecodePlayer.Seek | src/lights/bytecode_player.h:130-162 | The loop computes the landing of the value semantics, ends for every target, shows the program's state at the target and returns a next timestamp that is not before it |
| Varint.ParseEncode | src/parsing.c:97-145 | Round trip: every 32-bit number is parsed back from its encoding, at any offset and whatever follows |
| Varint.TruncatedIff | src/parsing.c:104-108 | A parse error is reported exactly when no byte ends the number |
| Varint.NumberIff | src/parsing.c:113-128 | A parse succeeds exactly when the number ends within five bytes and is below 2^32; the offset is left just past its last byte |
| Varint.ParseVaruint32 | src/parsing.c:97-145 | The accumulating loop agrees with the specification for every buffer and offset, and its bit-count break is unreachable |
| Varint.SkipRest | src/parsing.c:131-145 | The skipping loop of an overflow ends just past the terminator, or reports that there is none |
| Varint.ExampleNumber | test/test_parsing.c:184-240 | 65831 and its bytes, a number too large for 32 bits, and one that is cut short |
| Parsing.ReadWrittenWords | src/parsing.c:147-177 | Signed 16-bit values that were written are read back, wherever they stand |
| Parsing.WrittenRead | src/parsing.c:22-56 | What is read is what would have been written |
| Parsing.WriteInt16 | src/parsing.c:147-177 | Two bytes are written in place, everything else stays |
| Parsing.ExampleWords | test/test_parsing.c:34-91 | Three values and their bytes: low bytes first, negative values in two's complement |
| Buffers.Buffer.Realloc | src/buffer.c:318-352 | The storage gets the new capacity, and its contents are those before, cut at the new capacity; a view refuses |
| Buffers.Buffer.EnsureFreeSpace | src/buffer.c:289-316 | Room is made without changing the contents; it fails, leaving the buffer alone, exactly when the size would pass the limit or a view would grow |
| Buffers.Buffer.AppendBytes | src/buffer.c:238-252 | The contents are extended by exactly the supplied bytes, or unchanged on failure |
| Buffers.Buffer.Concat | src/buffer.c:255-259 | The contents are extended by another buffer's |
| Buffers.Buffer.ExtendWithZeros | src/buffer.c:268-274 | The contents are extended by zeros, over stale storage too, unless the wrapped sum of the sizes is refused; where that sum wraps and is not refused, the call is outside the model |
| Buffers.Buffer.Resize | src/buffer.c:171-194 | Kept bytes are preserved and new ones are zero; a view keeps its size |
| Buffers.Buffer.Prune | src/buffer.c:200-204 | Unused capacity is given back and the contents stay |
| Buffers.GrowthEndsIff | src/buffer.c:305-313 | The capacity-doubling loop ends exactly when there is something to double |
| Buffers.ExtensionCovered | src/buffer.c:268-303 | What EnsureFreeSpace has provided for the wrapped sum of size and extension is room for the extension exactly when the sum does not wrap |
| Buffers.ExtensionDeparts | src/buffer.c:268-303 | One byte in use and an extension by the largest size: no room is asked for |
| CrcTable.EntryIsShift8 | src/crc32.c:48-107 | Each of the 256 table entries is eight steps of the reflected polynomial division |
| Crc32.UpdateIsBitSerial | src/crc32.c:109-115 | For every buffer and start value the table-driven checksum is the bit-serial division |
| Crc32.ShiftInvertible | src/crc32.c:109-115 | Each step of the division is invertible |
| Crc32.UpdateInjective | src/crc32.c:109-115 | Two different checksums stay different, whatever follows |
| Crc32.WindowBack | src/crc32.c:109-115 | Runs over windows of at most four bytes that end alike from the same start had the same bytes |
| Crc32.BurstDetected | src/crc32.c:109-115 | A same-length change within four consecutive bytes always changes the checksum |
| Crc32.KnownChecksum | test/test_ap_crc32.c:34-41 | The checksum of the eleven bytes of a known string |
| Crc32.ApCrc32Update | src/crc32.c:109-115 | The loop computes the checksum of the first bytes of the buffer |
| BinaryFile.IterationVisits | src/formats/binary.c:235-272 | A block is stored as its type, the low and the high byte of the length of its body, and the body. Stepping through a file built from such blocks visits exactly these, in order, and ends after the last |
| BinaryFile.ScanFindsFirst | src/formats/binary.c:137-156 | In a file built from such blocks the search finds the leftmost block of the type, or reports that there is none |
| BinaryFile.BuiltFileOpens | src/formats/binary.c:160-233 | A file with a proper header, built from such blocks, opens, and the header at its first block is that of the first block, or of none |
| BinaryFile.PreambleRead | src/formats/binary.c:160-233 | The first block starts at offset 5 in version 1, at 6 in version 2 without a checksum and at 10 in version 2 with one, for every file with such a header |
| BinaryFile.PreambleRefused | src/formats/binary.c:160-233 | Every file without such a header is refused |
| BinaryFile.VersionOneFile | src/formats/binary.c:137-233 | A file of version 1, byte by byte: it opens, its first block is current, and the search for any type finds the first block of that type with its offset |
| BinaryFile.SecondBlockFound | src/formats/binary.c:137-156 | Thirteen bytes that hold a block of type 1 and one of type 2, which is found |
| BinaryFile.ChecksumIsRemainder | src/formats/binary.c:274-316 | Up to 2^32 + 9 bytes the checksum is the bit-serial remainder, from zero, of the file with zeros in the checksum field |
| BinaryFile.DamageRejected | src/formats/binary.c:196-227 | A checksummed file with a change within four consecutive bytes from offset ten on is rejected as corrupted if and only if the checksum looks at a changed byte; it looks at all of them in files of up to 2^32 + 9 bytes |
| BinaryFile.ClearedOnce | src/formats/binary.c:274-316 | Because the loop counts its offset in 32 bits, the checksum passes over its own field alone exactly in files of up to 2^32 + 9 bytes |
| BinaryFile.LargeFileDeparts | src/formats/binary.c:274-316 | A file of 2^32 + 10 bytes and one that differs from it in one byte behind offset 2^32 both open |
| BinaryFile.Parser.ReadCurrentBlock | src/formats/binary.c:96-110 | The body is read and the block header stays current, so that reading never disturbs the iteration |
| BinaryFile.Parser.SeekToNextBlock | src/formats/binary.c:123-131 | The next header is the one behind the body, wherever the read position was |
| BinaryFile.Parser.FindFirstBlockByType | src/formats/binary.c:137-156 | From any parser state the search starts at the first block and stops as the scan of the bytes does, at least three bytes of progress a step; on files built from blocks that is the leftmost block of the type (BinaryFile.VersionOneFile) |
| BinaryFile.Parser.GetCrc32 | src/formats/binary.c:274-316 | The checksum in chunks of 256 bytes is that of the whole file with the bytes zeroed that the 32-bit offset counter takes for the checksum field; up to 2^32 + 9 bytes these are the field; the read position is restored |
| BinaryFile.Parser.InitCommon | src/formats/binary.c:160-233 | For every size of file, opening succeeds or fails as the specification on bytes says, and leaves the first block current |
| Bezier.CoefsEvalToCurve | src/trajectory/poly.c:81-91 | For every list of control points the computed coefficients evaluate to the curve |
| Bezier.CurveIsBernstein | src/trajectory/poly.c:69-95 | The curve by repeated interpolation is the Bernstein form |
| Bezier.CurveEnds | src/trajectory/poly.c:69-95 | The curve begins at the first control point and ends at the last |
| Bezier.CurveInHull | src/trajectory/poly.c:69-95 | On [0, 1] the curve stays within the least and the greatest control point |
| Bezier.EvalStretched | src/trajectory/poly.c:293-304 | Stretching substitutes the scaled time in the polynomial |
| Bezier.DerivIsSlope | src/trajectory/poly.c:207-219 | The difference quotient is a polynomial whose value on the diagonal is the derivative that the library takes |
| Bezier.Hodograph | src/trajectory/poly.c:207-219 | The derivative that the library computes of a curve of degree n is n times the curve of the differences of its control points |
| Polynomials.FacsCorrect | src/trajectory/poly.c:67 | The table holds the factorials |
| Polynomials.BezierCoefsEval | src/trajectory/poly.c:69-119 | For one to eight control points and any duration but zero, Horner's rule at t gives the curve at t over the duration |
| Polynomials.Poly.MakeBezier | src/trajectory/poly.c:69-95 | The double loop and the stretch leave the coefficients of the curve through the given control points in the given duration; one control point gives a constant for any duration |
| Polynomials.Poly.MakeLinear | src/trajectory/poly.c:54-65 | A line through both values, or their mean for a vanishing duration |
| Polynomials.Poly.EvalAt | src/trajectory/poly.c:109-119 | Horner's loop evaluates the polynomial |
| Polynomials.Poly.Differentiate | src/trajectory/poly.c:207-219 | The coefficients are rewritten in place by those of the derivative |
| Polynomials.Poly.Stretch | src/trajectory/poly.c:293-304 | The coefficients are rewritten in place by those of the stretched polynomial |
| Extrema.RootsComplete | src/trajectory/poly.c:238-358 | Where the comparisons with zero are exact, the solver reports all real roots of a polynomial of degree at most two and nothing else |
| Extrema.Solve | src/trajectory/poly.c:238-291 | Negligible leading coefficients are cut, degrees up to two solved, higher ones refused |
| Extrema.EndsAndRoots | src/trajectory/poly.c:170-200 | An interval that holds the values at both ends and at the roots of the slope in [0, 1] holds the whole cubic piece |
| Extrema.GetExtrema | src/trajectory/poly.c:138-205 | Where the comparisons with zero are exact, the result is the smallest interval that holds the polynomial on [0, 1]; it is left unset, with success, when more than four coefficients are not negligible |
| Extrema.IntegersClean | src/trajectory/poly.c:33 | Integer coefficients are never mistaken for zero, so that every comparison of the search is exact |
| TrajectoryFormat.ReadAllIff | src/trajectory/trajectory.c:732-900 | Bytes read as exactly these segments if and only if they are the encoding of exactly these segments |
| TrajectoryFormat.ReadEncoded | src/trajectory/trajectory.c:770-881 | A segment with its formats, duration and control values is read back, wherever it stands |
| TrajectoryFormat.EncodedRead | src/trajectory/trajectory.c:770-881 | Every segment that is read would be written as the bytes it was read from |
| Drawing.QuantisedClose | src/trajectory/builder.c:217-239 | A quantised coordinate is less than one unit of the scale below the requested one; a quantised yaw agrees modulo whole turns to less than a tenth of a degree |
| Drawing.LinesStorable | src/trajectory/builder.c:110-164 | A line is accepted exactly when all its segments can be stored |
| Drawing.AfterLines | src/trajectory/builder.c:110-164 | Playback of a line goes from one quantised point exactly to the next, whatever coordinates were omitted |
| Drawing.LineDurations | src/trajectory/builder.c:114-128 | Splitting conserves the duration and makes segments of 30000 to 60000 ms |
| Drawing.HoldCost | src/trajectory/builder.c:175-188 | A hold of d ms makes exactly ceil(d / 60000) segments of three bytes each that last d ms together |
| LineSplitting.LegsPunctual | src/trajectory/builder.c:114-128 | After k halvings a via point is never late and at most k/2 ms early |
| LineSplitting.LineKeepsTime | src/trajectory/builder.c:110-164 | A line is written as legs between points on the straight line with these times; a 32-bit duration is halved at most 17 times, and the last leg is exactly on time |
| LineSplitting.LinesFollowLegs | src/trajectory/builder.c:110-164 | The segments written are those of the legs |
| BuilderRuns.ApplyFaithful | src/trajectory/builder.c:82-188 | Every accepted call keeps playback at the quantised last position and adds exactly its own duration |
| BuilderRuns.RunFaithful | src/trajectory/builder.c:82-188 | Every run of accepted calls does so, and lasts as long as its calls together |
| BuilderRuns.PlaybackOfRun | src/trajectory/builder.c:82-188 | At the time when the first i calls are over, playback of the finished bytes is at the quantised position given by then, for every i from which on no call sets the start again (the start call included): no error accumulates |
| BuilderRuns.ReadBack | src/trajectory/trajectory.c:477-494 | Header and segments of the finished bytes are read as they were written |
| BuilderRuns.AppliedBytes | src/trajectory/builder.c:82-188 | What each accepted call does to the bytes |
| BuilderRuns.ReusedBuilderIff | src/trajectory/builder.c:198-213 | A builder that is used again draws faithfully exactly when the position it was left at is quantised to the origin |
| BuilderRuns.ReusedBuilderDeparts | src/trajectory/builder.c:206-212 | A concrete position for which it does not |
| TrajectoryBuilding.TrajectoryBuilder.Create | src/trajectory/builder.c:46-65 | Scales from 1 to 127 are accepted, and the bytes are those of an empty trajectory |
| TrajectoryBuilding.TrajectoryBuilder.SetStartPosition | src/trajectory/builder.c:82-101 | The start is written unless a segment was or a coordinate does not fit; in the latter case exactly the coordinates before it are written |
| TrajectoryBuilding.StartDeparts | src/trajectory/builder.c:82-101 | A start that scale 1 refuses after it has written the first coordinate |
| TrajectoryBuilding.TrajectoryBuilder.AppendSegment | src/trajectory/builder.c:130-163 | The segment's encoding is appended in place; on failure eleven bytes of an unfinished one stay behind and the remembered position does not change |
| TrajectoryBuilding.TrajectoryBuilder.AppendLine | src/trajectory/builder.c:110-164 | The encodings of all halves are appended exactly when all can be stored; on failure the buffer has grown nevertheless |
| TrajectoryBuilding.LineDeparts | src/trajectory/builder.c:215-227 | A line that scale 1 refuses, and the longest of its direction that it accepts |
| TrajectoryBuilding.TrajectoryBuilder.HoldPositionFor | src/trajectory/builder.c:175-188 | A hold always succeeds, and appends the encodings of its segments |
| TrajectoryBuilding.TrajectoryBuilder.WriteAngle | src/trajectory/builder.c:229-239 | The angle is stored in tenths of degrees from 0 to 3599 |
| TrajectoryBuilding.TrajectoryBuilder.Perform | src/trajectory/builder.c:82-188 | A builder that stands for a sketch stands, after an accepted call, for the next sketch |
| TrajectoryBuilding.TrajectoryBuilder.Finish | src/trajectory/builder.c:198-213 | The bytes are handed over, and only the header byte and the last position stay |
| TrajectoryExample.CallsDraw | test/test_trajectory_builder.c:91-182 | A start and four lines, and the segments that they draw |
| TrajectoryExample.StoredBytes | test/test_trajectory_builder.c:91-182 | The bytes of this trajectory, and that they read as these segments |
| TrajectoryExample.CurveBytes | src/trajectory/trajectory.c:770-796 | Header, duration and length of a segment with three control values on one axis and seven on another |
| Timeline.LandContains | src/trajectory/trajectory.c:689-730 | From any cached piece the seek loop ends at a piece that contains the time |
| Timeline.AgreeAcross | src/trajectory/trajectory.c:689-730 | The pieces that contain a time are consecutive: if neighbours agree, all of them do |
| Timeline.NeighboursOnly | src/trajectory/trajectory.c:689-730 | With positive durations only two neighbours can contain the same time, and only at their joint |
| TrajectoryMotion.CoefficientsAreCurve | src/trajectory/trajectory.c:798-803 | A decoded segment's polynomial is its Bezier curve, from the point before it to its last control point |
| TrajectoryMotion.SegmentShowsCurve | src/trajectory/trajectory.c:609-620 | So many milliseconds after the durations before it, asked for in seconds, a segment that takes time contains the time and shows the point of its curve at that fraction of its duration |
| TrajectoryMotion.AtItsStart | src/trajectory/trajectory.c:544-553 | At its start a segment that takes time gives the position where the one before it ends |
| TrajectoryMotion.MotionIsShown | src/trajectory/trajectory.c:609-620 | For any durations, zero included, the motion's position is what some piece that contains the time shows |
| TrajectoryMotion.VelocityIsDerivative | src/trajectory/trajectory.c:883-895 | The velocity is the derivative of the position by time |
| TrajectoryMotion.AccelerationIsDerivative | src/trajectory/trajectory.c:883-895 | The acceleration is the derivative of the velocity by time |
| TrajectoryHistory.PositionHistoryFreeIff | src/trajectory/trajectory.c:609-620 | For any durations and degrees: the position never depends on what was asked before if and only if each segment begins to be seen where the one before was last seen, a segment of no duration being seen at the middle of its curve |
| TrajectoryHistory.ShowsMotionIff | src/trajectory/trajectory.c:609-620 | From every cached segment, at every time, the position is that of the motion if and only if the joints meet in this way |
| TrajectoryHistory.LinearHistoryFreeIff | src/trajectory/trajectory.c:609-620 | For segments of at most one control value on the axis, all that the builder writes: the position never depends on history if and only if no segment of no duration changes the axis |
| TrajectoryHistory.PositiveMeet | src/trajectory/trajectory.c:544-553 | With positive durations the joints always meet: the position is continuous |
| TrajectoryHistory.PieceIsMotion | src/trajectory/trajectory.c:609-620 | Where the joints meet, the polynomial of any segment that contains the time gives the position of the motion |
| TrajectoryHistory.InstantStepDeparts | src/trajectory/trajectory.c:609-620 | A step of 100 units in no time: its position depends on what was asked before |
| TrajectoryHistory.CoefficientsSpeed | src/trajectory/trajectory.c:883-895 | The derivative of a decoded segment is its degree times the curve of the legs between its control points |
| TrajectoryHistory.VelocityAtJointIff | src/trajectory/trajectory.c:626-637 | At a joint of two segments that take time the velocity is independent of history if and only if degree times last leg over duration on the left equals degree times first leg over duration on the right |
| TrajectoryHistory.VelocityHistoryFreeIff | src/trajectory/trajectory.c:626-637 | For any durations and degrees: the velocity never depends on history if and only if this holds at every joint, a segment of no duration having the derivative at its middle |
| TrajectoryHistory.VelocityOffJoints | src/trajectory/trajectory.c:626-637 | Off the joints the velocity is independent of history |
| TrajectoryHistory.BothVelocitiesOccur | src/trajectory/trajectory.c:689-730 | At a joint a new player gives the velocity with which the left segment ends, and one that has the right segment cached that with which it begins |
| TrajectoryHistory.StopDeparts | src/trajectory/trajectory.c:626-637 | A move and then a rest: the velocity at the stop depends on what was asked before |
| TrajectoryPlayback.Trajectory.InitFromBytes | src/trajectory/trajectory.c:477-494 | Scale, yaw flag and start point are read from the header |
| TrajectoryPlayback.ParseAngle | src/trajectory/trajectory.c:496-505 | The truncating remainder and its correction give an angle from 0 to 359.9 degrees |
| TrajectoryPlayback.ParseAxis | src/trajectory/trajectory.c:798-803 | The loop reads the control values of an axis and makes the polynomial of its curve |
| TrajectoryPlayback.ParseSegment | src/trajectory/trajectory.c:770-881 | One segment is decoded: duration, four polynomials, and the offset behind it |
| TrajectoryPlayback.DecodePiece | src/trajectory/trajectory.c:732-900 | The current segment with its times, position, velocity and acceleration, or the hold after the end |
| TrajectoryPlayback.Player.BuildNextSegment | src/trajectory/trajectory.c:544-553 | The next segment starts at the end of the current one, in time, in the buffer and in space |
| TrajectoryPlayback.Player.SeekToTime | src/trajectory/trajectory.c:689-730 | The loop ends and lands on the piece reached from the cached one, with the relative time in it |
| TrajectoryPlayback.Player.GetPositionAt | src/trajectory/trajectory.c:609-620 | The position is what the piece that the seek lands on shows; where the joints meet it is that of the motion, whatever was asked before. What this is at a time in seconds is stated by TrajectoryMotion.SegmentShowsCurve and RoundTrip.LinePlaysStraight |
| TrajectoryPlayback.Player.GetVelocityAt | src/trajectory/trajectory.c:626-637 | The velocity polynomial of the piece that the seek lands on, at the relative time |
| TrajectoryPlayback.Player.GetAccelerationAt | src/trajectory/trajectory.c:643-654 | The acceleration of the piece that the seek lands on, at the relative time |
| TrajectoryPlayback.Player.GetTotalDurationMsec | src/trajectory/trajectory.c:659-676 | The sum of all durations |
| RoundTrip.BuiltTrajectoryPlays | src/trajectory/builder.c:198-213 | A player of the finished bytes, whatever segment it has cached, asked for the sum of the first i calls' milliseconds divided by 1000, in seconds, answers with the quantised position given by then, from the last start call on, on every axis that no line call of no duration moves |
| RoundTrip.PlaysBackIff | src/trajectory/builder.c:82-213 | For every accepted run of calls: these answers are right for every i from the last start call on and every cached segment if and only if no line call of no duration has a target that is quantised differently, on the axis, from the position before it |
| RoundTrip.InstantLinesMove | src/trajectory/builder.c:110-164 | This condition on the calls is the condition on the written segments that no segment of no duration changes the axis |
| RoundTrip.InstantLineDeparts | src/trajectory/builder.c:110-164 | One line call of 100 units in no time, which is not played back |
| RoundTrip.CallsThatTakeTime | src/trajectory/builder.c:82-188 | Where all line calls take time, all these answers are right |
| RoundTrip.LinePlaysStraight | src/trajectory/builder.c:110-164 | A line call of at most 60 s shows, at the fraction u of its time, in seconds after the calls before it, (1 - u) of its quantised start and u of its quantised target, whatever segment is cached |
| RoundTrip.HoldPlaysStill | src/trajectory/builder.c:167-188 | During a hold, however long, the quantised position before it is shown |
| RoundTrip.HalfOfALine | src/trajectory/builder.c:110-164 | A line to x = 100 in ten seconds, asked after five: 50 |
| LinePlayback.LegPlaysStraight | src/trajectory/builder.c:110-164 | A line call of any duration is cut into legs; during each the shown value goes evenly from one quantised via point to the next, in seconds, whatever segment is cached |
| LinePlayback.LinePlaysClose | src/trajectory/builder.c:110-164 | A line call of any duration, asked for at any time of it: each shown coordinate is, up to less than one unit of the scale downwards, on the line that was asked for, at a place that is never behind a steady motion and at most 8.5 ms ahead, however often the line was cut |
| RoundTrip.BuiltTrajectoryLasts | src/trajectory/trajectory.c:659-676 | A built trajectory lasts as long as its calls together and can be played |
| RoundTrip.PositionAtJoint | src/trajectory/trajectory.c:609-620 | For lines of which none moves the axis in no time, the motion at a joint is where the segments before it lead to |
| BoundingBoxes.CoefsAreInt | src/trajectory/poly.c:84-91 | Integer control points give integer coefficients |
| BoundingBoxes.PiecesAreClean | src/trajectory/trajectory.c:507-510 | The polynomials of a decoded trajectory never deceive the comparisons with zero |
| BoundingBoxes.HullBounds | src/trajectory/trajectory.c:263-304 | For any durations, zero included, the hull of all segments contains every answer of a player, from every cached segment, and the motion, at every time, the end of time included |
| BoundingBoxes.HullReached | src/trajectory/trajectory.c:263-304 | Each end of the hull that a segment takes that takes time is shown at some time, and where the joints meet is the position at that time: with positive durations the hull is as small as possible |
| BoundingBoxes.GetAxisAlignedBoundingBox | src/trajectory/trajectory.c:263-304 | For segments of degree at most three and any durations the box is the hull of all segments, which contains every answer of a player and the motion at every time |
| BoundingBoxes.HighDegreeDeparts | src/trajectory/poly.c:138-205 | A stored segment of degree seven for which the search for extrema leaves its result unset |
| YawControl.SetpointIsProfile | src/yaw_control/yaw_control.c:349-358 | Where no delta changes the yaw in no time, the formula of any setpoint that contains the time agrees with the piecewise-linear interpolation of offset and prefix sums |
| YawControl.SameFromAnySetpoint | src/yaw_control/yaw_control.c:417-458 | Where no delta changes the yaw in no time, the yaw at a time is that of the profile, whatever setpoint is cached |
| YawControl.ShowsProfileIff | src/yaw_control/yaw_control.c:417-458 | From every cached setpoint, at every time, the yaw is that of the profile if and only if no delta changes the yaw in no time |
| YawControl.StaysAtTheEnd | src/yaw_control/yaw_control.c:480-491 | Where no delta changes the yaw in no time, the yaw after the last change is the offset and all changes, for ever |
| YawControl.DeltaPlaysEvenly | src/yaw_control/yaw_control.c:460-508 | The fraction u of the milliseconds of a delta, in seconds after the deltas before it, has made the fraction u of its change, whatever setpoint is cached |
| YawControl.QuarterTurn | src/yaw_control/yaw_control.c:349-358 | A quarter turn from ten degrees in two seconds, asked after one second and after the end |
| YawControl.HistoryFreeIff | src/yaw_control/yaw_control.c:417-458 | The yaw is independent of what was asked before exactly when every delta of duration zero has change zero |
| YawControl.JumpDeparts | src/yaw_control/yaw_control.c:417-458 | One degree in no time: half of it or all of it at time zero, depending on the cached setpoint |
| YawControl.YawBounded | src/yaw_control/yaw_control.c:499-503 | The sums of changes of a whole block stay far within 32 bits |
| YawControl.EncodedReads | src/yaw_control/yaw_control.c:243-258 | An encoded block is read as the offset and the deltas that it was made of, whatever the unused bits of its first byte are |
| YawControl.ReadEncodes | src/yaw_control/yaw_control.c:460-501 | Every block of whole deltas is the encoding of what is read from it, apart from those bits |
| YawControl.DeltaAt | src/yaw_control/yaw_control.c:493-501 | Delta k is read back from its place in the block |
| YawControl.ExampleBlock | src/yaw_control/yaw_control.c:243-258 | The eleven bytes of a block of two deltas |
| YawControl.Player.SeekToTime | src/yaw_control/yaw_control.c:417-458 | The loop ends and lands on the setpoint reached from the cached one, with the relative time in it |
| YawControl.Player.BuildCurrentSetpoint | src/yaw_control/yaw_control.c:460-508 | The setpoint at an offset with its times and yaws, or the hold after the end |
| YawControl.Player.GetYawAt | src/yaw_control/yaw_control.c:349-358 | The yaw, in degrees, is what the setpoint that the seek lands on gives; where no delta changes the yaw in no time it is that of the profile, whatever was asked before. What this is at a time in seconds is stated by YawControl.DeltaPlaysEvenly |
| YawControl.Player.GetTotalDurationMsec | src/yaw_control/yaw_control.c:388-404 | The sum of all durations |
| RthPlans.NextResolves | src/rth_plan/rth_plan.c:317-415 | Carrying values from entry to entry gives each entry the action of the latest explicit one and its own duration and delays |
| RthPlans.WalkFinds | src/rth_plan/rth_plan.c:300-428 | The first entry whose cumulative time is not before the query is chosen, else the last one; an unusable entry is an overflow exactly when the walk gets to it |
| RthPlans.WalkCases | src/rth_plan/rth_plan.c:300-428 | Every walk through a table stops in one of these ways |
| RthPlans.Plan.GetNumEntries | src/rth_plan/rth_plan.c:240-244 | For every block the announced number of entries, or none for a block that is too short |
| RthPlans.Plan.GetPoint | src/rth_plan/rth_plan.c:264-278 | For every block and index the scaled point, or an error for an index that is too large |
| RthPlans.Plan.ParseDuration | src/rth_plan/rth_plan.c:596-607 | At any offset of any block a number of at most 16777216 is read, a larger one is an overflow, and one that is cut short a parse error |
| RthPlans.Plan.ParseEntry | src/rth_plan/rth_plan.c:317-407 | At any offset of any block one entry is decoded, its time checked for wrap-around and its durations for the limit, with the first error that occurs; reserved flag bits are ignored |
| RthPlans.Plan.EvaluateAt | src/rth_plan/rth_plan.c:300-428 | For every block: the entry found, or the first error on the way, as the value semantics on bytes says; entries behind the one that is found do not matter. What the entry's fields are is stated by RthPlans.AnswerIsStored and RthPlans.NegativeTimeLands |
| RthPlans.ReadEntryLimited | src/rth_plan/rth_plan.c:317-407 | With the limits of the evaluation a well-formed entry is read as it is, or it is an overflow, exactly if it cannot be used |
| RthPlans.SearchIsWalk | src/rth_plan/rth_plan.c:313-415 | Where the bytes read as entries, the search over the bytes is the walk over the entries, whatever stands behind them |
| RthPlans.EvaluatePlan | src/rth_plan/rth_plan.c:300-428 | Evaluating a block that reads as a plan gives the entry that the walk finds, an overflow or an invalid point, and nothing else |
| RthPlans.AnswerIsStored | src/rth_plan/rth_plan.c:300-428 | Every field of the answer from the stored entries: time, duration, pre-delay and post-delay of the first entry that is late enough (or the last), action, target, altitude and neck of the latest explicit one; or an invalid point |
| RthPlans.NegativeTimeLands | src/rth_plan/rth_plan.c:300-312 | Before time zero the answer is to land at that time, with all else zero, whatever the bytes |
| RthPlans.ExampleAnswers | test/test_rth_plan.c:242-323 | A block whose second entry is answered at 2 s, field by field, and whose third is refused at 4 s |
| RthPlans.EncodedEntry | src/rth_plan/rth_plan.c:317-407 | Round trip: an encoded entry is read back after any entry, wherever it stands |
| RthPlans.EncodedPlan | src/rth_plan/rth_plan.c:240-428 | Round trip: an encoded plan is read back, whatever stands behind it |
| RthTrajectories.ScaleAfterFits | src/utils.c:99-127 | The new scale holds the point, is no smaller than the old one and as small as possible, and is refused exactly when the largest does not suffice |
| RthTrajectories.ScaleUpdate | src/utils.c:99-127 | The code computes that scale |
| RthTrajectories.DurationFromSeconds | src/utils.c:137-152 | Seconds, any float, become whole milliseconds rounded down, exactly if they are a number from 0 to (2^32 - 1) / 1000; larger ones overflow, everything else is invalid |
| RthTrajectories.LineWritableIff | src/trajectory/builder.c:114-128 | From a point that fits the scale a line can be written, however often it is cut, if and only if its target fits |
| RthTrajectories.EvaluatedEntriesArePlausible | src/rth_plan/rth_plan.c:376-383 | Whatever the bytes, evaluation returns a neck only with the action that has one, and durations of whole seconds |
| RthTrajectories.ScaleForFits | src/rth_plan/rth_plan.c:463-473 | The scale chosen up front has room for the start and, where the top of the neck fits, for every point; for an entry that has a neck only with its action the top does fit |
| RthTrajectories.ScaleForLeast | src/rth_plan/rth_plan.c:463-473 | The scale chosen up front is the least one from 1 to 127 with room for the start and, as the action has them, the top of the neck, the target and the altitude; it is refused exactly if 127 has no room for them |
| RthTrajectories.TrajectoryFromEntry | src/rth_plan/rth_plan.c:451-544 | For every entry, its seconds being any floats, the exact status: the first of a coordinate too large, a duration that is negative, no number or too long, or a neck that does not fit the scale chosen without it; otherwise every write succeeds and the trajectory is that of the entry's calls. Where it is, and when, is stated by RthFlights.FlightTime and its neighbours |
| RthTrajectories.PlausibleVerdict | src/rth_plan/rth_plan.c:451-544 | For entries that evaluation can return, once scale and durations are accepted no write fails |
| RthTrajectories.NeckDeparts | src/rth_plan/rth_plan.c:463-498 | A landing with a neck that the scale was not chosen for |
| RthTrajectories.ConversionMeaning | src/rth_plan/rth_plan.c:475-538 | The trajectory of an entry's calls starts at the quantised start, ends at the quantised goal and lasts the sum of their converted times |
| RthFlights.FlightTime | src/rth_plan/rth_plan.c:475-538 | The trajectory of an evaluated entry lasts the floor of 1000 times its time and pre-delay together, and the floors of 1000 times its neck, action and post-delay seconds |
| RthFlights.FlightEnds | src/rth_plan/rth_plan.c:475-530 | It starts at the quantised start and ends at the quantised target, at the entry's altitude if it has one and else at the start's; a landing ends where it starts |
| RthFlights.WaitsAtStart | src/rth_plan/rth_plan.c:475-484 | Until the entry's time and pre-delay are over, playback is at the quantised start, whatever segment is cached |
| RthFlights.FlightPasses | src/rth_plan/rth_plan.c:475-538 | After the wait, the neck and the action playback is at the quantised start, the top of the neck and the goal, on every axis that is not moved in no time |
| RthFlights.ConvertedFlies | src/rth_plan/rth_plan.c:451-544 | Every evaluated entry that is converted with success has such a trajectory |
| RthFlights.ExampleFlight | test/test_rth_plan.c:325-385 | Going 15 s after the trigger in 50 s and waiting for 5 s: 70 s in all, half way after 40 s |

## Left out

- File descriptors and `init_from_binary_file` wrappers: input and output. Only the in-memory branch is modelled.
- Allocation failure, ownership flags, destroy functions and concatenating a buffer with itself: memory plumbing.
- IEEE rounding, and the skew of internal time through `float`: reals with skew factor 1.
- Signal source, triggers, the edge detector and the channel colours: there is no signal source in the
  model, so a triggered jump is read and ignored and a colour from channels is black.
- Non-linear easing, colour temperature and RGBW conversion: the executor uses linear easing only.
- Suspending a bytecode store, and changing the program of a player: a player is constructed with its program.
- Varints of more than nine bytes in the executor's reader, whose shift exceeds the word in the original.
- Root finding above degree two and extrema above degree three: the original does not implement them.
- Trajectory, yaw and plan payloads that are cut short, where the original reads past the block.
- RthPlans.Plan.EvaluateAt: not modelled where the original reads past the block (`RthPlans.Undefined`).
- RthTrajectories.TrajectoryFromEntry: entries whose action is none of the three, which are invalid values.
- Takeoff and landing time proposals, end and start position queries, and clearing a trajectory:
  easy members on top of the player.
- The yaw rate: the change over the duration of the current setpoint, nothing more.
- Segment polynomials are values in the player's current piece, as the structures are copied by value in the
  original; the aliasing of polynomial objects with a piece is not modelled.
- LightSeek.HistoryFreeIff: stated for programs whose time goes past every instant; by
  LightLiveness.SeeksReturnIffLive these are the programs in which every seek returns.
- LightLiveness.SeeksReturnIff: stated for programs that always find room in the loop stack and fit the address
  range; what the others do is decided by the memory behind the stack.
- LightExecutor.CommandExecutor.ExecuteNextCommand: not modelled for a loop command with four loops open, for
  the same reason as LoopStacks.LoopStack.Begin.
- LightExecutor.CommandExecutor.Step: not modelled where such a command is due.
- LoopStacks.LoopStack.Begin: not modelled with four loops open, where the original writes behind its array.
- Buffers.Buffer.ExtendWithZeros: not modelled where the sum of the sizes wraps around and the wrapped sum is
  granted, because the original then writes behind its storage (Buffers.ExtensionCovered).
- BoundingBoxes.GetAxisAlignedBoundingBox: not modelled for segments of degree above three, where the original
  reads an interval that was not set for the axis (BoundingBoxes.HighDegreeDeparts).
- YawControl.Player.GetYawAt: the 32-bit wrap of the yaw itself is not modelled, because a block of a file
  is too short to reach it (YawControl.YawBounded).
