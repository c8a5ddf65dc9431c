# lunadev-2025 core, modelled in Dafny

This project models the decision-making and bookkeeping core of the lunadev-2025
rover software in Dafny, and proves properties of the model:

- **ares-bt** (`behavior_tree.dfy`): the behaviour-tree combinators. These are
  `IfElse`, `Invert`, a `Status` used as a behaviour, `WhileLoop`, `Sequence`,
  `Select` and `status`.
- **lunabot-ai** (`autonomy.dfy`, `dig.dfy`): the autonomy stage machine
  (`Autonomy::advance`) and the `dig` behaviour.
- **lunabot** (`setup.dfy`, `soft_stop.dfy`, `camera_telemetry.dfy`):
  - the control loop's blackboard: special instants, the ping timer, and the
    loop that drains messages from the base station;
  - the `setup` and `soft_stop` states;
  - the camera index the base station cycles through;
  - the video port and the time between camera frames.
- **costmap** (`costmap.dfy`): the frame built from one batch of points, with
  its bounding box, per-cell height sums, maximum density and quadtree depth.
  Also the ring window of frames and `is_global_point_safe`.
- **py_globals** (`error_wrapper.dfy`): `ErrorWrapper`, a lazily built value
  that is dropped when a run on it raises the wrapper's error type.
- **ROS telemetry node** (`ros_telemetry.dfy`):
  - image fragmentation and the base station's reassembly;
  - `on_receive` for ping and steering packets;
  - the one-slot image buffer and the connection flag.
- **client telemetry** (`client_telemetry.dfy`): the ten-slot bandwidth buffer
  of `track_data`.
- **navigator** (`successors.dfy`): the script that enumerates the primitive
  move directions within a bound.
- **smooth-diff-drive** (`sorting.dfy`): the script that extracts losses from a
  training log and sorts them. It skips every other line, takes the token before
  the first comma, and drops `NaN`.

The model follows these conventions:

- **State.** Objects whose fields the source updates in place are classes.
  Their methods are proved against specification functions. Value types are
  datatypes.
- **Panics.** A Rust panic is an explicit outcome (`None`, `Panic`, a `false`
  flag), not a precondition. This covers arithmetic overflow in debug builds,
  `% 0`, `ilog2(0)`, out-of-range indexing and a failed `assert!`.
- **Exceptions.** A Python exception is a `Result` error.
- **External code.** Calls into code that is not modelled become parameters:
  `init` and `run` of the wrapper, `float()` in the log sorter, and the message
  handler of `on_get_msg_from_lunabase`.
- **Time and the network.** These become inputs: the current time step, the
  messages that arrive before a deadline, and the packets sent, recorded in a
  field.

## Model

| member | source | states |
|---|---|---|
| BehaviorTree.StatusOf | misc/ares-bt/src/lib.rs:133-139 | `status(b)` is `Ok` exactly when `b` holds |
| BehaviorTree.Constant | misc/ares-bt/src/lib.rs:48-52 | a `Status` used as a behaviour reports itself and hands back the blackboard untouched; `ConstantChildren` proves what that means inside a sequence or a select |
| BehaviorTree.ConstantChildren | misc/ares-bt/src/lib.rs:48-52 | a leading `Ok` child is skipped by a sequence and ends a select with `Ok`; a leading `Err` child ends a sequence with `Err` and is skipped by a select |
| BehaviorTree.IfElse | misc/ares-bt/src/lib.rs:25-31 | runs the condition, then the first branch on `Ok` or the second on `Err`, on the blackboard the condition left; `IfElseInvertedCondition` relates it to the swapped branches |
| BehaviorTree.Invert | misc/ares-bt/src/lib.rs:40-45 | runs the child and negates its status, keeping its blackboard; `InvertInvolution` proves that inverting twice changes nothing |
| BehaviorTree.RunSequence | misc/ares-bt/src/lib.rs:92-97 | runs the children in order and stops at the first `Err`; `SequenceSemantics` proves it is `Ok` iff every child ran and reported `Ok` |
| BehaviorTree.Sequence | misc/ares-bt/src/lib.rs:82-104 | the sequence node as a behaviour; `SequenceAppend` and `PairSequence` prove how sequences compose |
| BehaviorTree.RunSelect | misc/ares-bt/src/lib.rs:116-123 | runs the children in order and stops at the first `Ok`; `SelectSemantics` proves it is `Err` iff every child ran and reported `Err` |
| BehaviorTree.Select | misc/ares-bt/src/lib.rs:106-130 | the select node as a behaviour; `SelectSequenceDuality` proves it is the inverted sequence of the inverted children |
| BehaviorTree.RunWhile | misc/ares-bt/src/lib.rs:66-73 | the loop with at most `fuel` body runs: `Ok` once the condition fails, `Err` once a body child fails, `None` if the fuel runs out first; `RunWhileFuelMonotone` proves more fuel never changes a result already reached |
| BehaviorTree.Negate | misc/ares-bt/src/lib.rs:40-45 | the status `Invert` reports always differs from its child's |
| BehaviorTree.InvertInvolution | misc/ares-bt/src/lib.rs:40-45 | inverting twice gives the child's status and blackboard effect back |
| BehaviorTree.IfElseInvertedCondition | misc/ares-bt/src/lib.rs:25-31 | an `IfElse` whose condition is inverted behaves like the `IfElse` with its branches swapped: the condition runs once and then exactly one branch |
| BehaviorTree.SequenceSemantics | misc/ares-bt/src/lib.rs:92-98 | a `Sequence` is `Ok` iff every child succeeds in turn, and then leaves the blackboard all children produce; at the first failing child it returns `Err` and no later child runs |
| BehaviorTree.SelectSemantics | misc/ares-bt/src/lib.rs:116-123 | a `Select` is `Err` iff every child fails in turn; at the first succeeding child it returns `Ok` and no later child runs |
| BehaviorTree.ShiftAfter | misc/ares-bt/src/lib.rs:92-98 | running the first k+1 children is running the first child, then k of the rest |
| BehaviorTree.InvertAll | misc/ares-bt/src/lib.rs:40-45 | each child is wrapped in `Invert`, position by position |
| BehaviorTree.SelectSequenceDuality | misc/ares-bt/src/lib.rs:92-123 | an inverted `Select` behaves like the `Sequence` of the inverted children, blackboard included |
| BehaviorTree.SequenceAppend | misc/ares-bt/src/lib.rs:92-98 | a `Sequence` over a concatenation runs the first part and runs the second only if the first succeeds |
| BehaviorTree.PairSequence | misc/ares-bt/src/lib.rs:92-98 | a two-child `Sequence` runs the second child only after the first succeeds |
| BehaviorTree.WhileLoop | misc/ares-bt/src/lib.rs:66-73 | the loop method's outcome equals the loop semantics: a failing condition ends with `Ok`, a failing body child aborts with `Err` |
| BehaviorTree.RunWhileFuelMonotone | misc/ares-bt/src/lib.rs:66-73 | once the loop has ended, running it with a larger iteration bound gives the same outcome |
| BehaviorTree.CountToTen | misc/ares-bt/src/lib.rs:146-158 | a loop that increments a counter while it is below ten ends `Ok` with the counter at exactly ten |
| Autonomy.Advance | lunabotics/lunabot-ai/src/autonomy/mod.rs:32-44 | full autonomy stays full and never returns to traversal; traversal goes to digging and digging to dumping; partial autonomy and `None` end at `None` |
| Autonomy.DigDumpCycle | lunabotics/lunabot-ai/src/autonomy/mod.rs:38-39 | under full autonomy, digging and dumping alternate with period two |
| Autonomy.EventuallyPeriodic | lunabotics/lunabot-ai/src/autonomy/mod.rs:32-44 | after the first advance, every start is periodic with period two |
| Autonomy.FullAutonomyIsForever | lunabotics/lunabot-ai/src/autonomy/mod.rs:34-40 | any number of advances keeps full autonomy full, and after one advance it is never in traversal |
| DigBehavior.DigCondition | lunabotics/lunabot-ai/src/autonomy/dig.rs:11-18 | the condition is `Ok` iff the stage is `Dig` (full or partial), and leaves the blackboard unchanged |
| DigBehavior.DigAction | lunabotics/lunabot-ai/src/autonomy/dig.rs:19-22 | the action advances the autonomy stage and reports `Ok`; `DigTransitions` gives the stage it reaches |
| DigBehavior.DigTree | lunabotics/lunabot-ai/src/autonomy/dig.rs:10-24 | `dig()` is the condition, then the action or `AlwaysFail`; `DigOutcome` proves it succeeds iff the stage is `Dig` and otherwise changes nothing |
| DigBehavior.DigOutcome | lunabotics/lunabot-ai/src/autonomy/dig.rs:10-24 | `dig` succeeds iff the stage is `Dig` and then advances the autonomy once; otherwise it fails and changes nothing; the base-station queue is never touched |
| DigBehavior.DigTransitions | lunabotics/lunabot-ai/src/autonomy/dig.rs:19-22 | `dig` takes full-autonomy digging to dumping, and partial-autonomy digging to `None` |
| Setup.Insert | lunabotics/lunabot/src/setup/mod.rs:246-248 | pushing an instant keeps the heap's contents ordered and adds exactly that instant |
| Setup.SortedHeadIsLeast | lunabotics/lunabot/src/setup/mod.rs:67 | the front of the ordered contents is the least pending instant (min-heap through `Reverse`) |
| Setup.Drain | lunabotics/lunabot/src/setup/mod.rs:272-287 | the result is `None` iff the handler continues on every message; otherwise it is the first `Break` value, and exactly the messages after that one stay unread |
| Setup.Blackboard.constructor | lunabotics/lunabot/src/setup/mod.rs:228-231 | a new blackboard has no special instants and its ping timer at 0 |
| Setup.Blackboard.AddSpecialInstant | lunabotics/lunabot/src/setup/mod.rs:246-248 | the pending instants gain exactly the new one |
| Setup.Blackboard.PopSpecialInstant | lunabotics/lunabot/src/setup/mod.rs:250-252 | `None` iff nothing is pending; otherwise returns the least pending instant and removes one copy of it |
| Setup.Blackboard.PeekSpecialInstant | lunabotics/lunabot/src/setup/mod.rs:254-256 | the instant `pop` would return, leaving the heap unchanged |
| Setup.Blackboard.PollPing | lunabotics/lunabot/src/setup/mod.rs:262-270 | the timer drops by `delta`; once it reaches 0 or below, it is rearmed to `PING_DELAY` and exactly one ping is sent; the timer stays positive |
| Setup.Blackboard.OnGetMsgFromLunabase | lunabotics/lunabot/src/setup/mod.rs:272-287 | the loop's result and the unread messages are those of `Drain` |
| Setup.FirstPollPings | lunabotics/lunabot/src/setup/mod.rs:262-270 | since the timer starts at 0, the first poll after construction sends a ping and rearms the timer to 1.0 |
| Setup.SetupState | lunabotics/lunabot/src/setup/mod.rs:33-57 | an existing blackboard is kept with `Success`; otherwise the result is `Failure` when creation fails and `Success` with a fresh blackboard when it succeeds; `dt` is passed through |
| SoftStop.Dispatch | lunabotics/lunabot/src/soft_stop.rs:27-38 | a ping continues; `ContinueMission` breaks with `(Success, 0.0)`; `TriggerSetup` breaks with `(Failure, 0.0)` |
| SoftStop.Verdict | lunabotics/lunabot/src/soft_stop.rs:26-40 | the status and time `soft_stop` reports for these messages; `RunningIffOnlyPings`, `PingsAreIgnored` and `FirstDecisiveMessageWins` state its meaning |
| SoftStop.SoftStopState | lunabotics/lunabot/src/soft_stop.rs:9-48 | no blackboard gives `(Failure, dt)`; with a blackboard the result is the verdict of the drained messages, and the rest of the blackboard is unchanged |
| SoftStop.PingsAreIgnored | lunabotics/lunabot/src/soft_stop.rs:27-28 | pings ahead of the other messages do not change the verdict |
| SoftStop.FirstDecisiveMessageWins | lunabotics/lunabot/src/soft_stop.rs:29-36 | the first non-ping message decides the verdict, whatever follows |
| SoftStop.RunningIffOnlyPings | lunabotics/lunabot/src/soft_stop.rs:26-40 | `Running` iff only pings arrive before the deadline; the reported time is 0.0 in every outcome |
| CameraTelemetry.NextIndex | lunabotics/lunabot/src/telemetry.rs:296-301 | panics iff there are no cameras or `index + 1` overflows `u8`; otherwise the new index is `(index + 1) mod count`, below the count |
| CameraTelemetry.PreviousIndex | lunabotics/lunabot/src/telemetry.rs:302-308 | panics iff there are no cameras or `index + count` overflows `u8`; otherwise the new index is `(index + count - 1) mod count`, below the count |
| CameraTelemetry.NextPreviousInverse | lunabotics/lunabot/src/telemetry.rs:296-308 | next then previous, or previous then next, returns to the same camera |
| CameraTelemetry.IndexStaysInRange | lunabotics/lunabot/src/telemetry.rs:293-311 | with at most 128 cameras and a valid start, no message panics and the index stays valid |
| CameraTelemetry.OnCameraMessage | lunabotics/lunabot/src/telemetry.rs:293-311 | one camera message: next, previous, or a panic; `IndexStaysInRange` proves it never panics from a valid index with at most 128 cameras |
| CameraTelemetry.AfterMessages | lunabotics/lunabot/src/telemetry.rs:293-311 | the index after a run of messages, `None` at the first panic; `IndexStaysInRange` proves it stays valid |
| CameraTelemetry.CameraSelector.constructor | lunabotics/lunabot/src/telemetry.rs:97-98 | the index is the given one and the camera count starts at 0 |
| CameraTelemetry.CameraSelector.ServeCameraMessages | lunabotics/lunabot/src/telemetry.rs:293-311 | the load/compute/store loop ends with the index of the message semantics, and fails exactly when a message panics |
| CameraTelemetry.VideoPort | lunabotics/lunabot/src/telemetry.rs:78-79 | the video port is the server port plus one, and this panics exactly at 65535 |
| CameraTelemetry.CameraDeltaMillis | lunabotics/lunabot/src/telemetry.rs:90 | `1000 / cam_fps` is the largest whole number of milliseconds that fits `cam_fps` times into a second; it panics exactly when `cam_fps` is 0 |
| Costmap.IsGlobalPointSafe | costmap/src/lib.rs:51-53 | no point is ever reported safe |
| Costmap.WidenTight | costmap/src/lib.rs:119-135 | one round of the bounding-box loop turns the tight box of some points into the tight box with one more point |
| Costmap.Widen | costmap/src/lib.rs:119-135 | one round of the bounding-box loop; `WidenEncloses` and `WidenTight` prove it takes the tight box of some points to the tight box with one more |
| Costmap.WidenEncloses | costmap/src/lib.rs:119-135 | widening a box around some points by one more point encloses that point too |
| Costmap.BoxTight | costmap/src/lib.rs:108-135 | the box after the loop encloses every point and each of its six bounds is attained by some point |
| Costmap.Box | costmap/src/lib.rs:108-135 | the box the loop leaves after every point; `BoxTight` proves it encloses all points and attains each bound |
| Costmap.BoundingBox | costmap/src/lib.rs:108-135 | the loop gives no bounds iff there are no points, and otherwise gives the tight box |
| Costmap.EmptyCellHasNoHeight | costmap/src/lib.rs:143-172 | a cell that no point falls into has a height sum of 0 |
| Costmap.CountAtPositive | costmap/src/lib.rs:143-172 | a cell is counted iff some point falls into it |
| Costmap.CellsOfContents | costmap/src/lib.rs:143-172 | there is a cell exactly for each anchor some point falls into, holding the number of those points and the sum of their heights |
| Costmap.AddToCell | costmap/src/lib.rs:144-171 | one point goes into its cell, which is counted up or created with count 1, and `max_density` stays the largest count and becomes at least 1 |
| Costmap.CountCells | costmap/src/lib.rs:139-172 | the loop builds the cells point by point; they are exactly the anchors some point falls into; each holds the number of its points and the sum of their heights; `max_density` is the largest count, and at least 1 when there are points |
| Costmap.AddPoint | costmap/src/lib.rs:144-171 | one round of the cell loop; `AddToCell` proves it adds one to the count and the height to the sum of exactly one cell |
| Costmap.CellsOf | costmap/src/lib.rs:143-172 | the cells of a run of points; `CellsOfContents` proves each cell counts its points and sums their heights |
| Costmap.Pow2 | costmap/src/lib.rs:138 | `2^n` is a positive power of two |
| Costmap.Ilog2 | costmap/src/lib.rs:138 | `ilog2(n)` is the exponent of the largest power of two not above `n` |
| Costmap.NextPowerOfTwo | costmap/src/lib.rs:138 | `next_power_of_two(n)` is the least power of two not below `n` |
| Costmap.PowerAtLeast | costmap/src/lib.rs:138 | doubling a power of two until it reaches `n` gives the least power of two not below `n` |
| Costmap.SourceDepthTooShallow | costmap/src/lib.rs:137-138 | for a range of 2, the source's depth is 1, a square too narrow for anchor 2 |
| Costmap.SourceDepth | costmap/src/lib.rs:138 | `max_range.ilog2().next_power_of_two()` is a power of two at least `ilog2(max_range)`; `SourceDepthTooShallow` shows it can be too shallow |
| Costmap.MaxRange | costmap/src/lib.rs:137 | the larger of the two horizontal extents of the box |
| Costmap.CoveringDepth | costmap/src/lib.rs:137-141 | the least depth whose square holds every anchor up to `max_range` |
| Costmap.CreateFrame | costmap/src/lib.rs:98-181 | a zero resolution fails the assertion; no points give no frame; it panics iff all points share one cell; otherwise the frame holds the cells of `CountCells`, non-negative anchors, the height bounds of the box and the corrected depth `CoveringDepth` rather than the source's `SourceDepth` |
| Costmap.TotalCellsReplace | costmap/src/lib.rs:208-215 | replacing one frame changes the published point count by the difference of the two frames' cell counts |
| Costmap.CostmapWindow.constructor | costmap/src/lib.rs:197-205 | `window_length` empty frames, and the index at 0 |
| Costmap.CostmapWindow.Receive | costmap/src/lib.rs:215-219 | the frame replaces the slot at the index, which moves on and wraps to 0; with an empty window the indexing panics and nothing changes |
| Costmap.CostmapWindow.PointCount | costmap/src/lib.rs:208 | the published point count is the cell count summed over the window |
| PyGlobals.TryInitOutcomes | src/py_globals/py_globals/wrappers.py:12-17 | success stores the value and does not call `on_err`; an exception of the error type goes to `on_err` once and is returned; any other exception escapes and changes nothing |
| PyGlobals.TryInitStep | src/py_globals/py_globals/wrappers.py:12-17 | one call of `_try_init`; `TryInitOutcomes` proves its three outcomes |
| PyGlobals.ExecStep | src/py_globals/py_globals/wrappers.py:19-30 | one call of `exec`; `FailedRetrySkipsRun`, `ExecWithValue`, `CaughtRunResets` and `OtherExceptionsEscape` prove its cases |
| PyGlobals.FailedRetrySkipsRun | src/py_globals/py_globals/wrappers.py:19-23 | with no value, a retry that raises the error type is returned and `run` is not called |
| PyGlobals.ExecWithValue | src/py_globals/py_globals/wrappers.py:19-26 | with a value, `init` is not called and `run`'s result is returned |
| PyGlobals.CaughtRunResets | src/py_globals/py_globals/wrappers.py:25-30 | when `run` raises the error type, the value is dropped, `on_err` gets the exception once, and it is returned |
| PyGlobals.OtherExceptionsEscape | src/py_globals/py_globals/wrappers.py:13-27 | an exception of another type escapes and leaves the value and the handled exceptions as they were |
| PyGlobals.InitReturningNoneRunsOnNone | src/py_globals/py_globals/wrappers.py:19-26 | when `init` returns `None`, the value stays missing and `run(None)` is called |
| PyGlobals.HandlerCalledAtMostOnce | src/py_globals/py_globals/wrappers.py:12-30 | `on_err` is called at most once per `exec`, only with the exception it returns, and the value is then missing |
| PyGlobals.ErrorWrapper.constructor | src/py_globals/py_globals/wrappers.py:5-9 | the error type is set, with no value and nothing handled |
| PyGlobals.ErrorWrapper.TryInit | src/py_globals/py_globals/wrappers.py:12-17 | the new state and the result are those of the `_try_init` semantics |
| PyGlobals.ErrorWrapper.Exec | src/py_globals/py_globals/wrappers.py:19-30 | the new state and the result are those of the `exec` semantics |
| PyGlobals.NewErrorWrapper | src/py_globals/py_globals/wrappers.py:5-10 | construction fails iff `init` raises an exception outside the error type; otherwise the wrapper holds the state after one `_try_init` |
| RosTelemetry.FragmentCount | src/telemetry/telemetry/telemetry.py:171 | `ceil(n / 200)`: the fewest 200-byte fragments that hold `n` bytes |
| RosTelemetry.U32LE | src/telemetry/telemetry/telemetry.py:62-63 | the image index is packed into 4 bytes |
| RosTelemetry.U32RoundTrip | src/telemetry/telemetry/telemetry.py:62-63 | decoding a packed index gives the index back |
| RosTelemetry.Payload | src/telemetry/telemetry/telemetry.py:175-177 | each payload is a slice of the image starting at 200·k; it is non-empty, and exactly 200 bytes except for the last |
| RosTelemetry.Fragment | src/telemetry/telemetry/telemetry.py:174-177 | one packet: its header, then its payload; `FragmentHeaders` and `StripFragment` prove the header is `IBB(index, 0, count)` on the first and `IB(index, k)` on the rest |
| RosTelemetry.Fragments | src/telemetry/telemetry/telemetry.py:171-185 | packing fails iff the image is non-empty and the count exceeds 255 or the index exceeds 32 bits; otherwise there is one packet per fragment |
| RosTelemetry.StripFragment | src/telemetry/telemetry/telemetry.py:174-177 | taking a fragment's header off leaves its payload |
| RosTelemetry.PayloadExtends | src/telemetry/telemetry/telemetry.py:175-177 | payload k starts where the payloads before it end and continues the image |
| RosTelemetry.ReassemblePrefix | src/telemetry/telemetry/telemetry.py:173-177 | the payloads of the first c fragments are the first min(200·c, n) bytes of the image |
| RosTelemetry.ReassembleFragments | src/telemetry/telemetry/telemetry.py:169-187 | concatenating the packets' payloads in fragment order rebuilds the image |
| RosTelemetry.FragmentHeaders | src/telemetry/telemetry/telemetry.py:174-177 | every fragment starts with the image index; fragment 0 then holds 0 and the count, fragment k holds k |
| RosTelemetry.Signed | src/telemetry/telemetry/telemetry.py:55-60 | a byte read with `struct` code `b` is in [-128, 127] and is negative iff the byte is at least 128 |
| RosTelemetry.SignedByte | src/telemetry/telemetry/telemetry.py:55-60 | writing a value in [-128, 127] as a signed byte and reading it back gives the value |
| RosTelemetry.OnReceive | src/telemetry/telemetry/telemetry.py:191-231 | a ping on the important channel is answered with a ping and other important messages get no reply; an empty important packet raises `IndexError`; a steering packet is echoed, and then unpacked or raises `struct.error` when its length is wrong; Archimedes reads the drum velocity as well; any other channel only warns |
| RosTelemetry.SteeringRoundTrip | src/telemetry/telemetry/telemetry.py:204-228 | a steering packet encoded for the node's scheme is echoed and unpacks to the command that was encoded |
| RosTelemetry.CameraPackets | src/telemetry/telemetry/telemetry.py:179-185 | each fragment is sent once, in order, on the camera channel |
| RosTelemetry.TelemetryNode.constructor | src/telemetry/telemetry/telemetry.py:45-79 | the node starts disconnected, with an empty buffer and image index 0, and has sent nothing |
| RosTelemetry.TelemetryNode.ReceiveImage | src/telemetry/telemetry/telemetry.py:68-76 | an image is buffered only while connected and only when the one-slot buffer is empty |
| RosTelemetry.TelemetryNode.OnConnected | src/telemetry/telemetry/telemetry.py:115-120 | the buffer is emptied, then the node is marked connected |
| RosTelemetry.TelemetryNode.OnDisconnectedAsWritten | src/telemetry/telemetry/telemetry.py:149-150 | the disconnect branch as written leaves the node marked connected |
| RosTelemetry.TelemetryNode.OnDisconnected | src/telemetry/telemetry/telemetry.py:149-150 | the disconnect branch as intended marks the node disconnected |
| RosTelemetry.TelemetryNode.ServiceImage | src/telemetry/telemetry/telemetry.py:169-189 | with no buffered image nothing happens; otherwise the image is taken and either its fragments are sent in order and the index counts up by one, or packing fails and nothing is sent or counted |
| RosTelemetry.DisconnectThenImageAsWritten | src/telemetry/telemetry/telemetry.py:149-150 | as written, an image that arrives after a disconnect is still buffered |
| RosTelemetry.DisconnectThenImage | src/telemetry/telemetry/telemetry.py:149-150 | as intended, an image that arrives after a disconnect is dropped |
| ClientTelemetry.InitialConsistent | lunadev/client_telemetry.py:29 | the initial buffer of `[0, 0]` slots is consistent: each slot counts a time step that falls on it, or is still initial |
| ClientTelemetry.Track | lunadev/client_telemetry.py:51-58 | counting data at a time step; `TrackUpdatesOneSlot`, `SameSecondAccumulates` and `NextLapResets` prove it changes one slot, accumulating within a step and restarting on a new one |
| ClientTelemetry.TrackUpdatesOneSlot | lunadev/client_telemetry.py:51-58 | counting data keeps the buffer consistent; it sets slot `t mod 10` to time step `t` and adds `len + 8`, after a reset when the slot held another step; every other slot is unchanged |
| ClientTelemetry.SameSecondAccumulates | lunadev/client_telemetry.py:54-58 | two packets in the same second add up in one slot |
| ClientTelemetry.NextLapResets | lunadev/client_telemetry.py:52-56 | a slot reused ten seconds later restarts from zero |
| ClientTelemetry.DiagnosticBuffer.constructor | lunadev/client_telemetry.py:29-30 | ten slots of `[0, 0]` |
| ClientTelemetry.DiagnosticBuffer.TrackData | lunadev/client_telemetry.py:47-58 | with diagnostics off the buffer does not change; otherwise it becomes the buffer after counting the data at time step `t` |
| Successors.Gcd | navigator/src/successors.py:12 | the gcd is positive unless both numbers are 0 |
| Successors.GcdDivides | navigator/src/successors.py:12 | the gcd divides both magnitudes |
| Successors.CommonDivisorDividesGcd | navigator/src/successors.py:12 | every common divisor divides the gcd |
| Successors.ReduceFactors | navigator/src/successors.py:12-14 | the gcd is a positive factor of both components, so `int(x / gcd)` divides exactly |
| Successors.Reduce | navigator/src/successors.py:12-14 | dividing a vector by the gcd of its components; `ReduceFactors`, `ReducedIsPrimitive` and `ReduceWithinBounds` prove it exact, primitive and no longer |
| Successors.ReducedIsPrimitive | navigator/src/successors.py:12-15 | a reduced vector has gcd 1 |
| Successors.ReduceWithinBounds | navigator/src/successors.py:12-15 | reducing never makes a component larger in magnitude |
| Successors.GridContents | navigator/src/successors.py:8-9 | the candidates visited before row `upTo` are exactly the pairs in those rows within the bounds |
| Successors.Candidates | navigator/src/successors.py:8-9 | the pairs the two loops visit; `GridContents` proves they are exactly the pairs within the bounds |
| Successors.Step | navigator/src/successors.py:10-18 | the loop body for one candidate; `EmitVecs` and `EmitNoDuplicates` prove what a run of steps lists |
| Successors.Emit | navigator/src/successors.py:10-18 | the table listed for a run of candidates; `EmitVecs`, `EmitNoDuplicates`, `EmitPrimitive` and `EmitFirstOccurrence` prove its contents |
| Successors.EmitVecs | navigator/src/successors.py:10-18 | the listed vectors are exactly the reductions of the nonzero candidates (the `seen` set) |
| Successors.EmitNoDuplicates | navigator/src/successors.py:16-18 | no vector is listed twice |
| Successors.EmitPrimitive | navigator/src/successors.py:12-19 | every listed vector is primitive and nonzero |
| Successors.EmitFirstOccurrence | navigator/src/successors.py:8-19 | each entry comes from the first candidate that reduces to it, and carries that candidate's squared length |
| Successors.Complete | navigator/src/successors.py:8-18 | the reduction of every nonzero direction within the bounds is listed |
| Successors.WithinBounds | navigator/src/successors.py:8-15 | every listed vector lies within the bounds |
| Successors.EmitUnits | navigator/src/successors.py:10-19 | when every candidate is already primitive and none repeats, each nonzero candidate is listed, in order |
| Successors.CandidatesOne | navigator/src/successors.py:4-9 | with `bounds = 1` the loops visit the nine pairs row by row, in ascending `y` |
| Successors.UnreducedNeighbours | navigator/src/successors.py:10-19 | with `bounds = 1` the nonzero candidates are the eight neighbour directions, with squared lengths 1 and 2 |
| Successors.NeighbourTable | navigator/src/successors.py:4-19 | with `bounds = 1` the table is the eight neighbours in visiting order, with squared lengths 1 and 2 |
| Successors.Visit | navigator/src/successors.py:10-19 | one pass of the loop body: the table after one candidate, with `seen` equal to the listed vectors |
| Successors.EnumerateRow | navigator/src/successors.py:9-19 | the inner loop extends the table by one row's candidates |
| Successors.EnumerateSuccessors | navigator/src/successors.py:4-19 | the nested loops produce the table of all candidates |
| LogSorting.IndexOf | smooth-diff-drive/src/sorting.py:22 | `line.index(',')` fails iff there is no comma; otherwise it is the position of the first one |
| LogSorting.Token | smooth-diff-drive/src/sorting.py:22-31 | the loss token of a line, or the error its parsing raises; `TokenNoComma` and `TokenBetween` prove both cases |
| LogSorting.LastSpaceBefore | smooth-diff-drive/src/sorting.py:24-29 | the backward scan finds no space iff none precedes the comma; otherwise it finds the last space before it |
| LogSorting.TokenNoComma | smooth-diff-drive/src/sorting.py:22 | a line raises `ValueError` for the comma iff it has no comma |
| LogSorting.TokenBetween | smooth-diff-drive/src/sorting.py:22-31 | "No Space" is raised iff no space precedes the first comma (a comma at position 0 included); otherwise the number text lies strictly between the last such space and the comma |
| LogSorting.ParseLine | smooth-diff-drive/src/sorting.py:21-35 | a row from line `i` is numbered `int(i / 2) + 1` |
| LogSorting.ParseLineOutcomes | smooth-diff-drive/src/sorting.py:22-35 | the text `NaN` gives no row; a text `float()` rejects raises, and only then; otherwise the row holds the value `float()` reads; an error finding the text is the line's error |
| LogSorting.ErrorStops | smooth-diff-drive/src/sorting.py:16-35 | once a line raises, later lines change nothing |
| LogSorting.ParseLinesOutcome | smooth-diff-drive/src/sorting.py:16-35 | the script runs to the end iff no odd-numbered line raises; otherwise it raises what the first such line raises |
| LogSorting.ParseLines | smooth-diff-drive/src/sorting.py:16-35 | the rows read from the file, or the first exception; `ParseLinesOutcome`, `ErrorStops` and `RowsFromOddLines` prove what it reads |
| LogSorting.RowSource | smooth-diff-drive/src/sorting.py:12-35 | each listed row has an odd-numbered line that gives it |
| LogSorting.RowsFromOddLines | smooth-diff-drive/src/sorting.py:12-35 | every row comes from an odd-numbered line |
| LogSorting.OddRowsListed | smooth-diff-drive/src/sorting.py:12-35 | every odd-numbered line that gives a row has that row listed |
| LogSorting.RowNumbersIncrease | smooth-diff-drive/src/sorting.py:21-35 | the rows keep their lines' order: their numbers increase, so no line gives two rows, and lie in [1, n / 2] |
| LogSorting.EvenLinesIgnored | smooth-diff-drive/src/sorting.py:12-20 | changing an even-numbered line changes nothing |
| LogSorting.FindSpace | smooth-diff-drive/src/sorting.py:24-29 | the scan loop finds the last space before the comma |
| LogSorting.ReadLine | smooth-diff-drive/src/sorting.py:20-35 | one pass of the loop body over a line that is read gives that line's outcome |
| LogSorting.ReadRows | smooth-diff-drive/src/sorting.py:12-35 | the loop with the `skip` flag gives the rows, or the error, of the line semantics |
| LogSorting.WithLossAppend | smooth-diff-drive/src/sorting.py:38 | the rows with a given loss, taken over a concatenation, are those of each part in turn |
| LogSorting.InsertContents | smooth-diff-drive/src/sorting.py:38 | inserting adds exactly that row, once, and nothing else |
| LogSorting.Insert | smooth-diff-drive/src/sorting.py:38 | one step of a stable insertion sort by loss; `InsertContents`, `InsertSorted` and `InsertStable` prove it |
| LogSorting.InsertSorted | smooth-diff-drive/src/sorting.py:38 | inserting into sorted rows keeps them sorted |
| LogSorting.InsertStable | smooth-diff-drive/src/sorting.py:38 | an inserted row goes after the rows of equal loss |
| LogSorting.SortRowsSorted | smooth-diff-drive/src/sorting.py:38 | `rows.sort()` orders by loss alone and is a permutation of the rows |
| LogSorting.SortRows | smooth-diff-drive/src/sorting.py:38 | `rows.sort()`; `SortRowsSorted` and `SortRowsStable` prove it sorted, a permutation, and stable |
| LogSorting.SortRowsStable | smooth-diff-drive/src/sorting.py:38 | rows of equal loss keep the order they were read in |
| LogSorting.SortLog | smooth-diff-drive/src/sorting.py:10-40 | the script prints the sorted rows of the log, or stops with the first line's error |

## Left out

- **Floating point.**
  - Python floats and Rust `f32`/`f64` are modelled as mathematical reals. Heights, ping delays, losses, `dt` and `resolution` carry no rounding and no NaN.
  - `float()` in the log sorter is a parameter. Texts such as `nan` or `inf`, which Python reads as non-real floats, are outside the model; only the literal text `NaN` is dropped, as in the source.
  - The division by 127 in the steering handler is left out; the model keeps the signed byte values.
  - The square root printed by the successor script is left out; the model keeps the squared length it is taken from.
- **Point quantisation.** The rotation of `AddRotation` and the rounding of `p.x / resolution` and `p.z / resolution` to integers are left out, because both are floating-point. A batch is given as quantised points.
- **Quadtree.** The `quadtree_rs` quadtree is modelled by the map from anchors to cells it holds. With the corrected depth every anchor of a batch lies inside the quadtree's square. What the crate does with an anchor outside its square, which the source's own depth allows, is not part of this model.
- Costmap.CreateFrame: the frame carries the corrected depth `CoveringDepth`, that is `ilog2(max_range) + 1`, and not the source's `max_range.ilog2().next_power_of_two()`. The source's depth is `SourceDepth`, and the depth finding below shows where the two differ.
- Setup.Blackboard.OnGetMsgFromLunabase: the handler is a function of the message alone. It cannot change the blackboard or keep state between messages, which the source's `FnMut(&mut Self, FromLunabase)` handler can. `Drain` and `SoftStop.SoftStopState` inherit this.
- **Behaviour-tree arity.** The macros instantiate `Sequence`, `Select` and `WhileLoop` for 1 to 3 children. The model takes any sequence of children.
- **Fuel.**
  - BehaviorTree.WhileLoop: the loop gets an iteration bound. A loop that is still running when the bound is reached gives `None`. Such a loop does not terminate in the source, and the model does not describe it further.
- **Concurrency.**
  - The atomics, locks and the `multiprocessing` process of the telemetry node are left out. The one-slot `Queue` is an `Option`.
  - The camera thread that reads `camera_index` is left out.
  - The print thread of the client telemetry is left out.
- **Networking and I/O.** The enet host, `service` events, ROS publishers and subscriptions, logging, `print` output and reading `super.log` are left out. Sent packets are recorded in a field. Received messages and the log's lines are inputs.
- **Time.**
  - `Instant`s are integers.
  - `recv_deadline` is modelled by the messages that arrive before the deadline.
  - `int(time.time())` is the parameter `t` of `TrackData`.
- **Rust machine integers.** Only the overflows the core can reach are modelled; the `u8` index arithmetic and the `u16` port are two examples. `usize` casts of box extents are taken as exact, because the box extents of one batch are small. `struct` packing checks only the ranges of the `I` and `B` fields.
- **LogSorting.SortRows.** Python's Timsort works in place. The model uses a functional stable insertion sort. Every stable sort by loss gives the same result, so the output is what Timsort prints; the in-place array updates are not modelled.
- **Blackboard::new.** Its sockets and callbacks are left out. `SetupState` takes whether creation succeeds as a parameter.
- **Drive and callbacks.** `set_drive`, `get_robot_chain` and `get_lunabase_conn` are left out, because they only forward to callbacks or sockets.
- **Autonomy tree.** The `autonomy()` tree composes `dump` and `traverse`, which are not part of this model. Only `dig` is modelled.

## Findings

| source | as written | input that shows it | evidently intended | confidence | as-written member | corrected member |
|---|---|---|---|---|---|---|
| costmap/src/lib.rs:138 | the quadtree depth is `max_range.ilog2().next_power_of_two()` | points whose cells span a range of 2 give depth 1, a square 2 cells wide, but the anchors run from 0 to 2 | the least depth whose square holds every anchor from 0 to `max_range`, that is `ilog2(max_range) + 1` | medium, not executed | Costmap.SourceDepthTooShallow | Costmap.CoveringDepth |
| src/telemetry/telemetry/telemetry.py:149-150 | on a disconnect from the base station the node sets `connected` to `True` | a disconnect followed by an image: `receive_image` still buffers it | set `connected` to `False`, so images are dropped until the next connection | high, not executed | RosTelemetry.DisconnectThenImageAsWritten | RosTelemetry.DisconnectThenImage |
