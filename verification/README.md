# A verified model of the low-level server

The server runs timed command sequences on a test stand, reacts to state changes with mapped events, decodes the
sensor packets of its boards and logs what it sees. These Dafny files model its four stateful engines and prove what
they guarantee, over every input, every run and every interleaving.

**Sequences** (`Timeline`, `Sequences`, `SequenceTables`, `SequenceTimes`, `LoopTimer`, `Backlog`, `Interpolation`,
`SequenceTrace`, `SequenceRanges`, `RangeHeads`, `RangeDeclarations`, `SequencePlan`, `SequenceRuns`, `SequenceStart`,
`SequenceManager`). A sequence is compiled into one time-sorted schedule per device and two tables of nominal ranges,
one by sensor and one by time. A loop on a fixed time grid then takes at most one point off each schedule per tick,
with step or linear interpolation, retires ranges and checks the sensors.
`SequenceThreads` and `SequenceSafety` model starting, stopping and aborting as interleaved steps of two threads, one
step for every read or write of a shared flag.

**States and events** (`Doubles`, `StateController`, `Triggers`, `Texts`, `EventManager`, `EventCascade`,
`EventFirings`, `EventAnswers`, `EventValues`, `EventEffects`, `EventOutcomes`, `EventMirror`, `EventEngine`,
`PhaseFlags`, `RocketPhases`, `DefaultCommands`). Setting a state triggers mapped events, which issue commands and set
further states. The pure cascade is defined over the graph of states; the class in `EventEngine` is proved equal to it.
A client that polls dirty states mirrors the server.

**The bus** (`SensorCodec`, `Node`, `Scaling`, `Calibration`, `LoraFrames`). Packed sensor messages are decoded by a
channel mask with variable widths; channels are built from a node's own description by rank; raw integers are scaled
both ways; taring changes a live and a stored calibration; radio frames are split into messages.

**The log** (`LogWriter`, `LogConservation`, `LineReader`). Points become lines, lines become buffers, buffers are
queued, sent by several threads and recycled; a reader of lines finds the points again.

`dafny verify dfyconfig.toml` checks everything.

## Conventions

- Floating-point numbers are reals, states may also be NaN; microseconds and raw integers are unbounded except where
  the width matters and is written out (32-bit intervals, int32 raw values, 24-bit and 32-bit sign extension, the
  32-bit frame length).
- An exception is the result `Throws`. What comes from outside - clock readings, readings of sensors, commands that
  throw, receivers that refuse a message, the moment another thread raises a flag - is a parameter. A command sent, a
  message handed on, a buffer sent is an element of a trace.
- A time-sorted `std::map` is a sorted sequence of entries. A `std::map` over names is a map and a visiting order.
- Assumed of callers: slopes are not zero; a later vector of a linear device has no fewer components than an earlier
  one; the message data holds the values a mask announces; ids given as numbers fit eight bits; the blocks of a frame
  that are copied fit the message buffer, and the lengths of all blocks together fit 32 bits; the sequence interval,
  narrowed to 32 bits, is not zero; no range head that is read is missing, for which `RangeHeads.HeadsReadableIff` gives
  the exact condition.

## Where the code differs from its documentation or expectation

The model follows the code. Each point is a lemma or part of a contract.

- The head range is removed when its own time comes, so until the last entry the range in force is the one set for
  later, not the one documented (`SequenceRanges.InForceIsDocumentedIff`).
- `globals.ranges` is documented as an array, but membership in a JSON array is always false, so no range is loaded
  from it (`Sequences.ArrayDeclaresNothing`, with an example in `RangeDeclarations.ArrayLosesRange`). Loading is as
  documented exactly when the names are the keys of an object or no action sets a range for a listed name
  (`RangeDeclarations.LoadsAsDocumentedIff`).
- The loop retires the head range of a sensor without looking whether another one follows, and reads the head of every
  ranged sensor at the beginning of each tick. If some run with the given times can retire an entry that names a sensor
  no later entry names, such a run reads a head that no longer exists; if none can, no run does
  (`RangeHeads.HeadsReadableIff`). Whatever the times, heads are safe exactly when the last entry names every ranged
  sensor (`RangeHeads.LastNamesAllIff`).
- An automatic abort joins the loop thread from within; the process ends and no abort action is issued
  (`SequenceSafety.AutoAbortIssuesNothing`).
- An abort that raises the stop flag after the loop has reset it leaves it up, and the next run ends without a tick
  (`SequenceSafety.LateAbortSwallowsNextRun`); exactly then is the flag up between runs (`FlagBetweenRuns`).
- A trigger of type `!=`, `>=`, `<=`, `>` or `<` also fires on a new value that is not a number
  (`Triggers.TriggersOnEntryIff`).
- Reading the value of a missing state inserts it without marking it dirty, as adding states does; a mirror misses
  both (`StateControllers.AgreementIff`).
- An unrecognised option byte is meant to skip one message but skips the rest of the frame
  (`LoraFrames.NothingFurther`, with an example in `LoraFrames.UnrecognisedHidesNext`). It costs only that message
  exactly when no used block stands behind an unrecognised one (`LoraFrames.SkipsOneIff`).
- Nothing is escaped in a log line: a comma in a tag value makes it the line of another point
  (`LineReader.SeparatorsAreNotEscaped`).
- A tare changes the live calibration before it finds out that the stored entry lacks a key; then the two differ
  (`Calibrations.TareKeepsAgreementIff`).

## Model

| member | source | states |
|---|---|---|
| SequenceRuns.FinalWriteIsIssued | src/SequenceManager.cpp:183-238 | loading and playing together: in a run past the end, the last value a sequence writes for a step device at a time up to the end time is issued as a command, at the first tick not before that time, when the device's points are spaced at least like the ticks |
| SequenceRuns.KnotIsReached | src/SequenceManager.cpp:183-238 | so is, for a linear device, the last value written at every time but its first, when its later points are spaced at least like the ticks |
| SequenceRuns.StartGroupComesFirst | src/SequenceManager.cpp:183-238 | what a START group sets at 0.0 is the first command of its device, issued in the first tick, at the start time, if nothing sets the device earlier or otherwise at that time |
| SequenceRuns.IssuedIsFinalWrite | src/SequenceManager.cpp:454-520 | every command issued to a step device carries a last-written value of it; overwritten values are never issued |
| SequenceRuns.FinalWriteIff | src/SequenceManager.cpp:233 | a schedule holds a point exactly when it is the last write of the sequence at that device and time |
| SequenceManagers.SequenceManager.SequenceLoop | src/SequenceManager.cpp:395-556 | the loop thread: tick times are on the grid that starts at startTime; a run nobody stops has exactly one tick past endTime; the commands issued and the tables left are those of playing the loaded tables over the ticks; readings were in range before the last tick and one was out of range at it exactly if the automatic abort ended the process; both flags are down when it returns |
| SequenceManagers.SequenceManager.TimedTicks | src/SequenceManager.cpp:395-543 | the timer set up at the start and the while loop carry out the planned run |
| SequenceManagers.SequenceManager.RunTicks | src/SequenceManager.cpp:413-543 | the while loop alone, from a timer that was just initialised; it terminates because deadlines advance by the interval |
| SequenceManagers.SequenceManager.Iteration | src/SequenceManager.cpp:415-541 | one passage: its tick time on the grid, its effect on schedules, ranges and commands, the stop flag raised exactly by passing the end or by an automatic abort |
| SequenceManagers.SequenceManager.NextTime | src/SequenceManager.cpp:415-426 | no wait before the first tick, which is at startTime, a wait to the next deadline before each other one; the stop flag is raised exactly past endTime |
| SequenceManagers.SequenceManager.Tick | src/SequenceManager.cpp:443-541 | one tick: schedules, ranges and commands move on as planned, and the stop flag is raised by an automatic abort exactly when a reading is out of range |
| SequenceManagers.SequenceManager.AdvanceTables | src/SequenceManager.cpp:454-537 | devices and ranges of one tick: both move on as planned, and so do the commands |
| SequenceManagers.SequenceManager.TickDevice | src/SequenceManager.cpp:454-520 | at most one command and at most one point taken off, the same whether the command throws or not |
| SequenceManagers.SequenceManager.TickDevices | src/SequenceManager.cpp:454-520 | every device in its turn, none touched by another's turn |
| SequenceManagers.SequenceManager.AdvanceDevices | src/SequenceManager.cpp:454-520 | one tick takes every schedule from what earlier ticks left to what this one leaves, and appends its commands to the trace |
| SequenceManagers.SequenceManager.TickRanges | src/SequenceManager.cpp:523-537 | retiring the head entry keeps the per-sensor and per-time tables in step |
| SequenceManagers.SequenceManager.CheckSensors | src/SequenceManager.cpp:323-359 | an abort is due exactly when some reading lies outside the head of its sensor's table |
| SequenceManagers.SequenceManager.StartSequence | src/SequenceManager.cpp:243-299 | a sequence starts exactly when none runs, no abort runs and it is accepted; then tables, times and interval are those of the sequence and its modes replace earlier ones; no command is issued and the stop flag is left as it was |
| SequenceManagers.SequenceManager.StartAndRun | src/SequenceManager.cpp:243-299 | from the sequence as sent to the end of its run: a refused or rejected start issues nothing, and an accepted sequence that can run has the ticks, commands and outcome of the plan compiled from it; accepted sequences that cannot run are not covered |
| SequenceStarts.SoundIff | src/SequenceManager.cpp:243-299 | the plan of a started sequence can be carried out exactly when its narrowed interval is not zero, every device is visited once, the last-written values of a linear device never get shorter and no head that is read can be missing |
| SequenceStarts.WideningIff | src/SequenceManager.cpp:558-597 | in a compiled schedule no vector is shorter than an earlier one exactly when that holds of the last writes of its device |
| SequenceStarts.LinearIff | src/SequenceManager.cpp:301-321 | a device of a started sequence is interpolated exactly when the sequence says linear for it, or says nothing and an earlier sequence said linear |
| SequenceManagers.SequenceManager.LoadSequence | src/SequenceManager.cpp:171-241 | loading accepts exactly the accepted sequences and builds exactly the compiled tables |
| SequenceManagers.SequenceManager.LoadGroup | src/SequenceManager.cpp:178-238 | the writes of a group, applied in order |
| SequenceManagers.SequenceManager.LoadAction | src/SequenceManager.cpp:183-237 | the writes of an action at group time plus action time; a text or negative time rejects; SequenceTimes says when that is |
| SequenceManagers.SequenceManager.LoadItems | src/SequenceManager.cpp:205-235 | the writes of the keys of an action |
| SequenceManagers.SequenceManager.LoadItem | src/SequenceManager.cpp:207-234 | a device point or a set of ranges |
| SequenceManagers.SequenceManager.LoadRanges | src/SequenceManager.cpp:209-228 | ranges go to both tables, undeclared sensors to neither, a malformed pair rejects |
| SequenceManagers.SequenceManager.LoadInterpolationMap | src/SequenceManager.cpp:301-321 | modes of the sequence replace those of earlier ones, which otherwise stay; unknown texts mean no interpolation |
| SequencePlans.RunIsComplete | src/SequenceManager.cpp:413-543 | leaving the loop: a run that nobody stopped went exactly one tick past the end, on the grid |
| SequencePlans.UnderwayStep | src/SequenceManager.cpp:413-543 | each passage keeps: the flag is up exactly when the last tick is past the end or an abort is due |
| SequencePlans.ViolatesIff | src/SequenceManager.cpp:330-357 | the check of all readings is the existence of one that is out of range |
| SequencePlans.QuietIsInRange | src/SequenceManager.cpp:330-357 | in a quiet run with automatic aborts every reading of a ranged sensor lies at or above the low and at or below the high bound at its head |
| SequencePlans.AlarmIsOutOfRange | src/SequenceManager.cpp:330-357 | an automatic abort is due only when they are enabled and some reading lies below or above those bounds |
| SequencePlans.QuietIff | src/SequenceManager.cpp:323-359 | a run is quiet exactly when the flag was down and no automatic abort was due at each of its ticks |
| LoopTimers.LoopTimer.Wait | src/utility/LoopTimer.cpp:25-41 | the deadline moves by exactly 1000 clock units for each microsecond of the interval, however late the wake-up; time never runs back; the result reports the 32-bit elapsed time against the tolerance |
| LoopTimers.LoopTimer.Init | src/utility/LoopTimer.cpp:17-23 | all times start at the present one |
| LoopTimers.NarrowedKeeps | src/utility/LoopTimer.cpp:6-15 | intervals below 2 to the 32 are kept, others taken modulo that |
| LoopTimers.RunLength | src/SequenceManager.cpp:413-426 | any run on the grid that goes past the end has exactly one tick past it and, when end >= start, between 2 and (end - start) / interval + 2 ticks; with an earlier end it has one |
| LoopTimers.PunctualRunLength | src/SequenceManager.cpp:413-426 | with every tick punctual the bound is reached |
| LoopTimers.GriddedIsOnGrid | src/utility/LoopTimer.cpp:25-49 | waiting deadline by deadline puts tick k at or after start + k * interval without drift |
| Backlog.BacklogLaw | src/SequenceManager.cpp:516-519 | after tick n a one-point-per-tick schedule has served exactly the minimum over k <= n of points due by tick k plus n - k, capped by n + 1 |
| Backlog.NoBacklogIff | src/SequenceManager.cpp:516-519 | nothing is ever left waiting exactly when at every tick at most one point is newly due |
| Backlog.WellSpacedHasNoBacklog | src/SequenceManager.cpp:516-519 | points spaced at least like the largest tick gap, none before the first tick, never pile up |
| Backlog.ServedWhenDue | src/SequenceManager.cpp:516-519 | without backlog point i is served at tick k exactly when k is the first tick at or after its time |
| Backlog.ServedByEnd | src/SequenceManager.cpp:516-519 | in a run past the end, points spaced at least like the largest tick gap are all served up to the end, each at its first due tick |
| Backlog.ServedStep | src/SequenceManager.cpp:516-519 | one tick serves one point exactly when a due one is left |
| Backlog.DueIsPrefix | src/SequenceManager.cpp:454-460 | the points due by a time are the first ones of the schedule |
| Interpolation.InterpolateLinear | src/SequenceManager.cpp:558-597 | nothing before the first knot, its value if there is no second, the second's from its time on, and between them every component on the straight line: rise is to rise as run to run |
| Interpolation.LinearSamplesInterpolant | src/SequenceManager.cpp:516-519 | every vector a linear device gets lies on the broken line through the knots of the original schedule, told from the knots alone and constant after the last, at the time of its tick or of a knot the tick has passed, and these times never decrease over the run |
| Interpolation.LinearKeepsUp | src/SequenceManager.cpp:558-597 | with later knots spaced like the ticks, every tick from the first knot until the last issues one vector, on the line at the time of the tick or of a knot after the tick before |
| Interpolation.LastKnotIsTakenOff | src/SequenceManager.cpp:569-573 | the tick after the last knot takes it off |
| Interpolation.NothingAfterEnd | src/SequenceManager.cpp:454-460 | a device whose schedule is used up receives nothing more |
| Interpolation.LinearCompleteness | src/SequenceManager.cpp:558-597 | in a run past the end, with later knots spaced like the ticks, every knot up to the end but the first is issued, exactly and at its first due tick |
| Interpolation.LinearServes | src/SequenceManager.cpp:558-597 | a linear device goes past its later knots like the one-per-tick server, and takes one more tick at the last |
| Interpolation.LinearStep | src/SequenceManager.cpp:558-597 | one tick issues a value on the broken line at one time, and later samples cannot lie before it |
| Interpolation.InterpolantIsBrokenLine | src/SequenceManager.cpp:581-594 | the interpolant is the one value on the broken line through the knots, which is told by proportions of the knots alone |
| Interpolation.InterpolantAtKnot | src/SequenceManager.cpp:575-579 | at a knot it is the knot's vector |
| Interpolation.InterpolantIsBracketed | src/SequenceManager.cpp:588-594 | every component of the first of two bracketing knots stays between its values at the two |
| Interpolation.StepEmitsPrefix | src/SequenceManager.cpp:599-612 | a step device has received the first points of its schedule, as many as the one-per-tick server has served |
| Interpolation.StepBacklogLaw | src/SequenceManager.cpp:454-520 | so the count of its commands obeys the backlog law |
| Interpolation.StepCompleteness | src/SequenceManager.cpp:454-520 | in a run past the end, well spaced points up to the end are all issued, each at its first due tick |
| Interpolation.FirstDueTick | src/SequenceManager.cpp:599-612 | without backlog each issued point was issued at its first due tick |
| SequenceTrace.TraceProjects | src/SequenceManager.cpp:454-520 | in the interleaved trace of all devices each device receives exactly what playing its own schedule gives |
| SequenceTrace.StepDeviceReceives | src/SequenceManager.cpp:454-520 | a step device in a whole run receives the served prefix |
| SequenceTrace.LinearDeviceReceives | src/SequenceManager.cpp:454-520 | a linear device in a whole run receives values on the broken line through its knots, at times that never decrease |
| SequenceTrace.TickInOrder | src/SequenceManager.cpp:454-520 | within a tick commands come in the order in which devices are visited, at the time of the tick |
| SequenceTrace.TraceInOrder | src/SequenceManager.cpp:413-520 | over a run no command is earlier than one before it |
| SequenceTrace.EnumeratesIff | src/SequenceManager.cpp:454 | the visiting order contains every device and none twice |
| SequenceTrace.DeviceAdvances | src/SequenceManager.cpp:454-520 | when the turn of a device comes its schedule is as the earlier ticks left it |
| SequenceTables.LoadIsLastWins | src/SequenceManager.cpp:215-218 | after any list of writes into empty tables every key holds its last write |
| SequenceTables.LoadIsDual | src/SequenceManager.cpp:215-218 | after any list of writes the two range tables hold the same (sensor, time, bounds) triples |
| SequenceTables.OrderIsIrrelevantIff | src/SequenceManager.cpp:233 | all orders of a list of writes give the same tables exactly when no two of them differ at the same key |
| SequenceTables.ReorderingKeepsTables | src/SequenceManager.cpp:233 | reordering writes without collision keeps the tables |
| SequenceTables.TablesExtensional | src/SequenceManager.cpp:171-241 | tables are determined by what can be looked up in them |
| Sequences.AcceptedIff | src/SequenceManager.cpp:186-226 | a sequence is accepted exactly when all action times are acceptable and all ranges are pairs |
| Sequences.StampAcceptedIff | src/SequenceManager.cpp:186-200 | an action time is acceptable exactly when it is a number that truncates to no negative number of microseconds, or neither a number nor a text |
| Sequences.NegativeActionIsRejected | src/SequenceManager.cpp:195-200 | one action at minus one microsecond or earlier, or with a text as time, rejects the sequence |
| Sequences.CompiledIsFinalWrites | src/SequenceManager.cpp:171-241 | the compiled tables are sorted, dual, and hold at each key the last write at group time plus action time |
| SequenceTimes.WritesIff | src/SequenceManager.cpp:178-238 | a sequence writes exactly what its items set: each device its values and each declared sensor its range, at the time of its action, and nothing else |
| SequenceTimes.ActionHappens | src/SequenceManager.cpp:362-394 | an action happens its own seconds after the start time in a START group, after the end time in an END group, and after the number of any other group, to within two microseconds; other stamps count as 0 |
| SequenceTimes.KeywordIsExact | src/SequenceManager.cpp:370-377 | at 0.0 in a START or END group it happens exactly at the start or the end of the run |
| SequenceTimes.KeywordItemIsWritten | src/SequenceManager.cpp:183-238 | what such an action sets is written at exactly that time, with its values |
| SequenceTimes.MicrosAreNear | src/utility/utils.cpp:15-18 | seconds become microseconds to within one, towards zero, and whole ones exactly |
| Sequences.ReorderingGroups | src/SequenceManager.cpp:178 | permuting groups without colliding writes gives the same tables |
| Sequences.ReorderingActions | src/SequenceManager.cpp:183 | so does permuting the actions of a group |
| RangeDeclarations.LoadsAsDocumentedIff | src/SequenceManager.cpp:213-220 | with globals.ranges given as an array, as documented, contains answers no for every name; a sequence loads as if it answered yes for the listed ones exactly when the names are given as an object or no action sets a range for a listed name |
| RangeDeclarations.ArrayBringsRangesIff | src/SequenceManager.cpp:213-220 | read as documented an array would bring ranges exactly when an action sets one for a listed name |
| RangeDeclarations.ArrayLosesRange | include/utility/json.hpp:19640-19643 | a sequence that is accepted, sets the range of the one name it lists, and loses it |
| Timeline.PutStores | src/SequenceManager.cpp:233 | assigning at a time in a time-sorted map changes that time only and keeps the order |
| Timeline.Extensional | src/SequenceManager.cpp:233 | time-sorted maps with the same values at all times are equal |
| SequenceRanges.RangePlayInStep | src/SequenceManager.cpp:523-537 | over any ticks the two range tables stay in step, and the entries left are those the one-per-tick server has not retired |
| RangeHeads.HeadsReadableIff | src/SequenceManager.cpp:448-452 | for tables, start, end and interval, and with or without automatic aborts: every head that is read exists in all runs on the grid up to the first tick past the end, exactly when whoever is named by an entry that such a run can retire is named by a later entry |
| RangeHeads.ServedCan | src/SequenceManager.cpp:523-537 | no run with these times retires an entry beyond those that the ticks up to the end can retire |
| RangeHeads.CanBeServed | src/SequenceManager.cpp:523-537 | and each of those is retired in some run with these times |
| RangeHeads.LastNamesAllIff | src/SequenceManager.cpp:523-537 | no head can be missing, whatever the times, exactly when the last time entry names every ranged sensor |
| SequenceRanges.HeadInForce | src/SequenceManager.cpp:523-537 | with entries spaced like the ticks, the head in force at a tick, if there is one, is the first entry later than the tick, or the last one |
| SequenceRanges.InForceIsDocumentedIff | README.md:490-492 | this is the range set last, as documented, exactly from the time of the last entry on |
| SequenceRanges.RangeStep | src/SequenceManager.cpp:523-537 | one tick keeps the two tables in step and leads to the next moment of the play |
| SequenceRanges.HeadsMatch | src/SequenceManager.cpp:529-532 | each sensor named by the retired entry has its own head at the same time |
| SequenceSafety.AtMostOneLoop | src/SequenceManager.cpp:243-299 | in every interleaving of starts, stops and aborts at most one loop thread is live |
| SequenceSafety.EventsAreOrdered | src/SequenceManager.cpp:413-426 | in every interleaving: no tick or command after the loop saw the stop flag, no tick after an abort raised it, every sequence command before every abort command of its run, no activity of a run after a later one started |
| SequenceSafety.AbortActionsOnce | src/SequenceManager.cpp:614-645 | whatever list of abort actions each start brought: those of a run are issued in order, none twice, and all of them once the abort is done |
| SequenceSafety.FlagBetweenRuns | src/SequenceManager.cpp:544-555 | with no loop live the stop flag is up exactly when an abort raised it after the loop's own reset |
| SequenceSafety.LateAbortSwallowsNextRun | src/SequenceManager.cpp:117-137 | the run in which this happens: the sequence started next ends without a tick |
| SequenceSafety.AbortIsCarriedOut | src/SequenceManager.cpp:117-126 | whenever the controlling thread is back from its calls, every abort that raised the flag is done and has issued every abort action of its run, in order and each once |
| SequenceSafety.AbortGoesOn | src/SequenceManager.cpp:117-126 | no step of the controlling thread ends the process, and from raising the flag on each step of an abort leads to the next, whatever the loop does |
| SequenceSafety.NoDeadlock | src/SequenceManager.cpp:614-638 | inside a call the controlling thread or the live loop can always make a step |
| SequenceSafety.MutexIsFree | src/SequenceManager.cpp:444 | the mutex is free whenever a loop or an abort is about to take it |
| SequenceSafety.RejectedIsNotStarted | src/SequenceManager.cpp:254-298 | a rejected sequence starts nothing |
| SequenceSafety.AcceptedIsStarted | src/SequenceManager.cpp:254-298 | an accepted one has a live loop thread three steps later |
| SequenceSafety.AutoAbortIssuesNothing | src/SequenceManager.cpp:339-345 | an automatic abort joins its own thread, ends the process, and none of its abort actions is issued |
| SequenceSafety.AutoAbortHappens | src/SequenceManager.cpp:339-345 | a run in which this happens, in its first tick |
| SequenceSafety.ReachableIsSafe | src/SequenceManager.cpp:117-137 | the invariant behind these holds after every list of steps |
| SequenceThreads.InvStep | src/SequenceManager.cpp:243-299 | every step keeps flags, mutex and handle determined by where the threads are |
| StateControllers.StateController.Store | src/StateController.cpp:99-132 | stores value and time, marks dirty, counts timed writes, answers the old value or NaN |
| StateControllers.StateController.GetStateValue | src/StateController.cpp:141-154 | reading a missing state inserts it as zero and clean; a present one is left as it is |
| StateControllers.StateController.GetDirtyStates | src/StateController.cpp:156-170 | returns exactly the dirty states and cleans them all |
| StateControllers.StateController.AddStates | src/StateController.cpp:75-82 | adds states that are not dirty |
| StateControllers.StateController.AddUninitializedStates | src/StateController.cpp:62-69 | puts the named states to zero and leaves the others |
| StateControllers.AgreementIff | src/StateController.cpp:99-178 | one call keeps a mirror in agreement on all states that are not dirty exactly when it is not a silent change |
| StateControllers.DrainCompletes | src/StateController.cpp:156-170 | right after a drain the mirror is the whole server |
| StateControllers.MirrorAgreement | src/StateController.cpp:99-178 | over any run without silent changes a mirror that started from a snapshot holds value and time of every state that is not dirty, and everything right after a drain |
| EventMirror.CascadeAgreementIff | src/StateController.cpp:99-178 | a write and all it sets off keep a mirror in agreement exactly when every state that has appeared is dirty |
| EventMirror.MirrorFollowsCascades | src/StateController.cpp:99-178 | over any run of writes with their cascades and of drains, a mirror that started from a snapshot agrees at every moment and is complete after a drain, if no event parameter names a state missing at the start |
| EventMirror.SetStateMarks | src/EventManager.cpp:211-234 | after a cascade every state is dirty, as before, or inserted as zero, the last only if a parameter names a missing state |
| Triggers.TriggersOnEntryIff | src/EventManager.cpp:83-209 | firing is the same as entering the range exactly when the new value is a number, the type is ==, or the old value was in range |
| Triggers.OncePerBlock | src/EventManager.cpp:83-209 | in the values that writes find and leave, an event fires at the first value of a maximal block of in-range values that a write starts and at no other value of it, for all six types |
| Triggers.FiringStartsBlock | src/EventManager.cpp:83-209 | it fires at a write of a number exactly when a maximal block starts there |
| Triggers.FiresExactly | src/EventManager.cpp:83-209 | and at a NaN exactly when the type is not == and the value before lay out of range |
| Triggers.UntypedAlwaysTriggers | src/EventManager.cpp:193-208 | without a trigger or with one of an unrecognised type every write triggers |
| Triggers.NaNBetweenNumbersIff | src/EventManager.cpp:83-209 | with a NaN between two numbers a complementary pair still alternates exactly when the numbers lie on the same side, or for == and != when the second is the trigger value |
| EventEngine.EventManager.SetState | src/StateController.cpp:99-139 | the mutually recursive methods terminate for an acyclic mapping and leave exactly the world of the specified cascade |
| EventEngine.EventManager.OnStateChange | src/EventManager.cpp:441-477 | looks up the events and swallows what they throw |
| EventEngine.EventManager.ExecuteCommandOrState | src/EventManager.cpp:360-434 | events in order; an exception drops the rest |
| EventEngine.EventManager.ExecuteEvent | src/EventManager.cpp:388-429 | one triggered event: a state, a command, or an error |
| EventEngine.EventManager.IssueCommand | src/EventManager.cpp:407-425 | arguments, the name of the command, unknown commands ignored; EventEffects says what the command is and receives |
| EventEngine.EventManager.GetArgument | src/EventManager.cpp:211-234 | the value just written if the parameter names the state itself, the value of another state it names, the number it is, or an error |
| EventEngine.EventManager.GetArgumentList | src/EventManager.cpp:236-242 | the arguments in order |
| EventManagers.EdgeShrinks | src/EventManager.cpp:394-401 | following an edge of an acyclic mapping leaves strictly fewer reachable states, which is why the cascade ends |
| EventManagers.RunEventSets | src/EventManager.cpp:394-401 | an event with a state and a value writes a state from which fewer can be reached |
| EventCascade.SetStateFramed | src/EventManager.cpp:360-434 | a write changes, among the states that exist, only itself and what is reachable from it |
| EventCascade.SetStateChained | src/EventManager.cpp:360-434 | through a whole cascade the writes of a state form a chain of old and new values, whoever reads it; the first write of a new state finds nothing unless an event of another state has read it before |
| EventCascade.SetStateSame | src/EventManager.cpp:360-434 | a state neither written nor reachable nor read is not even inserted |
| EventFirings.SetStateBalanced | src/EventManager.cpp:381-386 | through a whole cascade each event of a state fires exactly as often as the writes of the state answer its trigger, whatever the events of other states do |
| EventFirings.FirstFindsNothing | src/StateController.cpp:108-116 | over any run of calls the first write of an absent state finds nothing, if no event of another state reads it or if it is the first state set |
| EventAnswers.EveryWriteIsAnswered | src/EventManager.cpp:360-434 | over any run of calls, cascades included, the log of a state whose events do not throw is its writes, each followed before the next one by exactly the events it triggers, in the order of their list, whatever the events of other states do |
| EventAnswers.FiresAtBlockStarts | src/EventManager.cpp:83-209 | write by write, over any run of calls, cascades included: an event of such a state fires once after a write that starts a maximal block of in-range values and before the next write, and not at all after any other write of a number; what it does at a NaN is stated too |
| EventAnswers.PairFiresAlternately | src/EventManager.cpp:95-202 | over any run of calls, cascades included, that writes numbers to such a state, the firings of two of its events with complementary triggers alternate strictly and tell on which side its value is |
| EventAnswers.UntypedFiresAlways | src/EventManager.cpp:193-208 | an event of such a state without a recognised trigger fires once after every write |
| EventEffects.FiringIsFollowed | src/EventManager.cpp:381-425 | over any run of calls, cascades included: at once after the firing of an event with a known command comes that command, whose arguments are the value just written where a parameter names the state, the value the log tells of another state it names, and the number it is; after the firing of an event that sets a state comes that write, with its value |
| EventEffects.CommandIsCaused | src/EventManager.cpp:381-425 | every command in the log comes at once after such a firing |
| EventOutcomes.SetStateHolds | src/StateController.cpp:99-139 | after a call and its whole cascade the state holds the value and time of the call and is dirty |
| EventOutcomes.AssignmentIsStamped | src/EventManager.cpp:394-401 | a state set by an event carries the time of the clock |
| EventOutcomes.UnusableEndsList | src/EventManager.cpp:388-405 | an event with both a state and a command or neither, with no value or with a bad parameter does nothing, and the events after it do not fire |
| EventOutcomes.ThrowingCommandEndsList | src/EventManager.cpp:423-424 | a command that throws is issued, and the events after it do not fire |
| DefaultCommands.DefaultIsIssued | src/EventManager.cpp:360-425 | writing the gui state of a channel that is not mapped issues exactly one command: that of the channel's type, under the name of the channel, with the value |
| DefaultCommands.SampleDefaults | sample_config/mapping.json:925-942 | in the sample a write to a servo's gui state issues SetTargetPosition with the value, one to a digital output's issues SetState |
| DefaultCommands.ChannelOfGui | src/EventManager.cpp:364-369 | the channel is what stands between gui: and :sensor |
| Texts.ReplacesFirst | src/utility/utils.cpp:58-65 | the first occurrence is replaced and nothing else |
| Texts.ReplacesNothing | src/utility/utils.cpp:58-65 | a text without an occurrence stays as it is |
| EventAnswers.SetStateLeaves | src/EventManager.cpp:360-434 | a cascade neither writes nor fires events of a state that is neither written nor reachable |
| PhaseFlags.FlagsAreIndicator | sample_config/mapping.json:1346-1443 | over any run of writes, flags kept by pairs of == and != events are the indicator of the sensor |
| PhaseFlags.SensorWrite | src/EventManager.cpp:360-434 | one write of the sensor makes every flag right |
| PhaseFlags.OtherWrite | src/EventManager.cpp:360-434 | a write elsewhere leaves sensor and flags alone |
| PhaseFlags.AtMostOneFlag | sample_config/mapping.json:1346-1443 | at most one flag is 1, and it tells the value |
| RocketPhases.RocketFlagsAreIndicator | sample_config/mapping.json:1346-1443 | after any run with a write of rocket:sensor each of its eight flags is 1 exactly when the sensor equals its code |
| RocketPhases.PhaseFiresAlternately | sample_config/mapping.json:1346-1443 | in the sample mapping the == and the != event of each phase of rocket:sensor fire in strict alternation over any run, and the last tells whether the value is the code |
| RocketPhases.SampleMeetsMapping | sample_config/mapping.json:925-1443 | any mapping with the sample's state-setting events, whatever its commands are, is acyclic and leaves the phase flags to rocket:sensor |
| RocketPhases.SampleConfigMeetsMapping | sample_config/mapping.json:925-1443 | there is such a mapping: the sample's state-setting events, the commands they lead to and its default mapping |
| SensorCodec.DecodeOfEncode | src/can/Channel.cpp:91-125 | decoding gives back every representable value of one to four bytes, anywhere in a message, with the right sign |
| SensorCodec.EncodeOfDecode | src/can/Channel.cpp:91-125 | every group of bytes is the encoding of what is decoded from it |
| SensorCodec.BytesCount | src/can/Channel.cpp:91-111 | bytes count 1, 256, 65536 and 16777216 from the first; a set top bit lowers three- and four-byte values by one turn |
| SensorCodec.BitsAreNumbered | src/can/Node.cpp:368-369 | the mask with one bit set at c selects channel c and no other |
| SensorCodec.BitsAreJoined | src/can/Node.cpp:368-369 | joined masks select what either selects, the empty one nothing |
| SensorCodec.ScalingIsLine | include/can/Channel.h:44-52 | scaling is the line with the offset at zero and the slope as its step |
| SensorCodec.PackedMessageDecodes | src/can/Node.cpp:374-403 | a message packed from any set of known channels decodes, at the sum of the widths below, to slope times raw value plus offset for each, and reads stay inside |
| SensorCodec.OffsetMonotone | src/can/Node.cpp:403 | values of different channels do not overlap |
| Nodes.Channel.GetSensorValue | src/can/Channel.cpp:91-125 | the shifts and the sign extension compute the value at the position, scaled; widths other than 1 to 4 throw |
| Nodes.Channel.ResetSensorOffset | src/can/Channel.cpp:218-239 | takes one parameter, subtracts it from the offset, answers the scaling |
| Nodes.Node.AdoptValue | src/can/Node.cpp:374-403 | one channel: its own entry gets value and time, every other stays |
| Nodes.Node.DecodeValues | src/can/Node.cpp:366-416 | the loop over 32 channels: all writes up to the first unknown channel, none after it |
| Nodes.Node.ProcessSensorDataAndWriteToRingBuffer | src/can/Node.cpp:348-416 | for every mask: set channels below the first unknown one get their decoded value and the time at their own entry, all other entries stay, and the call fails exactly when there is an unknown one or the message is no sensor message |
| Nodes.Node.ResetSensorOffset | src/can/Node.cpp:813-838 | moves the zero of one known channel and of no other |
| Nodes.InitChannels | src/can/Node.cpp:163-222 | succeeds exactly when the types at the ranks of all set bits are recognised; channel c then exists exactly when its bit is set, with the width of type number (set bits below c) |
| Nodes.NewNode | src/can/Node.cpp:141-146 | the buffer ends with the highest channel and starts as zeros |
| Nodes.OffsetFollowsTypes | src/can/Node.cpp:163-222 | in a message with all channels the offsets are the widths of the listed types added up in order, as far as these are one to four bytes |
| Nodes.DescribedBoardIsUnderstood | src/can/Node.cpp:348-416 | from the node's own description to the values: any part of the described channels a board packs is read back by the node built from that description, as slope times raw value plus offset of the channel's scaling |
| Nodes.WrittenIsAdopted | src/can/Node.cpp:387 | writing one entry after the other never touches another channel's entry |
| Scaling.SetThenEcho | include/can/Channel.h:54-72 | for every accepted value and slope a: the raw integer fits 32 bits, the echo differs by less than |a|, and sending the echo gives the same integer |
| Scaling.EchoIsExactIff | include/can/Channel.h:98-108 | the echo is exact exactly when the value lies on the raw grid |
| Scaling.SetVariable | src/can/Channel.cpp:162-182 | accepts exactly two scaling numbers, one parameter and a value that fits; the payload is the variable and the raw integer, least significant byte first |
| Scaling.GetSetVariableResponse | include/can/Channel.h:125-140 | the value a payload is echoed as, set again, goes out as the same five bytes |
| Scaling.EchoThenSet | src/can/Channel.cpp:162-182 | every five bytes are the payload of the value they stand for |
| Scaling.SetThenEchoedValue | include/can/Channel.h:125-140 | every accepted value comes back from its five bytes within less than one step, and unchanged exactly when it lies on the raw grid |
| Scaling.PackedConvertsBack | include/can/Channel.h:44-72 | the value read for a channel of a packed message converts back to the integer that was packed, if it fits 32 bits |
| Scaling.FitsIff | include/can/Channel.h:98-108 | a value is accepted exactly when its raw value lies between -2147483648 and 2147483647 |
| Calibrations.CANManager.ResetOffset | src/can/CANManager.cpp:463-489 | the tare command: the live offset moves first, then the stored entry is overwritten as far as its keys go |
| Calibrations.CANManager.InitializeNode | src/can/CANManager.cpp:263-303 | only the first complete description of a node counts; anything unknown leaves no node |
| Calibrations.CANManager.ChannelInfo | src/can/CANManager.cpp:276-294 | the stored scalings of all set channels, or an error |
| Calibrations.CANManager.CreateNode | src/can/CANManager.cpp:296 | a node decodes with its description and these scalings |
| Calibrations.CANMapping.GetChannelObj | src/can/CANMapping.cpp:39-71 | missing keys read as slope 1 and offset 0 |
| Calibrations.LookupReads | src/can/CANMapping.cpp:39-71 | a channel reads slope times raw value plus offset as far as they are stored, and the raw value if neither is |
| Calibrations.CANMapping.SetChannelObj | src/can/CANMapping.cpp:73-78 | both keys must exist; a missing offset leaves the slope already written |
| Calibrations.TareKeepsAgreementIff | src/can/CANManager.cpp:479-482 | a tare keeps live and stored calibration of the channel in agreement exactly when the entry has both keys or nothing moves; other channels are not affected |
| Calibrations.TareAgreement | src/can/CANManager.cpp:463-489 | over any run of descriptions, sensor messages and tares: live and stored calibration agree, the slope never changes, the offset is the initial one minus the sum of the channel's tares |
| Calibrations.TaredReadingIsZero | src/can/Channel.cpp:227-229 | a raw value tared by its own reading reads zero |
| LoraFrames.CANDriverUDP.AsyncListen | src/can/CANDriverUDP.cpp:71-130 | for every configuration and frame: frames of another length are ignored; else what is handed on is what the blocks carry, up to the first unrecognised option or refused message, all reads inside the frame |
| LoraFrames.CANDriverUDP.ReadOption | src/can/CANDriverUDP.cpp:110 | the option byte read is that of the block |
| LoraFrames.CANDriverUDP.ReadBytes | src/can/CANDriverUDP.cpp:115 | the bytes copied are those of the block |
| LoraFrames.Configure | src/can/CANDriverUDP.cpp:21-36 | accepts exactly positive sizes, one for each node, and accumulates the required length in 32 bits, which is that of a frame exactly when the blocks together are shorter than 2 to the 32 |
| LoraFrames.RequiredIsExactIff | src/can/CANDriverUDP.cpp:27 | that length is the length of the blocks exactly when it fits 32 bits |
| LoraFrames.FrameOfOne | include/can/CANDriverUDP.h:24-46 | one option byte before each block; 1 hands the block on, 0 does not, nothing else is recognised |
| LoraFrames.DeliveredAreUsed | src/can/CANDriverUDP.cpp:108-130 | with no message refused, exactly the used blocks before the first unrecognised one are delivered, in order, with node and bytes |
| LoraFrames.NothingFurther | src/can/CANDriverUDP.cpp:124-126 | nothing is delivered after an unrecognised block, because the payload pointer stays on it |
| LoraFrames.SkipsOneIff | src/can/CANDriverUDP.cpp:124-126 | an unrecognised block costs a frame only itself exactly when no used block stands behind one that is not recognised |
| LoraFrames.UnrecognisedHidesNext | src/can/CANDriverUDP.cpp:124-126 | two blocks, an unrecognised one and a used one: the used one is not delivered |
| LoraFrames.BlocksOfFrame | src/can/CANDriverUDP.cpp:108-130 | any row of blocks of the configured sizes can be read off the frame made of it |
| LoraFrames.FrameOfBlocks | src/can/CANDriverUDP.cpp:108-130 | any frame of the required length is made of blocks |
| LogWriter.InfluxDbWriter.LogValue | src/logging/InfluxDbLogger.cpp:40-62 | one line of tag, value and time is added, and the buffer flushed when it reaches the limit |
| LogWriter.InfluxDbWriter.LogMessage | src/logging/InfluxDbLogger.cpp:23-30 | the same with two tags and a message |
| LogWriter.InfluxDbWriter.EndDataPoint | src/logging/InfluxDbWriter.cpp:98-107 | the comma after the last field is dropped, the line ended, a long buffer flushed |
| LogWriter.InfluxDbWriter.Flush | src/logging/InfluxDbWriter.cpp:119-142 | a nonempty buffer is queued and replaced by the last one of the pool, or an empty one |
| LogWriter.EndedPointIsLine | src/logging/InfluxDbWriter.cpp:68-107 | for every list of tags and of fields the calls between start and end of a point leave its line, fields joined by commas |
| LineReader.LineIsRead | src/logging/InfluxDbWriter.cpp:68-107 | a reader of lines gives back measurement, tags, fields and time of every point whose texts hold no separators |
| LineReader.DigitsAreRead | src/logging/InfluxDbWriter.cpp:103 | a number is written in decimal digits, most significant first, without leading zeros |
| LineReader.MessageLine | src/logging/InfluxDbLogger.cpp:23-30 | the line of a message, in full |
| LineReader.ValueLine | src/logging/InfluxDbLogger.cpp:40-62 | the line of a value, in full |
| LineReader.SeparatorsAreNotEscaped | src/logging/InfluxDbWriter.cpp:76-83 | two different points with the same line, because separators are not escaped |
| LogConservation.WriterRefinesBatches | src/logging/InfluxDbWriter.cpp:98-142 | at every moment of every interleaving the queue was fed the texts of the closed batches of points, in order, and the current buffer holds the open batch; pooled buffers are empty |
| LogConservation.LogIsConserved | src/logging/InfluxDbWriter.cpp:119-142 | whatever text a point is written as, its line for one: all queued buffers in order followed by the current one are the texts of all points ever logged |
| LineReader.LoggedPointsAreRead | src/logging/InfluxDbWriter.cpp:119-142 | at every moment the points logged so far, if their texts hold no separators, can be read back in order from the queued buffers and the current one |
| LogConservation.BuffersAreWholeLines | src/logging/InfluxDbWriter.cpp:98-107 | every queued buffer is the texts of one or more points, below the limit without the last; the current buffer is below the limit; pooled ones are empty |
| LogConservation.EveryBufferIsAccountedFor | src/logging/InfluxDbSendThread.cpp:40-46 | each buffer is in the queue, in a sender's hands and among the sent ones together exactly as often as it was queued |
| LogConservation.DrainedMeansAllSent | src/logging/InfluxDbSendThread.cpp:40-46 | when everything is drained, exactly the texts of all points have been sent |
| LogConservation.BatchesArePoints | src/logging/InfluxDbWriter.cpp:98-107 | the batches are the points in the order they were logged |

## Left out

- Sockets, HTTP, UDP and CAN drivers, the Python controller, the file system, the configuration and JSON parsing:
  sequences, mappings and messages start out typed.
- The channel classes (servo, controller, rocket, ...): wrappers around setting and getting variables. A channel type
  is its width, and the widths come from headers that are not part of this model.
- `Node::GetLatestSensorData`, the getters, `AddCommands` and the map of commands: they copy what is already stored.
- `ExecuteRegexCommandOrState`: its only call is commented out.
- `DataFilter`, `matrixMultiply`, debug output, CSV text, timer-sync messages, thread priorities.
- Rounding of floating-point arithmetic and wrap-around of 64-bit times.
- Calibrations.CANManager.ResetOffset: holds what its nodes decode with as values, so sharing of node objects is not
  modelled; the part of the node, Nodes.Node.ResetSensorOffset, is proved on channel objects.
- Calibrations.TareAgreement: is about entries that have slope and offset; for the others TareKeepsAgreementIff says
  exactly when one tare breaks the agreement.
- EventAnswers.EveryWriteIsAnswered: is about states whose own events do not throw, because an exception drops the
  events after it; so are FiresAtBlockStarts and PairFiresAlternately.
- EventAnswers.PairFiresAlternately: is about runs that write numbers to the state; Triggers.NaNBetweenNumbersIff says
  exactly when alternation survives a NaN between two numbers.
- StateControllers.MirrorAgreement: is about runs without silent changes; AgreementIff says exactly which calls break
  the agreement.
- LogConservation.DrainedMeansAllSent: what is still queued at shutdown is not sent, because the senders stop without
  draining; a data point is built in one step, because building it and flushing are not locked against each other.
- SequenceSafety.AtMostOneLoop: one thread calls start, stop and abort; concurrent clients are not modelled.
- SequenceManagers.SequenceManager.SequenceLoop: commands write no states, so it does not run through the event
  cascade.
- The test-only flag of commands: no command of the model looks at it.
- LoraFrames.CANDriverUDP.AsyncListen: a used block longer than the data area of the message buffer is copied beyond it
  in the code, which has no meaning to model; frames in which none is reached are covered.
- SequenceManagers.SequenceManager.SequenceLoop: a head that is missing when it is read has no meaning to model;
  RangeHeads.HeadsReadableIff says exactly when that cannot happen.
- SequenceManagers.SequenceManager.StartAndRun: an accepted sequence outside CanRun is started and run by the code too:
  vectors that get shorter or missing range heads are then read beyond their end, and with a narrowed interval of zero
  only the clock brings the run to its end.
