# A model of the humanoid controller's protocols, latches and schedulers

The controller runs one real-time thread against callbacks, an inference worker,
loggers and a field bus. What keeps the robot safe is not in any one of them but in
the protocols between them. This project models those protocols in Dafny, with the
branches, constants and edge cases of the code, and proves what they promise.

**Asynchronous inference.** `LatestTripleBuffer` and `TripleBufferRuns` model the
lock-free mailbox, alone and under every interleaving. `AsyncInference` puts two of
them between the control thread, the worker and the stopping thread, one step for each
atomic access and each word written into a slot; the policy is any function of the
observation, and the weak compare-exchange may fail at will. `AsyncInferenceSafety`
proves that what is applied is genuine, current and ordered, `AsyncInferenceWakeups`
that no wake-up is lost, `AsyncInferenceAnswers` and `AsyncInferenceCalls` what becomes
of every observation taken and of every call, and `AsyncInferenceProgress` and
`AsyncInferenceSettling` that handling and calls end and where the worker comes to rest.
`PolicySession` holds the packets and the epoch bookkeeping.

**Mode handlers.** `PolicyHandlers` gives one call of the WALK handler and of the
motion-playback handler (DANCE, DOWN, UP) as functions; `AcController` is the same
code changing its fields, actions and joint commands in place, proved equal to them.
`PolicyHandlersSafety` proves what an episode guarantees, from the entry into a policy
to the call that leaves it; `PolicyTransitions` what comes before and after it, UP's
preparation and DOWN's fade, and what every dispatched handler leaves behind;
`PolicyEpisodes`, `PolicyCalls` and `TransitionValues` say in numbers what is commanded,
what one call does, and how long a motion lasts. The
assumption about waiting packets is proved of the inference protocol in
`ReceivedPackets`. `PolicyPlaybackClock` is the clock both use, on 64-bit machine
integers.

**Control.** `ControlStateMachine` is the transition reducer with its run properties,
`RLControllerBase` the control cycle in place (arbitration, debounce, joystick
fallback, stops), `EmergencyStop` the generation-tagged emergency word with its bit
operations, and `ControlCycle` the cycle interleaved with trigger, reset, shutdown,
request and joystick callbacks on that word; `CycleReadings` proves the two cycles
equal, `ControlRequests` what stops do to pending requests, `EmergencyResets` where a
reset's target comes from, and `JoystickLoss` how a cycle without a joystick ends.
`ControlSessions` puts the real handlers and their session into the cycle,
`ControlSessionRuns` proves what holds over every run of such cycles and restarts, and
`SessionExamples` builds concrete runs.

**Hardware.** `CanErrorDetector`, `CanFaultChain` and `CanFaultMonitor` cover the CAN
debounce and its latch, `EthercatWkc` the working-counter window, the cycle tracker
and `rt_ethercat_run`, `E2JointMap` the wiring, `FailClosed` whole runs of
read-command-write-exchange cycles, and `E2HW` those cycles in place.
`SpscRingBuffer` and `SpscRingRuns` are the queue, `MotorFeedback` the feedback stream
through it.

**Schedulers and input.** `LeggedHWLoop` is the absolute deadline grid, `LeggedHWSim`
the simulated delay line, `Digits` and `SbusDecoder` the SBUS bit unpacker,
`CommandDispatcher` the edge-triggered teleoperation commands and their tick.

Conventions. Where the code works in place there is a class whose methods are proved
equal to a function of the old state, and the theorems are about that function or
about runs of it. Clock readings, other threads' values and foreign results (of the
policy and of the parallel-joint solvers) are parameters. Atomics are
sequentially consistent steps. Times are integers in nanoseconds, floating-point
values are real numbers or `NonFinite`. The steady clock does not go back, and a sleep
does not end early. The two lists of joint handles are taken as the same joints.

Three findings. A comment in `DownMode.cpp` says that a DOWN request always finds WALK's
policy active and so runs DOWN's. It only holds its damping, and starts no policy,
exactly when two things come together (`DownRequestHoldsExactly`): the cycle before
left WALK without a policy, by completing DANCE or UP or by losing the joystick after
its handler, and an earlier DOWN has completed without being entered since. Both cases
occur (`SecondDownHoldsAfterAMotion`, `SecondDownHoldsAfterALostJoystick`). Forty
invalid exchanges within a hundred consecutive cycles can pass the monitor whose limit
is twenty (`TwiceTheLimitMayPass`). And a stop empties the request mailbox before it
clears the shutdown flag: a shutdown that arrives between the two is swallowed, and a
START asked before it, but after the mailbox was emptied, is carried out
(`AShutdownMayBeSwallowed`); outside that window no request outlives a stop
(`NoRequestSurvivesAStop`).

## Model

| member | source | states |
|---|---|---|
| `LatestTripleBuffer.TripleBuffer.Publish` | src/legged_rl/rl_controller/rl_controllers/include/rl_controllers/LatestTripleBuffer.h:40-46 | publishing exchanges the back slot with the middle one and reports whether an unread publication was replaced |
| `LatestTripleBuffer.TripleBuffer.ConsumeLatest` | src/legged_rl/rl_controller/rl_controllers/include/rl_controllers/LatestTripleBuffer.h:48-61 | however often the weak compare-exchange fails, a call returns the latest publication exactly when one is unread, and otherwise changes nothing |
| `LatestTripleBuffer.PublishKeepsInv` | src/legged_rl/rl_controller/rl_controllers/include/rl_controllers/LatestTripleBuffer.h:40-46 | after a publication the three indices are still a permutation, the published value is in the middle, and publications equal consumptions plus overwrites plus the unread one |
| `LatestTripleBuffer.TakeKeepsInv` | src/legged_rl/rl_controller/rl_controllers/include/rl_controllers/LatestTripleBuffer.h:48-61 | a consumption hands over exactly the last publication and is newer than every one consumed before |
| `TripleBufferRuns.ConsumptionIsLatestAndStable` | src/legged_rl/rl_controller/rl_controllers/include/rl_controllers/LatestTripleBuffer.h:35-61 | in every interleaving a consumption returns the value published last at its compare-exchange, newer than all before, and no producer step touches it until the next consumption |
| `TripleBufferRuns.SlotsSeparateAndPublicationsConserved` | src/legged_rl/rl_controller/rl_controllers/include/rl_controllers/LatestTripleBuffer.h:35-72 | at every step the slots written, in transit and read are the three different ones, and publications are conserved |
| `AsyncInferenceSafety.AppliedActionsAreGenuine` | src/legged_rl/rl_controller/rl_controllers/src/AcController.cpp:625-659 | in every interleaving of control thread, worker and stopper, each applied vector is the policy's output on exactly one submitted observation, unique by epoch and sequence, with its policy and timestamp, and young enough when checked |
| `AsyncInferenceSafety.AppliedSequencesIncrease` | src/legged_rl/rl_controller/rl_controllers/src/AcController.cpp:880-902 | applications follow the epochs, and within an epoch their sequence numbers strictly increase |
| `AsyncInferenceSafety.ApplicationIsCurrent` | src/legged_rl/rl_controller/rl_controllers/src/AcController.cpp:876-902 | an application happens in the epoch current at that step, raises the applied sequence, and leaves the destination holding that output |
| `AsyncInferenceSafety.ObservationsConserved` | src/legged_rl/rl_controller/rl_controllers/src/inference/PolicyInferenceRuntimeState.cpp:71-83 | every submission was consumed, counted as overwritten (or is about to be), or is still pending |
| `AsyncInferenceAnswers.TakenObservationsAreAnswered` | src/legged_rl/rl_controller/rl_controllers/src/AcController.cpp:637-659 | in every interleaving, when the worker is back in its loop after taking an observation it has published one answer if and only if control was active and the epoch still the observation's when it tested, and none otherwise; the answer is valid exactly when the run was not given up, succeeded and fitted, and then holds the policy's output |
| `AsyncInferenceAnswers.NotificationsAreNoted` | src/legged_rl/rl_controller/rl_controllers/src/AcController.cpp:638-645 | a worker that has taken an observation waits next for notifications later than that |
| `AsyncInferenceCalls.CallsDoWhatTheySay` | src/legged_rl/rl_controller/rl_controllers/src/AcController.cpp:849-903 | in every interleaving, a submission that returns has published one observation with its policy, input, epoch, next number and time; a consumption has taken the newest packet and applied it whole if and only if it passes each test, written out in numbers, or nothing; entries, departures, starts and stops leave exactly the session the code assigns |
| `AsyncInferenceCalls.EmptyHandsMeanEmptyMailbox` | src/legged_rl/rl_controller/rl_controllers/include/rl_controllers/LatestTripleBuffer.h:48-61 | a consumption that comes back without a packet found the mailbox empty at its last look |
| `AsyncInferenceCalls.StartsResetInactive` | src/legged_rl/rl_controller/rl_controllers/src/AcController.cpp:120-145 | a start resets the session only while control is inactive |
| `AsyncInferenceCalls.NotificationsAreCounted` | src/legged_rl/rl_controller/rl_controllers/src/inference/PolicyInferenceRuntimeState.cpp:71-90 | every step advances each generation by at most one, so a lap of the futex word takes 2^32 notifications |
| `AsyncInferenceProgress.HandlingIsBounded` | src/legged_rl/rl_controller/rl_controllers/src/AcController.cpp:637-659 | however the others interleave, the worker is back in its loop after a number of its own steps fixed by the two buffer sizes |
| `AsyncInferenceProgress.CallsAreWaitFree` | src/legged_rl/rl_controller/rl_controllers/src/AcController.cpp:849-867 | submitting, entering, leaving, starting and stopping return after a fixed number of the control thread's own steps, whatever the worker does |
| `AsyncInferenceProgress.LoneConsumptionCountsDown` | src/legged_rl/rl_controller/rl_controllers/include/rl_controllers/LatestTripleBuffer.h:48-61 | a consumption that no other thread interferes with comes nearer to its return with every step |
| `AsyncInferenceSettling.LoneWorkerSettles` | src/legged_rl/rl_controller/rl_controllers/src/AcController.cpp:625-659 | from any state of a run with no notifier under way, the worker left alone comes to rest within a fixed number of steps: exited after a stop, asleep for activation while inactive, else asleep for an observation; and a pending observation of the current epoch has been answered by then |
| `AsyncInferenceSettling.StopsTakeFourSteps` | src/legged_rl/rl_controller/rl_controllers/src/AcController.cpp:497-501 | whatever the others do, the stop deactivates control with its first step, has told the worker to stop after two, and is done after four |
| `ReceivedPackets.ReceivedPacketsAreGenuine` | src/legged_rl/rl_controller/rl_controllers/src/AcController.cpp:870-885 | a packet being looked at that bears the current epoch answers an observation submitted in this epoch, with its timestamp: what the mode handlers rely on |
| `AsyncInferenceWakeups.NoLostWakeup` | src/legged_rl/rl_controller/rl_controllers/src/inference/PolicyInferenceRuntimeState.cpp:90-132 | whenever the worker sleeps although there is news, or although it should stop or start, whoever changed that is still on its way to wake it |
| `AsyncInferenceWakeups.AsleepMeansNothingToDo` | src/legged_rl/rl_controller/rl_controllers/src/inference/PolicyInferenceRuntimeState.cpp:71-107 | with every notifier idle, a worker asleep in the observation wait has a clean mailbox, nothing announced, and control active |
| `AsyncInferenceWakeups.NeverAsleepAfterStop` | src/legged_rl/rl_controller/rl_controllers/src/AcController.cpp:497-510 | once the shutdown wake-up has been made the worker never sleeps again |
| `AsyncInferenceWakeups.SleepsThroughExactlyOnWrap` | src/legged_rl/rl_controller/rl_controllers/src/inference/PolicyInferenceRuntimeState.cpp:93-107 | the futex misses a newer generation exactly when a multiple of 2^32 notifications came between snapshot and wait |
| `PolicyHandlersSafety.CompletesExactly` | src/legged_rl/rl_controller/rl_controllers/src/policies/DanceMode.cpp:147-199 | a motion completes in a call if and only if an earlier call of the episode submitted its final observation, that or a later one copied its answer in the same epoch, and one policy period (saturating) has passed |
| `PolicyHandlersSafety.LateCallsLeave` | src/legged_rl/rl_controller/rl_controllers/src/AcController.cpp:1060-1068 | with a positive timeout every call that tests the age later than the timeout after the final observation leaves the policy, by completion or by DEFAULT |
| `PolicyHandlersSafety.CommandsAreFresh` | src/legged_rl/rl_controller/rl_controllers/src/policies/WalkMode.cpp:35-67 | the joint commands of a continuing call are exactly those of the remembered actions, scaled, and in UP's hand-over mixed with its start actions by the smoothed progress; the actions are the clamped answer copied in this episode and epoch to an observation no older than the timeout when tested, or nothing has been copied and the entry is that recent |
| `PolicyHandlersSafety.CommandsAreBounded` | src/legged_rl/rl_controller/rl_controllers/src/policies/DanceMode.cpp:212-244 | in every continuing call of every policy each commanded position is within the clip bound, scaled, of the joint's default, at rest, without torque, with the policy's gains, whatever the network answered; in UP's hand-over within the larger of that bound and the action it hands over from |
| `PolicyEpisodes.CommandsAreTheAnswer` | src/legged_rl/rl_controller/rl_controllers/src/policies/DanceMode.cpp:212-244 | in every continuing call each joint stands at x times its scale from its default angle, x being the component of the answer applied last, cut off at the clip bound, or zero before any was; in UP's hand-over x is mixed with the seed by the smoothed share of the time passed |
| `PolicyEpisodes.FinalObservationExactly` | src/legged_rl/rl_controller/rl_controllers/src/policies/DanceMode.cpp:166-199 | a call submits the final observation of a motion of n frames if and only if no earlier call of the episode has, UP is not handing over, its poll fires, and n is at most one or (n-1) frames at their frequency have passed since the clock's reset |
| `PolicyEpisodes.ClockIsResetExactly` | src/legged_rl/rl_controller/rl_controllers/src/policies/DanceMode.cpp:245-249 | the clock of a motion is reset when the policy is entered and again only when UP's hand-over ends |
| `PolicyEpisodes.MotionsTakeTheirTime` | src/legged_rl/rl_controller/rl_controllers/src/policies/DanceMode.cpp:147-199 | no motion of n frames completes sooner than (n-1) frames at their frequency and one policy period after the last reset of its clock |
| `PolicyEpisodes.ProgressExactly` | src/legged_rl/rl_controller/rl_controllers/src/policies/UpMode.cpp:64-71 | the progress of a transition is none before it begins, all at its end, and in between the share of its duration that has passed |
| `PolicyCalls.CallsExactly` | src/legged_rl/rl_controller/rl_controllers/src/policies/DanceMode.cpp:138-250 | a call completes exactly when the final answer is applied and its period over, otherwise faults exactly when it needs an observation it cannot have, would command something not a number, or acts on what is older than the timeout, and otherwise goes on, with one more submission at a tick and the packet applied if and only if it passes each test |
| `TransitionValues.EntriesBeginAnew` | src/legged_rl/rl_controller/rl_controllers/src/AcController.cpp:922-945 | entering another policy opens an epoch with nothing applied, zero actions and a clock reset; UP is to be prepared from the measured pose, DOWN forgets its completion and its fade, and nothing else changes |
| `TransitionValues.PreparationBegins` | src/legged_rl/rl_controller/rl_controllers/src/policies/UpMode.cpp:50-62 | the first preparing call takes UP's gains and holds each joint at its measured angle, and the transition counts from then |
| `TransitionValues.PreparationMoves` | src/legged_rl/rl_controller/rl_controllers/src/policies/UpMode.cpp:64-77 | every later one moves each joint on by the share of the duration that has passed, and the one that finds all of it passed is the last |
| `TransitionValues.PreparationEnds` | src/legged_rl/rl_controller/rl_controllers/src/policies/UpMode.cpp:79-106 | the last one hands over with actions that command the first frame exactly and a clock and timeout that begin now, and faults exactly if some joint has no scale |
| `TransitionValues.MisfitsFault` | src/legged_rl/rl_controller/rl_controllers/src/policies/UpMode.cpp:32-48 | a first frame or pose of the wrong size ends UP in DEFAULT with every joint limp |
| `TransitionValues.UpBeginsWhereItIs` | src/legged_rl/rl_controller/rl_controllers/src/policies/UpMode.cpp:7-62 | the call that enters UP commands each joint to where it is |
| `TransitionValues.HoldingExactly` | src/legged_rl/rl_controller/rl_controllers/src/policies/DownMode.cpp:22-61 | a holding call writes, for at most 24 joints, the remembered commands with everything but the position withdrawn, and 0.1 of damping brought in, by the smoothed share of the time passed, ends the fade when all has passed, and without a fade lets every joint go limp |
| `TransitionValues.CompletionExactly` | src/legged_rl/rl_controller/rl_controllers/src/policies/DanceMode.cpp:147-164 | completing DOWN leaves the policy, marks it and fades from the commands in force; completing another motion leaves the policy for WALK and keeps the commands |
| `TransitionValues.PacketsAreAppliedExactly` | src/legged_rl/rl_controller/rl_controllers/src/AcController.cpp:876-902 | a packet is applied whole, with its number and time, if and only if it passes each test written out in numbers |
| `TransitionValues.HandOverEndsExactly` | src/legged_rl/rl_controller/rl_controllers/src/policies/DanceMode.cpp:225-249 | UP's hand-over goes on with the actions it froze until the first call that finds its duration passed, which starts the motion's clock anew at tick 0 |
| `TransitionValues.ModesWithoutAPolicy` | src/legged_rl/rl_controller/rl_controllers/src/RLControllerBase.cpp:637-658 | LIE, STAND and DEFAULT leave the policy if one is active, opening one epoch, write the posture or limp joints, and change nothing else |
| `TransitionValues.RestartsExactly` | src/legged_rl/rl_controller/rl_controllers/src/AcController.cpp:120-158 | a restart opens two epochs without a policy, forgets sequences, actions, preparation, hand-over and fade, and keeps the joints' commands, the playback clock and DOWN's mark |
| `PolicyHandlersSafety.LeavingAbandonsTheEpoch` | src/legged_rl/rl_controller/rl_controllers/src/policies/DanceMode.cpp:147-223 | leaving a policy always starts a new epoch; a fault goes to DEFAULT with the DEFAULT command on every joint, a completion never does |
| `PolicyTransitions.PreparationLeadsToAnEpisode` | src/legged_rl/rl_controller/rl_controllers/src/policies/UpMode.cpp:7-108 | from UP's entry on every call still prepares, or finishes in a state where an episode may start, its timeout and clock counting from then, or faults |
| `PolicyTransitions.HandOverIsContinuous` | src/legged_rl/rl_controller/rl_controllers/src/policies/UpMode.cpp:50-106 | the call that applies the gains commands exactly the measured pose, the call that finishes commands exactly frame zero, and the seeded actions the hand-over starts from command frame zero again |
| `PolicyTransitions.FadeOnlyTakesAuthority` | src/legged_rl/rl_controller/rl_controllers/src/policies/DownMode.cpp:39-56 | DOWN's fade keeps the position, never raises stiffness, velocity or torque, keeps the damping between the last command's and the hold's, begins with the last command and ends in pure damping |
| `PolicyTransitions.CompletionFadesTheLastCommand` | src/legged_rl/rl_controller/rl_controllers/src/policies/DownMode.cpp:63-81 | the call that completes DOWN begins the fade with the very commands it found on the joints and writes commands of that fade |
| `PolicyTransitions.HoldingFadesOn` | src/legged_rl/rl_controller/rl_controllers/src/policies/DownMode.cpp:22-61 | every later holding call goes on from the same commands, until the progress is complete and only then ends the fade |
| `PolicyTransitions.DispatchRunsEpisodes` | src/legged_rl/rl_controller/rl_controllers/src/RLControllerBase.cpp:637-658 | in every state of an episode, unless DOWN only holds, the handler the mode dispatches to is the call the episode theorems are about |
| `PolicyTransitions.HandlersKeepTheContract` | src/legged_rl/rl_controller/rl_controllers/src/RLControllerBase.cpp:637-658 | every dispatched handler, with its preparation, hold and fade, keeps its mode, or leaves DANCE and UP for WALK, or WALK and the motions for DEFAULT, and leaves every joint limp whenever it is in DEFAULT |
| `ControlSessions.WholeCycleIsCycle` | src/legged_rl/rl_controller/rl_controllers/src/RLControllerBase.cpp:573-630 | a cycle with the real handlers in it is the cycle of the base class on the same readings, with the handler's effect and its answer about UP filled in |
| `ControlSessions.RestartsBeginAnew` | src/legged_rl/rl_controller/rl_controllers/src/AcController.cpp:120-158 | a restart leaves nothing started and no policy, in DEFAULT, in a later epoch, and keeps the times of accepted requests |
| `ControlSessionRuns.WalkWithoutPolicyExactly` | src/legged_rl/rl_controller/rl_controllers/src/RLControllerBase.cpp:610-630 | over every run of cycles and restarts, WALK finds no policy active at the request test exactly when the event before completed DANCE or UP, or lost the joystick after its handler |
| `ControlSessionRuns.MarkIsHistory` | src/legged_rl/rl_controller/rl_controllers/src/policies/DanceMode.cpp:153-163 | DOWN's mark is set exactly while an earlier DOWN has completed and has not been entered again, restarts included |
| `ControlSessionRuns.DownRequestHoldsExactly` | src/legged_rl/rl_controller/rl_controllers/src/policies/DownMode.cpp:7-20 | a DOWN request accepted in WALK only holds, and starts no policy, if and only if the event before left WALK without a policy as above and an earlier DOWN has completed without being entered since; otherwise it enters DOWN's policy |
| `ControlSessionRuns.UpNeedsACompletedDown` | src/legged_rl/rl_controller/rl_controllers/src/AcController.cpp:476-481 | every entry into UP comes from a DOWN that holds after its completion |
| `ControlSessionRuns.StopsLeaveThePolicy` | src/legged_rl/rl_controller/rl_controllers/src/policies/DefaultMode.cpp:12-16 | whenever a run is in DEFAULT, LIE or STAND no policy is active, and the epoch is beyond that of every policy active before |
| `ControlSessionRuns.NoAnswerSurvivesAStop` | src/legged_rl/rl_controller/rl_controllers/src/AcController.cpp:876-963 | an answer to an observation of any epoch up to a stop is refused by every handler afterwards, restarts included |
| `SessionExamples.AnEpisodeCompletes` | src/legged_rl/rl_controller/rl_controllers/src/policies/DanceMode.cpp:147-199 | a concrete motion of one frame is entered, ends, is answered and completes: the episodes of the theorems exist |
| `SessionExamples.SecondDownHoldsAfterAMotion` | src/legged_rl/rl_controller/rl_controllers/src/policies/DownMode.cpp:7-20 | a DOWN request that only holds, as a run of nine cycles from the first start: a DOWN completes, then a DANCE completes into WALK |
| `SessionExamples.SecondDownHoldsAfterALostJoystick` | src/legged_rl/rl_controller/rl_controllers/src/RLControllerBase.cpp:624-629 | the same without a motion in between, as a run of seven cycles: a DOWN completes, WALK is entered and the joystick is lost after its handler |
| `AcController.Controller.ApplyActionPacket` | src/legged_rl/rl_controller/rl_controllers/src/AcController.cpp:876-902 | the packet is copied and recorded when all its tests pass, and otherwise nothing changes |
| `AcController.Controller.EnterPolicyMode` | src/legged_rl/rl_controller/rl_controllers/src/AcController.cpp:922-945 | entering another policy starts an epoch, clears the actions and rewinds the playback; entering the active one changes nothing |
| `AcController.Controller.HandleWalkMode` | src/legged_rl/rl_controller/rl_controllers/src/policies/WalkMode.cpp:9-68 | one call in place is the function the episode theorems are about |
| `AcController.Controller.HandleMotionMode` | src/legged_rl/rl_controller/rl_controllers/src/policies/DanceMode.cpp:138-250 | one call in place is the function the episode theorems are about |
| `AcController.Controller.HandleDownCompletionDamping` | src/legged_rl/rl_controller/rl_controllers/src/policies/DownMode.cpp:22-61 | one call in place is the step of the fade the theorems are about |
| `AcController.Controller.HandleUpMode` | src/legged_rl/rl_controller/rl_controllers/src/policies/UpMode.cpp:7-108 | one call in place, preparation included, is the function the theorems are about |
| `AcController.Controller.HandleDefaultMode` | src/legged_rl/rl_controller/rl_controllers/src/policies/DefaultMode.cpp:12-16 | the policy is left and the DEFAULT command is written to every joint |
| `AcController.Controller.DispatchControlMode` | src/legged_rl/rl_controller/rl_controllers/src/RLControllerBase.cpp:637-658 | the dispatch in place, over all seven handlers, is the one the runs of whole cycles are about |
| `AcController.Controller.ClampActions` | src/legged_rl/rl_controller/rl_controllers/src/policies/DanceMode.cpp:212-215 | every action is clamped to the configured bound, in place |
| `AcController.Controller.Starting` | src/legged_rl/rl_controller/rl_controllers/src/AcController.cpp:120-145 | a start begins an epoch, clears sequence numbers, timestamps, actions, preparation, hand-over and fade, keeps DOWN's mark, and only then activates the worker and notifies it |
| `AcController.Controller.Stopping` | src/legged_rl/rl_controller/rl_controllers/src/AcController.cpp:147-158 | a stop deactivates and notifies the worker, and then begins an epoch without a policy |
| `PolicyPlaybackClock.TakeRefinesRule` | src/legged_rl/rl_controller/rl_controllers/include/rl_controllers/PolicyPlaybackClock.h:22-41 | a poll at any time fires exactly when the whole periods since the reset are beyond the last fired tick, and the next deadline stays on the absolute grid, saturation included |
| `PolicyPlaybackClock.FiresOncePerPeriod` | src/legged_rl/rl_controller/rl_controllers/include/rl_controllers/PolicyPlaybackClock.h:22-41 | in any sequence of polls at one period no tick fires twice, however early, late or repeated the polls are |
| `PolicyPlaybackClock.DeadlinesAreOnTheGrid` | src/legged_rl/rl_controller/rl_controllers/include/rl_controllers/PolicyPlaybackClock.h:30-40 | after any polls the next deadline is the grid point after the last tick, or the largest 64-bit time if there is none |
| `PolicyPlaybackClock.LastIsHighest` | src/legged_rl/rl_controller/rl_controllers/include/rl_controllers/PolicyPlaybackClock.h:28-33 | the remembered tick is the highest that has fired |
| `PolicyPlaybackClock.PlaybackClock.TakeTick` | src/legged_rl/rl_controller/rl_controllers/include/rl_controllers/PolicyPlaybackClock.h:22-41 | the code on 64-bit integers computes exactly the rule, with no intermediate value out of range |
| `ControlStateMachine.TraceKeepsSafe` | src/legged_rl/rl_controller/rl_controllers/src/core/ControlStateMachine.cpp:17-122 | control that is not started is in DEFAULT or LIE, over every run of requests, disconnects, stops and handler changes |
| `ControlStateMachine.LocomotionNeedsStartLieStandWalk` | src/legged_rl/rl_controller/rl_controllers/src/core/ControlStateMachine.cpp:17-122 | from any state not started, WALK, DANCE, DOWN or UP is reached only by an accepted START into LIE, then STAND from LIE, then WALK from STAND, in that order, started ever since |
| `ControlStateMachine.StoppedLeavesDefaultOnlyByPosition` | src/legged_rl/rl_controller/rl_controllers/src/core/ControlStateMachine.cpp:71-80 | not started does not imply DEFAULT: exactly the POSITION request leaves it |
| `ControlStateMachine.RequestsFollowTheEdges` | src/legged_rl/rl_controller/rl_controllers/src/core/ControlStateMachine.cpp:17-106 | a request is accepted exactly along an edge of the written-out diagram and then follows it: START stops a started controller from anywhere and starts a stopped one into LIE, and so on for every mode, flag and request |
| `ControlStateMachine.RequestsReportTheirEdge` | src/legged_rl/rl_controller/rl_controllers/src/core/ControlStateMachine.cpp:17-106 | every accepted request reports the event of its edge, a rejected one none |
| `ControlStateMachine.RequestsAskExactly` | src/legged_rl/rl_controller/rl_controllers/src/core/ControlStateMachine.cpp:17-106 | the interpolation restarts on the way into LIE and from LIE into STAND, the observation history in every locomotion mode, the motion in DANCE, DOWN and UP, and nothing otherwise |
| `ControlStateMachine.FallbackExactly` | src/legged_rl/rl_controller/rl_controllers/src/core/ControlStateMachine.cpp:108-122 | a lost joystick takes a motion to WALK, leaves WALK, and stops everything else |
| `ControlStateMachine.RejectedHasNoSideEffect` | src/legged_rl/rl_controller/rl_controllers/src/core/ControlStateMachine.cpp:17-106 | a rejected request asks for nothing and changes nothing |
| `RLControllerBase.SelectedIsFirstEligible` | src/legged_rl/rl_controller/rl_controllers/src/RLControllerBase.cpp:497-518 | the selected request is pending, allowed and debounced, and no request before it in the fixed order is |
| `RLControllerBase.SaferRequestsWin` | src/legged_rl/rl_controller/rl_controllers/src/RLControllerBase.cpp:494-518 | a request is selected if and only if it is due, with its own debounce time, and no request of a lower place in the written-out order of safety is; none is selected if and only if none is due |
| `RLControllerBase.AcceptancesAreDebounced` | src/legged_rl/rl_controller/rl_controllers/src/RLControllerBase.cpp:354-365 | over any run of cycles two acceptances of one request are further apart than its debounce time: 500 ms for START, 800 ms for the switch, 50 or 200 ms for the others |
| `RLControllerBase.CycleStops` | src/legged_rl/rl_controller/rl_controllers/src/RLControllerBase.cpp:537-635 | a cycle that reads a stop at any of its tests ends stopped with the DEFAULT command on every joint |
| `RLControllerBase.StartStopsAStartedCycle` | src/legged_rl/rl_controller/rl_controllers/src/RLControllerBase.cpp:467-530 | a START that is due in a started cycle ends it stopped with every joint limp, whatever else is pending and whatever handler and joystick do |
| `RLControllerBase.CycleKeepsSafe` | src/legged_rl/rl_controller/rl_controllers/src/RLControllerBase.cpp:537-635 | every cycle keeps: not started implies DEFAULT or LIE |
| `RLControllerBase.Controller.ProcessControlRequests` | src/legged_rl/rl_controller/rl_controllers/src/RLControllerBase.cpp:467-530 | the arbitration loop applies the transition of the selected request and remembers its acceptance |
| `RLControllerBase.Controller.HandleDefaultMode` | src/legged_rl/rl_controller/rl_controllers/src/policies/DefaultMode.cpp:5-10 | the DEFAULT command is written to every joint and nothing else changes |
| `RLControllerBase.Controller.Update` | src/legged_rl/rl_controller/rl_controllers/src/RLControllerBase.cpp:573-630 | the cycle in place is the function the theorems are about, and a stop it reads leaves it held |
| `ControlCycle.ResetSucceedsExactly` | src/legged_rl/rl_controller/rl_controllers/src/RLControllerBase.cpp:398-428 | a reset succeeds if and only if an emergency is latched and a multiple of 2^31 triggers came since the callback read the word; below 2^31, if and only if none did |
| `ControlCycle.LatchedExactlySinceLastReset` | src/legged_rl/rl_controller/rl_controllers/src/RLControllerBase.cpp:398-428 | the latch bit is set exactly when a trigger has taken effect since the last successful reset, also across the wrap of the count |
| `ControlCycle.StopDominates` | src/legged_rl/rl_controller/rl_controllers/src/RLControllerBase.cpp:573-630 | a cycle with an emergency latched or a shutdown pending at its start, or arriving before its last test of that kind, ends stopped with the DEFAULT command everywhere, even if a reset succeeded in it |
| `ControlCycle.StopsInTimeHold` | src/legged_rl/rl_controller/rl_controllers/src/RLControllerBase.cpp:573-630 | the same over runs: a trigger that takes effect anywhere before a cycle's last load of the emergency word, or a shutdown requested anywhere before its last exchange of the flag, ends that cycle in DEFAULT, not started, with every joint limp |
| `ControlCycle.StopsBeforeTheCycleHold` | src/legged_rl/rl_controller/rl_controllers/src/RLControllerBase.cpp:573-612 | so does a cycle that begins with a trigger later than the last successful reset, or with a shutdown pending |
| `ControlCycle.CyclesFollowTheStateMachine` | src/legged_rl/rl_controller/rl_controllers/src/RLControllerBase.cpp:537-635 | whatever callbacks interleave with the cycles, motion after a stop has gone through a pending START, LIE, STAND and WALK |
| `ControlRequests.PendingIsHistory` | src/legged_rl/rl_controller/rl_controllers/src/RLControllerBase.cpp:368-388 | a request is pending if and only if it was asked and no arbitration, stop, joystick fallback or restart has emptied the mailbox since |
| `ControlRequests.ShutdownIsHistory` | src/legged_rl/rl_controller/rl_controllers/src/RLControllerBase.cpp:384-388 | a shutdown is pending if and only if it was asked for and no test has taken it, and no stop or restart cleared it, since |
| `ControlRequests.NoRequestSurvivesAStop` | src/legged_rl/rl_controller/rl_controllers/src/RLControllerBase.cpp:564-630 | from the end of the cycle in which a trigger takes effect, whatever resets do, each request the arbitration looks at was asked after it; a shutdown has the same effect unless it falls between the two stores of a stop under way |
| `ControlRequests.MotionNeedsALaterStart` | src/legged_rl/rl_controller/rl_controllers/src/RLControllerBase.cpp:467-630 | so after a trigger that stopped the robot, or a shutdown outside that window, it moves again only by a START asked later |
| `ControlRequests.AShutdownMayBeSwallowed` | src/legged_rl/rl_controller/rl_controllers/src/RLControllerBase.cpp:384-388 | the window is real: a concrete run in which a START asked before the last shutdown starts the robot after it |
| `EmergencyResets.ResetsAreFresh` | src/legged_rl/rl_controller/rl_controllers/src/RLControllerBase.cpp:415-428 | a compare-exchange uses the word that a callback, having read it latched, stored after every earlier cycle that took or dropped a target: no reset is carried forward to a later emergency |
| `EmergencyResets.ReadsAreStoredOnce` | src/legged_rl/rl_controller/rl_controllers/src/RLControllerBase.cpp:194-202 | a reset callback has a word to store if and only if it read that word latched and has not stored it since |
| `JoystickLoss.StatusIsHistory` | src/legged_rl/rl_controller/rl_controllers/src/RLControllerBase.cpp:977-981 | the two joystick flags hold what the callbacks reported since the last restart |
| `JoystickLoss.LostJoystickFallsBack` | src/legged_rl/rl_controller/rl_controllers/src/RLControllerBase.cpp:594-635 | a cycle whose joystick is reported gone when it makes its last operation ends in WALK or with every joint limp in DEFAULT, whenever in the cycle the report came |
| `CycleReadings.CycleIsItsReadings` | src/legged_rl/rl_controller/rl_controllers/src/RLControllerBase.cpp:573-630 | whatever callbacks run between its operations, a cycle from its first test to its end does to the thread's state exactly what the cycle in place does with the values it read, with a handler effect that keeps the contract |
| `CycleReadings.StartStopsARunningCycle` | src/legged_rl/rl_controller/rl_controllers/src/RLControllerBase.cpp:573-630 | the same for a cycle that callbacks interleave with in any way |
| `EmergencyStop.LatchingKeepsLatched` | src/legged_rl/rl_controller/rl_controllers/src/RLControllerBase.cpp:398-408 | every trigger leaves the latch bit set and moves the generation on by one modulo 2^31, also across the wrap of the word |
| `EmergencyStop.EmergencyWord.LatchEmergencyStop` | src/legged_rl/rl_controller/rl_controllers/src/RLControllerBase.cpp:398-408 | the compare-exchange loop with its bit operations latches, however often it fails |
| `EmergencyStop.EmergencyWord.RequestReset` | src/legged_rl/rl_controller/rl_controllers/src/RLControllerBase.cpp:194-202 | the callback's target is the very word it has seen latched, and stays as it was otherwise |
| `EmergencyStop.EmergencyWord.ResetIfRequested` | src/legged_rl/rl_controller/rl_controllers/src/RLControllerBase.cpp:415-428 | a reset uses up its target and clears the latch bit alone, exactly when the word has not changed since it was read |
| `CanErrorDetector.MonitorIsHistory` | src/legged_rl/legged_robot/e2_hw/legged_e2_hw/include/CanErrorDetector.h:203-235 | each streak is the trailing run of bad or good samples cut off at its limit, and the state is faulted exactly when a long enough bad run has had no long enough good run since |
| `CanErrorDetector.EventsAreTransitions` | src/legged_rl/legged_robot/e2_hw/legged_e2_hw/include/CanErrorDetector.h:219-235 | a Fault event is raised exactly when, from normal, the bad run reaches its limit, a recovery dually, with the right contents |
| `CanErrorDetector.EventsAlternate` | src/legged_rl/legged_robot/e2_hw/legged_e2_hw/include/CanErrorDetector.h:203-235 | a channel's events alternate, beginning with a fault, and their parity is the state |
| `CanFaultChain.SweepIsPerChannel` | src/legged_rl/legged_robot/e2_hw/legged_e2_hw/include/CanErrorDetector.h:162-173 | a sweep treats each enabled channel once, on its own counter and monitor, and no other |
| `CanFaultChain.MasksAreHistory` | src/legged_rl/legged_robot/e2_hw/legged_e2_hw/include/CanErrorDetector.h:83-126 | the active mask is the set of enabled channels faulted now, the latched mask the set of those ever faulted, as functions of the samples alone |
| `CanFaultMonitor.CanFaultLatch.Absorb` | src/legged_rl/legged_robot/e2_hw/legged_e2_hw/include/CanErrorDetector.h:86-107 | a fault enters both masks, a recovery leaves only the active one, an unknown channel changes nothing |
| `CanFaultMonitor.Detector.Configure` | src/legged_rl/legged_robot/e2_hw/legged_e2_hw/include/CanErrorDetector.h:144-159 | zero sample counts become one, unknown channels are masked off, all monitors start anew |
| `CanErrorDetector.ConfiguredExactly` | src/legged_rl/legged_robot/e2_hw/legged_e2_hw/include/CanErrorDetector.h:144-159 | where no sample is asked for one decides, and exactly the nine known channels can be watched |
| `CanFaultChain.EventsMarkTheirChannel` | src/legged_rl/legged_robot/e2_hw/legged_e2_hw/include/CanErrorDetector.h:86-107 | an event marks the channel it names and no other: a fault as active and latched, a recovery as no longer active, an unknown channel not at all |
| `CanFaultMonitor.Detector.Update` | src/legged_rl/legged_robot/e2_hw/legged_e2_hw/include/CanErrorDetector.h:162-173 | the loop over the channels with the latch as its sink is the sweep |
| `EthercatWkc.ExceedsExactly` | src/legged_rl/legged_robot/e2_hw/legged_e2_hw/include/EthercatWkcMonitor.h:21-36 | observing returns true exactly when the errors so far in the aligned window, this one included, exceed the limit |
| `EthercatWkc.DenseErrorsAreNoticed` | src/legged_rl/legged_robot/e2_hw/legged_e2_hw/include/EthercatWkcMonitor.h:21-36 | more than twice the limit within any window length of consecutive cycles is noticed by the last of them |
| `EthercatWkc.ReportsHaveACause` | src/legged_rl/legged_robot/e2_hw/legged_e2_hw/include/EthercatWkcMonitor.h:21-36 | every report has more than the limit within at most a window of consecutive cycles before it |
| `EthercatWkc.TwiceTheLimitMayPass` | src/legged_rl/legged_robot/e2_hw/legged_e2_hw/common/rt_ethercat.cpp:33-37 | the factor two is exact for the configured hundred cycles and twenty errors: forty may pass |
| `EthercatWkc.LatchIsHistory` | src/legged_rl/legged_robot/e2_hw/legged_e2_hw/common/rt_ethercat.cpp:393-427 | the fault latch is set exactly when some window so far exceeded the limit, never clears, and its event is raised once |
| `EthercatWkc.DenseErrorsLatch` | src/legged_rl/legged_robot/e2_hw/legged_e2_hw/common/rt_ethercat.cpp:412-424 | more than forty invalid cycles within a hundred leave the fault latched at the end of every longer run |
| `EthercatWkc.LatchHasACause` | src/legged_rl/legged_robot/e2_hw/legged_e2_hw/common/rt_ethercat.cpp:412-419 | a latched fault had more than twenty invalid cycles within a hundred |
| `EthercatWkc.SnapshotIsHistory` | src/legged_rl/legged_robot/e2_hw/legged_e2_hw/include/EthercatCycleSnapshot.h:45-79 | the snapshot holds the last exchange and the counts of all: sequence numbers, time of the last valid one, totals, and the trailing invalid run saturated at 2^32-1 |
| `EthercatWkc.NothingExchanged` | src/legged_rl/legged_robot/e2_hw/legged_e2_hw/include/EthercatCycleSnapshot.h:18-32 | before the first exchange nothing is valid, latched or counted |
| `EthercatWkc.ShutdownsLeaveNoTrace` | src/legged_rl/legged_robot/e2_hw/legged_e2_hw/include/EthercatCycleSnapshot.h:81-86 | wherever shutdown marks fall among the exchanges, a mark shows as invalid data until the next exchange, whose snapshot is the one there would be without any mark |
| `EthercatWkc.ShutdownsKeepCounts` | src/legged_rl/legged_robot/e2_hw/legged_e2_hw/include/EthercatCycleSnapshot.h:81-86 | through any number of shutdown marks the counts stay those of the exchanges |
| `EthercatWkc.EthercatWkcMonitor.ObserveCycle` | src/legged_rl/legged_robot/e2_hw/legged_e2_hw/include/EthercatWkcMonitor.h:21-36 | the counters in place are the monitor of the theorems |
| `EthercatWkc.RtEthercat.Run` | src/legged_rl/legged_robot/e2_hw/legged_e2_hw/common/rt_ethercat.cpp:393-427 | one exchange composes monitor, latch and tracker as the theorems assume |
| `E2JointMap.TableIsBijection` | src/legged_rl/legged_robot/e2_hw/legged_e2_hw/include/E2JointMap.h:19-28 | the joint table is a bijection between the joints and the motors of the five groups |
| `E2JointMap.WordsAgreeWithTable` | src/legged_rl/legged_robot/e2_hw/legged_e2_hw/src/E2HW.cpp:1052-1080 | every joint is packed into exactly one motor word, with the group and slot of the joint table |
| `FailClosed.GateIsHistory` | src/legged_rl/legged_robot/e2_hw/legged_e2_hw/src/E2HW.cpp:964-981 | a cycle's commands are replaced exactly when the exchange before it was missing or invalid, or a bus fault, a CAN fault (its own read included) or a spoiled image lies in its past |
| `FailClosed.CanFaultFailsClosed` | src/legged_rl/legged_robot/e2_hw/legged_e2_hw/src/E2HW.cpp:846-872 | from the write of the cycle whose read completes a CAN fault, every image is all zero or damping, whatever recovers |
| `FailClosed.DenseBusErrorsFailClosed` | src/legged_rl/legged_robot/e2_hw/legged_e2_hw/src/E2HW.cpp:964-981 | more than forty invalid exchanges within a hundred stop the commands of every later cycle |
| `FailClosed.InvalidExchangeFailsClosed` | src/legged_rl/legged_robot/e2_hw/legged_e2_hw/src/E2HW.cpp:971-981 | the image after an invalid exchange is all zero or damping |
| `FailClosed.NonFiniteZeroesThenFailsClosed` | src/legged_rl/legged_robot/e2_hw/legged_e2_hw/src/E2HW.cpp:999-1034 | a value that is not finite in single precision zeroes the whole image at once and every later image is zero or damping |
| `FailClosed.NothingElseCloses` | src/legged_rl/legged_robot/e2_hw/legged_e2_hw/src/E2HW.cpp:984-997 | with none of these causes in its past, a cycle writes for each joint its desired position less the offset and its desired velocity, with the commanded gains and feedforward on a direct joint, and no gains and the solver's torque on a parallel one |
| `FailClosed.ImagesAreWhole` | src/legged_rl/legged_robot/e2_hw/legged_e2_hw/include/PvtCommandSafety.h:16-25 | an image is zero throughout or encodable throughout, never partly zeroed |
| `FailClosed.ZeroedExactly` | src/legged_rl/legged_robot/e2_hw/legged_e2_hw/src/E2HW.cpp:984-1034 | the image is zeroed exactly when some value does not fit single precision: behind a closed gate only a measured position or a solver's torque can be such a value, with an open gate all that is passed on |
| `FailClosed.ClosedGateFailsClosed` | src/legged_rl/legged_robot/e2_hw/legged_e2_hw/src/ParallelJoint.cpp:277-313 | whatever feedforward the parallel solvers compute, a closed gate gives damping on direct joints and no gains or velocity on parallel ones |
| `E2HW.Hardware.Read` | src/legged_rl/legged_robot/e2_hw/legged_e2_hw/src/E2HW.cpp:840-872 | the counters are looked at only after a valid exchange, and faults latch before the write |
| `E2HW.Hardware.FindInvalid` | src/legged_rl/legged_robot/e2_hw/legged_e2_hw/src/E2HW.cpp:999-1017 | the nested scan finds the first motor, in group order, whose command does not encode, or none |
| `E2HW.Hardware.Write` | src/legged_rl/legged_robot/e2_hw/legged_e2_hw/src/E2HW.cpp:964-1034 | damping, solving, mapping, checking and zeroing in place give the image of the theorems, and a first non-finite latch names its motor |
| `E2HW.Hardware.Cycle` | src/legged_rl/legged_robot/e2_hw/legged_e2_hw/src/E2HW.cpp:824-872 | a whole cycle in place is one step of the runs the theorems are about |
| `SpscRingRuns.AcceptedIsPoppedThenQueued` | src/legged_rl/legged_base/legged_common/include/legged_common/SpscRingBuffer.h:17-35 | in every interleaving, with stale copies of both indices, what was accepted is what was popped followed by what is queued, at most one less than the capacity |
| `SpscRingRuns.SlotsSeparate` | src/legged_rl/legged_base/legged_common/include/legged_common/SpscRingBuffer.h:17-35 | the slot being written is never readable and never the one being copied |
| `SpscRingRuns.RefusalsAreExact` | src/legged_rl/legged_base/legged_common/include/legged_common/SpscRingBuffer.h:17-35 | a push is refused exactly when the ring is full as it looks at the tail, a pop finds nothing exactly when it is empty as it looks at the head |
| `SpscRingRuns.PushesAppendOrAreRefused` | src/legged_rl/legged_base/legged_common/include/legged_common/SpscRingBuffer.h:17-25 | whatever the consumer does meanwhile, a push that has returned has appended its value, or was refused by a ring that was full when it looked |
| `SpscRingRuns.PopsTakeTheOldestOrNothing` | src/legged_rl/legged_base/legged_common/include/legged_common/SpscRingBuffer.h:27-35 | a pop that has returned has taken one value, or found the ring empty when it looked |
| `SpscRingRuns.CallsAreWaitFree` | src/legged_rl/legged_base/legged_common/include/legged_common/SpscRingBuffer.h:17-35 | each of its own steps brings a push or pop nearer to its return, and no step of the other thread takes it back |
| `SpscRingBuffer.Ring.Push` | src/legged_rl/legged_base/legged_common/include/legged_common/SpscRingBuffer.h:17-25 | a push appends unless the ring holds one less than its capacity |
| `SpscRingBuffer.Ring.Pop` | src/legged_rl/legged_base/legged_common/include/legged_common/SpscRingBuffer.h:27-34 | a pop removes the oldest value unless the ring is empty |
| `MotorFeedback.AcceptedIsMarked` | src/legged_rl/legged_robot/e2_hw/legged_e2_hw/src/E2HW.cpp:773-821 | the queued stream marks exactly its own changes of validity, drops included |
| `MotorFeedback.EdgesAreNotLost` | src/legged_rl/legged_robot/e2_hw/legged_e2_hw/src/E2HW.cpp:776-821 | after each call the queue ends with the cycle's validity or a drop was counted, and every decimated sample is queued or counted |
| `MotorFeedback.DueAreQueuedOrCounted` | src/legged_rl/legged_robot/e2_hw/legged_e2_hw/src/E2HW.cpp:773-821 | every decimation-th sample, from the first on, and every sample whose validity is not that of the one queued last is queued or counted as dropped, and no other is |
| `MotorFeedback.PublicationIsStutterEquivalent` | src/legged_rl/legged_robot/e2_hw/legged_e2_hw/src/E2HW.cpp:683-700 | however drains cut the queued stream, the published validity is stutter equivalent to it and all transitions are published in order |
| `MotorFeedback.DrainEndsWithTheLatest` | src/legged_rl/legged_robot/e2_hw/legged_e2_hw/src/E2HW.cpp:686-700 | a drain that pops anything ends with the last sample popped, and all it publishes before are transitions |
| `MotorFeedback.TransitionsSpellValidity` | src/legged_rl/legged_robot/e2_hw/legged_e2_hw/src/E2HW.cpp:776-779 | the transitions alone spell the validity of the whole stream without repetitions |
| `MotorFeedback.FeedbackQueue.EnqueueSample` | src/legged_rl/legged_robot/e2_hw/legged_e2_hw/src/E2HW.cpp:773-821 | the call in place, on the real ring, is the producer of the theorems; an edge that found no room is not acknowledged |
| `MotorFeedback.FeedbackQueue.Drain` | src/legged_rl/legged_robot/e2_hw/legged_e2_hw/src/E2HW.cpp:686-700 | the drain loop empties the ring and publishes the coalesced samples |
| `LeggedHWLoop.DeadlinesAreOnTheGrid` | src/legged_rl/legged_base/legged_hw/src/LeggedHWLoop.cpp:204-216 | the deadline of cycle n is base plus n+1 plus all expired slots, times the period |
| `LeggedHWLoop.CyclesStartInTheirSlot` | src/legged_rl/legged_base/legged_hw/src/LeggedHWLoop.cpp:199-262 | every cycle starts within the period that ends at its deadline |
| `LeggedHWLoop.OneCyclePerSlot` | src/legged_rl/legged_base/legged_hw/src/LeggedHWLoop.cpp:199-262 | each cycle has its own slot of the grid, and exactly the slots counted as expired have none |
| `LeggedHWLoop.NoCatchUpBurst` | src/legged_rl/legged_base/legged_hw/src/LeggedHWLoop.cpp:201-211 | cycles j and k start more than k-j-1 periods apart, however late any cycle was |
| `LeggedHWLoop.MissesAreReported` | src/legged_rl/legged_base/legged_hw/src/LeggedHWLoop.cpp:235-237 | a deadline is reported missed exactly when a slot before had no cycle or the work outlasted its own |
| `LeggedHWLoop.HWLoop.Update` | src/legged_rl/legged_base/legged_hw/src/LeggedHWLoop.cpp:199-262 | the update in place computes that deadline, the elapsed time, the report and whether to sleep |
| `LeggedHWSim.AppliedIsFirstDue` | src/legged_rl/legged_base/legged_gazebo/src/LeggedHWSim.cpp:133-157 | for times that do not go back since the reset, the applied command is the earliest of the whole history not older than the delay, or the newest if all are, although the queue has forgotten entries |
| `LeggedHWSim.AppliedAge` | src/legged_rl/legged_base/legged_gazebo/src/LeggedHWSim.cpp:143-156 | for a non-negative delay the applied command is stamped within it; for a negative one it is the one just given |
| `LeggedHWSim.EffortCorrects` | src/legged_rl/legged_base/legged_gazebo/src/LeggedHWSim.cpp:150-157 | the effort is the feedforward for a joint that does what is desired and falls by the gains with every deviation |
| `LeggedHWSim.TimeGoingBackIsVisible` | src/legged_rl/legged_base/legged_gazebo/src/LeggedHWSim.cpp:138-146 | without that order the property fails: a concrete history |
| `LeggedHWSim.DelayLine.WriteSim` | src/legged_rl/legged_base/legged_gazebo/src/LeggedHWSim.cpp:133-157 | the queue in place, with its loop, is the queue of the theorems |
| `SbusDecoder.ChannelIsQuotient` | src/legged_rl/rl_controller/rl_controllers/src/rl_controllers_teleop/sbus_decoder.py:29-47 | channel i of an accepted frame is (N / 2048^i) mod 2048, N being the number its bytes 1 to 22 spell, lowest first |
| `SbusDecoder.PackUndoesDecode` | src/legged_rl/rl_controller/rl_controllers/src/rl_controllers_teleop/sbus_decoder.py:29-47 | packing the decoded channels gives the payload back |
| `SbusDecoder.DecodeUndoesPack` | src/legged_rl/rl_controller/rl_controllers/src/rl_controllers_teleop/sbus_decoder.py:14-47 | any sixteen channels of eleven bits, packed, decode to themselves |
| `SbusDecoder.AcceptsExactly` | src/legged_rl/rl_controller/rl_controllers/src/rl_controllers_teleop/sbus_decoder.py:14-27 | a frame is accepted exactly when length, header and footer are right and flag bits 2 and 3 are clear |
| `CommandDispatcher.DiscreteExactly` | src/legged_rl/rl_controller/rl_controllers/src/rl_controllers_teleop/command_dispatcher.py:51-67 | a discrete command is selected exactly when one of its buttons has changed, it matches, and it did not match when one of them last changed |
| `CommandDispatcher.RisingEdgeExactly` | src/legged_rl/rl_controller/rl_controllers/src/rl_controllers_teleop/command_dispatcher.py:38-69 | for a chord of distinct buttons that tolerates others, skipping is invisible: it runs exactly when it matches now and did not at the call before |
| `CommandDispatcher.AloneIsNoRisingEdge` | src/legged_rl/rl_controller/rl_controllers/src/rl_controllers_teleop/command_dispatcher.py:20-22 | a command that must be pressed alone is no rising edge: a concrete pair of inputs |
| `CommandDispatcher.OthersExactly` | src/legged_rl/rl_controller/rl_controllers/src/rl_controllers_teleop/command_dispatcher.py:55-62 | continuous commands run whenever they match, commands without buttons never |
| `CommandDispatcher.TicksRunEdgesOnly` | src/legged_rl/rl_controller/rl_controllers/src/rl_controllers_teleop/ros_teleop.py:115-140 | over ticks, such a command runs exactly on an edge between two consecutive valid ticks, so start-up and recovery run nothing |
| `CommandDispatcher.ContinuousRunsOrIsZeroed` | src/legged_rl/rl_controller/rl_controllers/src/rl_controllers_teleop/ros_teleop.py:117-146 | a continuous command is sent zero without a signal, and with a standing one either runs or is sent zero |
| `CommandDispatcher.TeleopNode.CommandsToRun` | src/legged_rl/rl_controller/rl_controllers/src/rl_controllers_teleop/command_dispatcher.py:38-69 | the loop over the commands is the selection of the theorems |
| `CommandDispatcher.TeleopNode.OnTick` | src/legged_rl/rl_controller/rl_controllers/src/rl_controllers_teleop/ros_teleop.py:115-146 | the tick in place is the tick of the theorems |

## Left out

- Policy inference statistics, timing samples, traces, analysis and event messages: diagnostics that nothing in the protocols reads.
- Observation vectors, their history buffer and the last-action record: the observation is an arbitrary sequence and its failure an input.
- Submissions that do not fit the preallocated buffers are modelled in AsyncInference, where they submit nothing, but not in PolicyHandlers.
- In AcController and PolicyHandlers all policies drive the same joints and share one action vector, cleared at each entry.
- Interpolation in LIE and STAND, which gives ControlSessions an arbitrary posture, state estimation and velocity commands: not part of the mode logic.
- The 250 ms release gap of enqueueControlRequest: a request is pending or it is not.
- Request, event, channel and enabled masks are sets; their words have a bit for every member.
- Sequence numbers, epochs, cycle and error counters of 64 bits are natural numbers; the 32-bit futex word, the 31-bit emergency count, the saturating 32-bit streak and the 64-bit clock are modelled with their widths.
- Memory orders weaker than sequential consistency are not modelled.
- The waiting loops and the worker's loop are steps of AsyncInference, not loops in a method, because their meaning is in the interleaving; a compare-exchange loop of the emergency word is one step of ControlCycle.
- AsyncInferenceWakeups.NoLostWakeup: assumes fewer than 2^32 notifications between the worker's snapshot and its wait, which SleepsThroughExactlyOnWrap shows to be the exact need of the futex word.
- The reset hooks that starting calls are null for every registered policy.
- ControlSessions runs whole cycles with arbitrary readings at each test; the callbacks behind the readings are in ControlCycle, and CycleIsItsReadings ties the two.
- starting is one step of ControlCycle; its effect on the session is in PolicySession and AcController.
- PolicyHandlersSafety.CommandsAreFresh: ages are compared when the code tests them, not when the bus sends the command.
- Encoding of commands into motor words, unpacking of feedback, temperatures and IMU data: only which word carries which joint is modelled.
- The rounding of double arithmetic: single-precision overflow is decided on the exact value.
- The threads that consume fault events, log, publish and write files.
- ROS parameters, topics, actions and services, serial ports and hot-plug, channel mapping and configuration files: input and output without a hard property.
- ONNX Runtime, the parallel-joint solvers and SOEM are not part of this model; they appear as arbitrary results.
