# RGB matrix verification

A Dafny 4.11 model of the keypaw RGB matrix module for ZMK, with proofs of the properties its design relies on.
The module keeps the RGB state of two keyboard halves consistent and renders layered effects on one worker thread.
Verify everything with `dafny verify dfyconfig.toml`.

What is modelled, by file:

- **Commands and state.** `Commands`, `Canonical`: relative commands are resolved on the central into absolute ones that
  mean the same on every half. `Items`, `Publication`: the replicated state as separately transferable items, and the
  generation counter that moves exactly when the state does. `ControlPlane`, `OverlayState`: the same operations in place,
  as the code performs them, refining those functions.
- **Split replication.** `Replication` (generation, outstanding count, repair epoch), `SyncWalk` and `SyncWorker` (the
  worker's cursor, polling, slots and deadlines), `SplitProtocol` (one central, one FIFO link and one replica per
  peripheral; every critical section under the matrix mutex or a spinlock is one step), `Convergence`, `Repairs`,
  `Histories`, `Crossings` and `Lapses` (theorems over all runs).
- **Coordinator.** `Scheduling` (one function and one method per critical section), `InputRing`, and `Coordinator` (requesters,
  two-step producers, power setters and the handler, interleaved at their lock boundaries).
- **Scene.** `Conditions` (liveness, faults, evaluation), `SelectorLifecycle`, `ScenePass` and `Layers`
  (callback histories of effects, overlays and both together), `Composition` (painting and the occlusion shortcut), `Battery`.
- **Time-integrating arithmetic.** `Roots`, `Cooling`, `KeyHeat`, `Heatmap`, `Reactive`, `Stepping`, `Rain`, `Starlight`,
  `DigitalRain`. Random numbers are an arbitrary sequence; C's truncating division, its remainder and unsigned wrap-around
  are written out where they matter.
- **Persistence.** `Persist`: the stored record.

`Arith`, `Indices`, `Options` and `Board` hold what these share.

Where the code updates state in place there is a class or an array method whose postcondition equates the new state with a
function of the old one; the lemmas are about those functions. In the concurrent parts a `Step` function gives the meaning
of each critical section, and the classes (`Tracker`, `Worker`, `Scheduler`, `Ring`) implement the same functions in place.

Some results say where an ideal stops being true of the code:

- Cadence independence of heatmap and reactive holds for the arrays over any cuts of an interval, but the engine pauses an
  instance's clock after a frame in which nothing is lit. `Heatmap.PausedClockAnchors` and `Reactive.PausedClockAnchors`
  give the exact condition under which such a frame shows: it left nothing lit, and the next press lights something and is
  rendered later than its timestamp. For reactive without multi this holds for any number of presses, of which the last
  decides (`Reactive.PausedClockAnchorsTheLast`). `LatePressAfterDarkShows` reaches the difference from a reset effect.
- A frame of rain or starlight in which more than eight trials are due differs from unit-by-unit time, and only then
  (`Stepping.FrameIsExactIff`, `Rain.NineStepsShow`, `Starlight.NineTrialsShow`). A digital rain frame differs when it lasts
  at least the head's first nine crossing times, and only then (`DigitalRain.AdvancedIsExactIff`, `NinthRecycleShows`). The
  columns of digital rain draw from one generator, so cadence independence is a statement about each column's own numbers.
- A peripheral can fall out of step noticed or silently. Overlapping invocations can do it even when every message is
  delivered and every callback succeeds: exactly when two of their commands clash, that is, write a common item
  differently (`Canonical.ExchangeIff`, `Crossings.CrossedPairKeepsStepIff`, `Crossings.OrderIsIrrelevantIff`). Overlaps
  and failed callbacks always ask for a repair, and nothing else does (`Histories.RepairsMarkIrregularHistories`). Three
  things do it silently, with no repair owed and no replay started until a later repair or reconnect: a message the
  transport refuses while its callback succeeds, a local change outside any invocation, and an outage that ends before a
  poll notices it (`Lapses.RefusalLapsesSilently`, `LocalChangeLapsesSilently`, `OutageLapsesSilently`). The last also
  limits what an accepted walk means: `Convergence.AcceptedWalkHasConverged` holds unless the peripheral was lost during
  the walk without being noticed. `Lapses.QuietHistoriesKeepStepIff` shows that there is no other silent way in histories
  where nothing interferes in the middle of an invocation, except changes that its message, once taken, overwrites;
  `Crossings.EarlierChangesHealIff` gives the exact condition for any changes before the application.

## Model

| member | source | states |
|---|---|---|
| Commands.HsbRoundTrip | src/rgb_selector.c:226-229 | unpacking a packed hue/saturation/brightness word gives back the colour |
| Commands.MemberCommandRoundTrip | src/rgb_selector.c:195-197 | a member command carries opcode and slot without loss and never looks like a marked one |
| Commands.CalcIndexRange | src/rgb_selector.c:28-34 | the index arithmetic with C's truncating remainder is addition modulo the member count, for every delta |
| Commands.ResetSelectorEffect | src/overlays/overlay.c:168-178 | a selector reset replaces exactly that selector by its configured defaults and initial slot, and publishes if and only if something changed |
| Commands.DispatchAddressed | src/rgb_selector.c:202-236 | an in-range addressed command stores the addressed colour or period in the addressed member, whatever was there |
| Items.ItemsDetermineState | src/rgb_split_sync.c:234-300 | brightness, power, gate words, member colours and periods and selections together are the whole replicated state |
| Items.WireSetsItem | src/rgb_split_sync.c:234-300 | applying the message sent for an item gives any replica the central's value of it and leaves every other item alone |
| Publication.MutationsArePublished | src/rgb_replication.c:35-51 | every way of changing replicated state (command, refresh, restore, selection) moves the generation if and only if the state changed |
| Publication.ChangesSet | src/rgb_settings.c:79-98 | a refresh, a restore and a selection set exactly what they name, a restored slot out of range becoming the initial one |
| Publication.DispatchPublishes | src/rgb_selector.c:202-236 | the same for every command dispatched to a selector, accepted or refused |
| Publication.GenerationIrrelevant | src/behavior_rgb_matrix.c:119-172 | what a command does to the state does not depend on the generation counter |
| Canonical.ConversionIsStable | src/rgb_selector.c:110-200 | a successful conversion yields an absolute command that converts to itself on any half with the same configuration |
| Canonical.ConvertedCommandsAgree | src/behavior_rgb_matrix.c:77-172 | two halves applying the same converted command agree on every item it addresses and keep every other item |
| Canonical.RefusedCommandsChangeNothing | src/behavior_rgb_matrix.c:119-172 | a converted command whose argument the callback refuses changes nothing on any half |
| Canonical.ExchangeIff | src/behavior_rgb_matrix.c:119-172 | two converted commands may be applied in either order, on any half, if and only if they write no common item differently |
| Canonical.ClashIgnoresState | src/behavior_rgb_matrix.c:119-172 | whether two converted commands clash does not depend on the half's state or their order, so it can be told from the commands |
| Canonical.AppliedAlikeIff | src/behavior_rgb_matrix.c:119-172 | a converted command brings two halves to the same state if and only if it writes every item on which they differ |
| Canonical.ConversionPreservesEffect | src/behavior_rgb_matrix.c:77-117 | on the converting half the absolute command does what the relative one would have done, marked for transport or not |
| Canonical.ColorCommandsStep | src/rgb_selector.c:152-169 | hue commands move the selected member around the wheel, saturation commands stop at 0 and 100, and nothing else changes |
| Canonical.SetColorCommand | src/rgb_selector.c:182-192 | a colour command gives the selected member exactly the colour of its word when that is in range, and changes nothing otherwise |
| Canonical.SetPeriodCommand | src/rgb_selector.c:170-197 | a speed command with an argument sets the selected member's period to it when that is in range, and changes nothing otherwise |
| Canonical.ControlAccepts | src/behavior_rgb_matrix.c:77-117 | exactly which commands the matrix endpoint converts |
| Canonical.SelectorAccepts | src/rgb_selector.c:110-200 | exactly which commands a selector converts |
| Canonical.ControlCommandsSet | src/behavior_rgb_matrix.c:119-172 | brightness, on, off, gate word and clock commands set exactly what they name |
| Canonical.ResetsSet | src/behavior_rgb_matrix.c:119-172 | a full reset restores everything configured and keeps the gates, an overlay reset that overlay alone, and both refuse an argument |
| Canonical.PeriodCommandsStep | src/rgb_selector.c:170-181 | speed commands step the selected member's period within the configured range and change nothing else |
| Canonical.SelectionCommandsStep | src/rgb_selector.c:146-151 | next and previous move the selection one place around the ring of members |
| Canonical.GlobalCommandsStep | src/behavior_rgb_matrix.c:60-75 | brightness steps within 0 to 100 and toggle inverts the user's intent |
| Canonical.HueWraps | src/rgb_selector.c:155-158 | the hue arithmetic with C's remainder and its correction is reduction modulo 360 |
| Canonical.NextThenPrevious | src/rgb_selector.c:28-34 | next and previous are inverse on every selector, including one with a single member |
| ControlPlane.Half.Store | src/rgb_matrix.c:684-690 | storing parameters in place publishes a difference and only a difference |
| ControlPlane.Half.SetColor | src/rgb_matrix.c:673-692 | colours out of range are refused without effect; hue 360 is stored as 0 |
| ControlPlane.Half.SetPeriod | src/rgb_matrix.c:694-709 | periods out of range are refused without effect |
| ControlPlane.Half.Select | src/rgb_selector.c:63-79 | selecting in place reports whether the selection changed, and refuses a missing slot without effect |
| ControlPlane.Half.ApplyDefaults | src/rgb_selector.c:47-61 | the loop over members leaves every one at its default, numbering each change |
| ControlPlane.Half.Reset | src/overlays/overlay.c:168-178 | resetting a selector in place is the selector reset whose exact effect is proved above |
| ControlPlane.Half.ResetEverything | src/rgb_settings.c:184-194 | the reset command in place sets the globals and every selector as the reset the other half computes |
| ControlPlane.Half.Restore | src/rgb_settings.c:79-98 | loaded settings replace globals and selections, an unknown slot becoming the initial one |
| ControlPlane.Half.SetGateWord | src/rgb_overlay_state.c:30-41 | a received gate word is stored, and published when it differs |
| ControlPlane.Half.Dispatch | src/rgb_selector.c:202-236 | dispatching in place returns the error and leaves the state of the dispatch that the convergence proof uses |
| Replication.Tracker.EffectChanged | src/rgb_replication.c:41-51 | a change to an effect is published once if the effect belongs to any selector, and otherwise not |
| Replication.Tracker.Begin | src/rgb_replication.c:70-87 | beginning marks the binding and counts it; an overlap makes the period exceptional; a marked, missing or overflowing one is refused |
| Replication.Tracker.Finish | src/rgb_replication.c:89-109 | finishing a marked binding uncounts it, publishes, and raises the repair epoch when an exceptional period ends |
| Replication.RepairEpochCountsExceptionalPeriods | src/rgb_replication.c:70-109 | over every history of begins and finishes the repair epoch equals the number of finished busy periods holding an overlap or a failure |
| SyncWalk.AdvanceMovesOn | src/rgb_split_sync.c:192-232 | a successful send moves the cursor to the next item of the snapshot, or ends the walk at the last one |
| SyncWalk.PositionInjective | src/rgb_split_sync.c:192-232 | different items have different places in the walk |
| SyncWalk.WalkSendsEachItemOnce | src/rgb_split_sync.c:192-232 | a walk from the start sends every item of the snapshot exactly once and then ends |
| SyncWorker.ServedWithinRotation | src/rgb_split_sync.c:404-420 | a slot that stays due is served within one full rotation, whatever else is due |
| SyncWorker.ServedInProportion | src/rgb_split_sync.c:376-426 | a slot whose due times come and go is served once per rotation's worth of due passes, after one rotation for each pass that held it back |
| SyncWorker.Worker.Poll | src/rgb_split_sync.c:117-161 | polling sets every source from its presence and a change of transport, resetting the walk on each edge |
| SyncWorker.Worker.ConsumeRepair | src/rgb_split_sync.c:357-374 | consuming a repair leaves every seen source pending and touches no other |
| SyncWorker.Worker.AttemptState | src/rgb_split_sync.c:302-333 | an attempt captures the generation once, keeps the cursor on failure, and accepts a finished walk only when generation, outstanding count and repair epoch all still agree |
| SyncWorker.Worker.TakeSlot | src/rgb_split_sync.c:345-355 | the first due slot around the ring is taken: an even one only for a seen pending source that is ready and paced, an odd one only for a clock that is due, and none only when no source meets either condition |
| SyncWorker.Worker.ServeOne | src/rgb_split_sync.c:393-419 | a pass sends at most one thing, the state item of an even slot or the clock of an odd one, and changes nothing else |
| SyncWorker.PolledSource | src/rgb_split_sync.c:117-161 | a newly found source starts a whole walk after the settle delay, a lost one has nothing due, and the others are left alone |
| SyncWorker.ConsumedSource | src/rgb_split_sync.c:357-374 | a repair gives an idle source a whole walk, no sooner than it was ready, and lets a walk under way go on |
| SyncWorker.AttemptedSource | src/rgb_split_sync.c:302-333 | a failed send is repeated with the same item a second later, an accepted one moves on by one, and a finished walk starts over unless nothing was published, outstanding or owed meanwhile |
| SyncWorker.Worker.AttemptClock | src/rgb_split_sync.c:335-343 | the next clock correction is due one period after this one returned, failed or not |
| SyncWorker.Worker.NextDeadline | src/rgb_split_sync.c:376-391 | no slot becomes due before the deadline, and something is due at it; every step of the worker keeps the clock deadlines of seen sources positive |
| SplitProtocol.StepKeepsInv | src/rgb_split_sync.c:302-333 | every step of the protocol (change, begin, forward, finish, deliver, poll, consume, bind, send, judge, outage at any moment) keeps the invariant relating generation, cursor and drained replica |
| SplitProtocol.DrainedDeliver | src/rgb_split_sync.c:163-176 | delivering the oldest message does not change the state the replica is going to have |
| Convergence.RunKeepsInv | src/rgb_split_sync.c:393-426 | the invariant holds after every run of the protocol |
| Convergence.AcceptedWalkHasConverged | src/rgb_split_sync.c:321-332 | in every interleaving, when a finished walk is accepted the replica, once its link has drained, equals the central's current state, unless the peripheral was lost or restarted during the walk between two polls |
| Convergence.UnnoticedMeansLost | src/rgb_split_sync.c:117-161 | the protocol's mark for such an outage is exactly that: lost while observed, with no missed poll, transport change or new walk since |
| Convergence.SettledSourceIsConverged | src/rgb_split_sync.c:321-332 | and it stays equal for as long as nothing is published, no invocation is outstanding and no outage goes unnoticed |
| Convergence.OutstandingCountsLiveInvocations | src/rgb_replication.c:70-109 | the outstanding count is always the number of marked bindings still to finish |
| Convergence.QuietWalkIsAccepted | src/rgb_split_sync.c:302-333 | with nothing outstanding and no unconsumed repair, a fresh walk that nothing interrupts is accepted and leaves the replica in step |
| Convergence.QuietWalkOutcome | src/rgb_split_sync.c:321-332 | an uninterrupted walk is accepted exactly when its captured generation is still the central's, and restarted otherwise; accepted, it leaves the replica in step unless an outage during it went unnoticed |
| Repairs.CalmRun | src/rgb_split_sync.c:302-333 | through any traffic that leaves the central alone and does not start the peripheral over, each accepted send brings a repair exactly one step nearer its end and nothing sets it back |
| Repairs.RepairConverges | src/rgb_split_sync.c:302-374 | from any reachable resting state with nothing outstanding and no outage gone unnoticed in the walk under way, consuming the repair and the accepted sends of at most two walks end accepted and in step, whatever deliveries, clocks, polls, failed sends and other peripherals' traffic lie in between |
| Repairs.RepairTakesBoundedPasses | src/rgb_split_sync.c:376-426 | while such a repair is unfinished, its state slot has been due at fewer passes than two walks, its failed sends and the passes that held it back account for |
| Convergence.IsolatedInvocationKeepsStep | src/rgb_replication.c:70-109 | an invocation that overlaps no other keeps a replica in step if and only if its message was taken or changes nothing; only a failed callback owes a repair, and no replay starts |
| Convergence.LocalChangeKeepsStep | src/rgb_replication.c:35-51 | a change outside any invocation keeps a replica in step if and only if it changes nothing, owes no repair and starts no replay |
| Convergence.OutageKeepsStep | src/rgb_split_sync.c:117-161 | a peripheral lost or restarted is in step if and only if it comes back with the central's state; until a poll notices, ledger and sources show nothing |
| Crossings.OrderIsIrrelevantIff | src/behavior_rgb_matrix.c:119-172 | a set of converted commands leaves a half in the same state in every order if and only if no two of them clash |
| Crossings.CrossedPairKeepsStepIff | src/rgb_replication.c:70-109 | two invocations forwarded in one order and applied in the other keep a replica in step if and only if their commands do not clash, whatever lies between |
| Crossings.CompatibleOverlapsKeepStep | src/rgb_replication.c:70-109 | any number of overlapping invocations keep a replica in step when all messages are taken and no two of them clash |
| Crossings.EarlierChangesHealIff | src/rgb_replication.c:70-109 | other changes of the central before it applies a message that was taken leave the replica in step if and only if the message writes every item they moved |
| Crossings.AnyPairCanCross | src/rgb_replication.c:70-109 | any two commands can cross with everything delivered and successful; the replica is then in step if and only if they do not clash, and one repair is owed either way |
| Crossings.OverlapCanDivergeAndAsksForRepair | src/rgb_replication.c:70-109 | two different brightness levels are such a pair |
| Histories.TakenAndMadeDecide | src/rgb_overlay_state.c:119-135 | without replay and restarts, replica and central are in step if and only if the messages taken and the changes made lead to the same state, whatever overlaps, refusals and failures lie behind them |
| Lapses.QuietHistoriesKeepStepIff | src/rgb_replication.c:70-109 | through a history that asks for no repair, and in which nothing interferes in the middle of an invocation but changes its message, once taken, overwrites, a replica stays in step at every quiet moment if and only if no change that moves the central goes without a taken message and no outage brings the peripheral back with another state |
| Lapses.RefusalLapsesSilently | src/rgb_overlay_state.c:124-132 | from any in-step state a refused message with a successful callback ends out of step, with no repair owed and no walk due that was not due before |
| Lapses.LocalChangeLapsesSilently | src/rgb_settings.c:79-98 | so does restoring settings that change the brightness |
| Lapses.OutageLapsesSilently | src/rgb_split_sync.c:117-161 | so does a restart of an observed peripheral between two polls |
| Lapses.DispatchRestoresStepIff | src/rgb_overlay_state.c:82-135 | after a refresh, when the transport takes every dispatched word, a replica is back in step if and only if each word the mirror skips is one the replica already holds |
| Histories.RepairsMarkIrregularHistories | src/rgb_replication.c:70-109 | over any run that ends with nothing outstanding the repair epoch has moved if and only if two invocations overlapped or one failed |
| Scheduling.RequestMeans | src/rgb_matrix.c:234-242 | a request loses nothing pending and is served at once unless a pass runs or nothing can be served yet |
| Scheduling.StartMeans | src/rgb_matrix.c:244-255 | control is started once, with requests to evaluate and to repaint |
| Scheduling.EvaluationMeans | src/rgb_matrix.c:409-427 | a pass takes exactly the CONTROL request it answers, and its evaluation stands exactly when nothing asked for another one meanwhile |
| Scheduling.FinishMeans | src/rgb_matrix.c:261-269 | a pass that leaves nothing to serve sleeps exactly until the scene's deadline; one that leaves control or output requests is followed at once |
| Scheduling.AdmissionTakes | src/rgb_matrix.c:429-446 | admission takes output requests always, repaint and input only into a current pass |
| Scheduling.Scheduler.Request | src/rgb_matrix.c:234-242 | a request joins its reasons, advances the control epoch, and queues the handler when the result is runnable |
| Scheduling.Scheduler.Start | src/rgb_matrix.c:244-255 | starting control enables it, requests an evaluation and queues the handler, once |
| Scheduling.Scheduler.Begin | src/rgb_matrix.c:409-427 | beginning a pass takes the CONTROL reason together with the epoch it answers |
| Scheduling.Scheduler.Admit | src/rgb_matrix.c:429-446 | admission takes the remaining reasons and says whether the evaluation is current |
| Scheduling.Scheduler.FinishPass | src/rgb_matrix.c:261-269 | finishing clears the active flag and queues what became runnable or the next frame |
| Coordinator.StepKeepsInv | src/rgb_matrix.c:214-269 | every interleaved step of requesters, producers, power setters and the handler keeps the scheduling, ring, frame and output invariants |
| Coordinator.QuiescentOwesNothing | src/rgb_matrix.c:409-469 | a coordinator at rest has no unserved request, pending black, queued input or unscheduled frame, and its evaluation is fresh |
| Coordinator.NothingIsStranded | src/rgb_matrix.c:214-269 | whatever is runnable while no pass is active is queued for now, and staleness always has a CONTROL request pending |
| Coordinator.AdmissionIsFresh | src/rgb_matrix.c:409-446 | a pass touches the scene only if its evaluation began after the last CONTROL request; otherwise it can neither deliver input nor paint |
| Coordinator.OutputGate | src/rgb_matrix.c:502-529 | over all runs, input is held only while output is permitted, permission is exactly presence of LEDs, readiness, intent, no inhibition and activity, and a strip that may not show anything was last sent black or is about to be |
| Coordinator.SettersStore | src/rgb_matrix.c:471-480 | what each power setter stores, and that an unchanged inhibition or activity reconciles nothing |
| Coordinator.ActivityShows | src/rgb_matrix.c:502-529 | falling asleep blackens the strip, leaving the active state never brightens, and a change of the ceiling asks for a repaint |
| Coordinator.PermissionIsAnnounced | src/rgb_matrix.c:516-528 | gained permission has everything evaluated and painted anew, lost permission has the strip blackened |
| Coordinator.PassesAskToBeFollowed | src/rgb_matrix.c:462-464 | a pass is followed at once while key events wait, else at the next frame, and not at all without output |
| Coordinator.AdmissionPaints | src/rgb_matrix.c:429-446 | a pass is to paint exactly when a repaint was asked for or a frame is due |
| Coordinator.PassesPaintWhenAsked | src/rgb_matrix.c:353-389 | a pass submits colours exactly when output is permitted and it was to paint or a key press changed something |
| Coordinator.ColoursNeedPermission | src/rgb_matrix.c:502-529 | over all runs, every coloured strip update was made with LEDs present, outputs ready, light wanted, nothing inhibiting and the keyboard active, or idle with some idle brightness |
| Coordinator.NextFrameIsLeast | src/rgb_matrix.c:449-456 | the next frame is the least point of its grid strictly after completion |
| InputRing.Ring.Push | src/rgb_matrix.c:531-547 | the ring is a bounded queue of fifteen that refuses while output is blocked and counts what it drops when full |
| InputRing.Ring.Pop | src/rgb_matrix.c:549-559 | the oldest event leaves first |
| InputRing.Ring.SetAllowed | src/rgb_matrix.c:502-529 | a change of permission empties the queue and forgets the drop count |
| InputRing.Ring.Drain | src/rgb_matrix.c:347-351 | one pass delivers the queued events and those admitted between its pops in order, leaving some behind only after sixteen |
| InputRing.WindowPush | src/rgb_matrix.c:531-547 | writing at the head extends the queue seen through the two indices, across the wrap |
| InputRing.WindowPop | src/rgb_matrix.c:549-559 | advancing the tail removes the oldest element, across the wrap |
| Conditions.LiveIffNeeded | src/rgb_conditions.c:66-93 | liveness one dependency at a time is reachability from a required root along a path of locally sound conditions |
| Conditions.FaultyIffTainted | src/rgb_conditions.c:66-105 | a fault passed on one dependency at a time is a local fault somewhere in the dependency closure |
| Conditions.Registry.Initialize | src/rgb_conditions.c:66-105 | the two in-place passes reach both fixpoints at once |
| Conditions.Registry.Evaluate | src/rgb_conditions.c:107-114 | every live sound cached value equals the recursive and/or meaning of the leaf samples, and no other value moves |
| Conditions.Registry.SampleAll | src/conditions/and.c:14-22 | true exactly when every dependency is |
| Conditions.Registry.SampleAny | src/conditions/or.c:14-22 | true exactly when some dependency is |
| SelectorLifecycle.ActivationFollowsReset | src/overlays/overlay.c:36-61 | every activation of a child follows a reset of it issued after boot and after the latest request |
| SelectorLifecycle.ResetsAreRequested | src/overlays/overlay.c:36-61 | between two resets of a child lies a request, so requests coalesce |
| SelectorLifecycle.OnlyTheActiveChildIsUsed | src/overlays/overlay.c:92-137 | input and renders reach a child only between its activation and its deactivation |
| SelectorLifecycle.SelectorOverlay.Reconcile | src/overlays/overlay.c:36-61 | afterwards the live child is the selected one exactly when active, it owes no reset, and the others still owe theirs |
| SelectorLifecycle.SelectorOverlay.Reset | src/overlays/overlay.c:63-75 | every child owes a reset again and only the live one is reset at once |
| SelectorLifecycle.SelectorOverlay.SetActive | src/overlays/overlay.c:77-90 | activity changes take effect at once through the same reconciliation |
| SelectorLifecycle.SelectorOverlay.OnEvent | src/overlays/overlay.c:92-106 | an event reaches the selected child, last, after any change of child it brings about |
| SelectorLifecycle.SelectorOverlay.Render | src/overlays/overlay.c:108-137 | the child is handed its own elapsed time only if it was already live, owed nothing and the owner's clock is running, and zero otherwise |
| SelectorLifecycle.ElapsedTelescopes | src/rgb_instance.c:49-67 | over an unbroken animation the intervals handed out sum to the time that passed |
| SelectorLifecycle.ElapsedMeans | src/rgb_instance.c:49-67 | no time passes across a pause, and otherwise what passed since the last render, up to 32 bits |
| ScenePass.UseFollowsReset | src/rgb_matrix.c:309-389 | an overlay is switched on, fed or painted only after a reset that follows boot and the latest runtime reset |
| ScenePass.ResetsAreRequested | src/rgb_matrix.c:328-336 | between two resets of the same overlay lies a runtime reset request |
| Layers.RuntimeResetReachesTheChild | src/rgb_matrix.c:287-389 | between a runtime reset and the next use of any child of a controllable overlay that child is reset |
| ScenePass.Scenes.Pass | src/rgb_matrix.c:309-389 | a pass switches off, then resets, then switches on, then feeds and paints exactly the wanted overlays bottom to top |
| ScenePass.PassConcerns | src/rgb_matrix.c:309-389 | exactly which overlays a pass switches off, resets, switches on, feeds and paints |
| ScenePass.Scenes.RequestReset | src/rgb_matrix.c:287-292 | a runtime reset is owed by every overlay |
| OverlayState.PackedBit | src/rgb_overlay_state.c:57-68 | reading bit i of a word packed bit by bit gives overlay i's state |
| OverlayState.CentralGatesAreConditions | src/rgb_overlay_state.c:57-117 | after a refresh the central's gates are the conditions of its visible overlays |
| OverlayState.PeripheralGatesFollow | src/rgb_overlay_state.c:57-117 | a peripheral holding the central's words shows the central's shared gates and its own local ones |
| OverlayState.Registry.Refresh | src/rgb_overlay_state.c:82-117 | a refresh updates exactly the gates this half evaluates and publishes once if any word changed |
| Composition.MixChannel | src/rgb_color.c:71-78 | mixing truncates toward zero, stays between its inputs, keeps the base at 0 and replaces it from 100 up |
| Composition.ScaleChannel | src/rgb_color.c:62-69 | scaling rounds down and is the identity at 100 |
| Composition.Mix | src/rgb_color.c:71-78 | each channel is mixed with the same channel, unchanged at nothing and replaced at a hundred |
| Composition.Scale | src/rgb_color.c:62-69 | each channel is scaled by itself, black at nothing and unchanged at a hundred |
| Composition.RenderedPixel | src/rgb_matrix.c:369-380 | what one overlay of each kind does to one pixel, inside and outside its targets |
| Composition.TopmostIsPaintedLast | src/rgb_matrix.c:369-380 | overlays are painted bottom to top, each that is active, visible and has targets |
| Composition.TopImageShows | src/rgb_matrix.c:369-380 | an opaque image over every LED on top shows exactly its own colours |
| Composition.MixedAt | src/rgb_utils.c:41-48 | painting over unique targets mixes each target once and touches nothing else |
| Composition.RenderIgnores | src/overlays/overlay.c:108-137 | what an overlay paints does not depend on what was left in the scratch buffer, nor, when it covers, on what lies below |
| Composition.OcclusionPreservesPixels | src/rgb_matrix.c:294-307 | starting at any gated covering overlay, from any pixels at all, gives the scene of all gated overlays |
| Composition.LastCoveringOverlay | src/rgb_matrix.c:294-307 | the overlay found covers and is gated, and none above it does both |
| Composition.PaintPixels | src/rgb_utils.c:41-48 | the painting loop performs the mixes in list order |
| Composition.PaintScene | src/rgb_matrix.c:353-386 | the in-place compositor, which starts at the last covering overlay, produces every overlay's picture scaled to the permitted brightness |
| Indices.UniqueBelowIsAll | src/rgb_overlay_state.c:51-55 | as many unique targets as LEDs are all the LEDs |
| Roots.IntegerSquareRoot | include/zmk/rgb_matrix_math.h:70-89 | exact floor square root of every 32-bit value although each operation wraps at 32 bits |
| Roots.InitialBound | include/zmk/rgb_matrix_math.h:76-76 | the root never exceeds the initial upper bound, x/32 + 8 or 65535 |
| Roots.CoordDistance | src/effects/effect_math.h:19-35 | exact up to twice 65535 squared |
| Roots.DistanceFits | src/effects/effect_math.h:14-19 | squared distances of 16-bit coordinates stay in that range and their roots at most 92680 |
| Cooling.DecaySpends | src/effects/effect_math.h:53-64 | decay spends exactly the scaled time it is given, down to nothing |
| Cooling.AgeSpends | src/effects/effect_math.h:53-64 | every wait, capped or not, takes exactly its milliseconds, or 255 times them in a sweep, from the energy of each cell, down to nothing |
| Cooling.FreshCellAges | src/effects/effect_math.h:53-64 | a cell with no loss under way loses the whole part of the time over the divisor |
| Cooling.DecayAdds | src/effects/effect_math.h:53-64 | decaying twice is decaying once by the sum, remainder included, with no assumption on it |
| Cooling.AgeAdds | src/effects/heatmap.c:44-56 | waiting x and then y milliseconds is waiting their sum, in spite of the skip at zero and the cap |
| KeyHeat.SplitReplay | src/effects/heatmap.c:69-78 | cutting a render interval anywhere leaves levels and remainders unchanged when presses fall on their own side of the cut |
| KeyHeat.CadenceIsIrrelevant | src/effects/heatmap.c:69-78 | any two ways of cutting the same presses into frames end in the same arrays, whatever a press does |
| KeyHeat.LitSplitIsInvisible | src/rgb_instance.c:49-67 | with the engine's own clock an extra render is invisible as long as it finds something lit |
| KeyHeat.DarkSplitAnchorsThePress | src/rgb_instance.c:57-65 | an extra render that finds nothing lit shows exactly when the next press lights something and is older than its frame |
| KeyHeat.PromptPressesHideTheSplit | src/rgb_instance.c:57-65 | it never shows when every later press is rendered at its own time |
| Heatmap.ContributionFades | src/effects/heatmap.c:123-141 | heat received never grows with distance |
| Heatmap.FramesDoNotMatter | src/effects/heatmap.c:59-78 | heatmap levels and remainders do not depend on frame cadence |
| Heatmap.PausedClockAnchors | src/effects/heatmap.c:59-101 | for one later press the split is invisible if and only if the split frame left something lit, the press is rendered at its own time, or it heats nothing |
| Heatmap.LatePressAfterDarkShows | src/effects/heatmap.c:59-101 | from reset, one press, a dark frame and a press rendered a millisecond late end in another picture than without that frame |
| Heatmap.SaturationHidesTheDelay | src/effects/heatmap.c:119-119 | with two later presses saturation can hide the delay |
| Heatmap.HeatIsLostByTheDelay | src/effects/heatmap.c:44-56 | heat is lost one level per delay |
| Heatmap.PressHeats | src/effects/heatmap.c:106-142 | a press gives its own LED the whole step, LEDs within the spread what reaches them, others nothing, and none more than full heat |
| Heatmap.Contribution | src/effects/heatmap.c:127-140 | heat falls linearly with distance to nothing at the spread, up to the area limit |
| Heatmap.Effect.Advance | src/effects/heatmap.c:44-56 | the in-place loop ages every LED, a level per delay where no loss was under way |
| Heatmap.Effect.Apply | src/effects/heatmap.c:106-142 | the in-place loop heats the pressed LED and its neighbours, saturating, and no other |
| Heatmap.Effect.Render | src/effects/heatmap.c:59-84 | a render replays the queue over its interval and reports whether anything is lit |
| Heatmap.Effect.OnEvent | src/effects/heatmap.c:145-162 | only presses of keys with an LED are queued, at most sixteen |
| Heatmap.Effect.Pass | src/rgb_matrix.c:347-381 | a pass delivers at most sixteen keys and renders if a press was taken, so the queue is empty between passes and no press is dropped for want of room |
| Reactive.ShapeAtThePress | src/effects/reactive.c:58-96 | the pressed key is at full brightness except in nexus and in a disc of no size |
| Reactive.ShapeMeans | src/effects/reactive.c:58-96 | what each shape lights at every distance, linear fades within one level |
| Reactive.DiscFades | src/effects/reactive.c:64-72 | a disc never brightens with distance |
| Reactive.LatestPressWins | src/effects/reactive.c:175-192 | without multi only the last press matters |
| Reactive.FramesDoNotMatter | src/effects/reactive.c:116-134 | reactive levels and remainders do not depend on frame cadence |
| Reactive.PausedClockAnchors | src/effects/reactive.c:116-160 | for one later press the split is invisible if and only if the split frame left something lit, the press is rendered at its own time, or it lights no LED |
| Reactive.PausedClockAnchorsTheLast | src/effects/reactive.c:116-193 | without multi the same for any number of later presses: the last one decides |
| Reactive.LatePressAfterDarkShows | src/effects/reactive.c:116-160 | from reset, a press, a dark frame and a press rendered a millisecond late end in another picture than without that frame |
| Reactive.LightFadesInOnePeriod | src/effects/reactive.c:102-113 | light fades linearly, from full to nothing in one period |
| Reactive.PressStrikes | src/effects/reactive.c:165-193 | a press adds its shape to every LED with multi, and replaces everything by it without |
| Reactive.Effect.Advance | src/effects/reactive.c:102-113 | the in-place loop fades every LED, linearly where no loss was under way |
| Reactive.Effect.Apply | src/effects/reactive.c:165-193 | the in-place loop clears when not multi and lights the shape, saturating |
| Reactive.Effect.Render | src/effects/reactive.c:116-142 | a render replays the queue over its interval and reports whether anything is lit |
| Reactive.Effect.Pass | src/rgb_matrix.c:347-381 | the same for reactive: no press is dropped for want of room |
| Stepping.CatchUpIsExact | src/effects/rain.c:114-143 | the bounded catch-up loop equals unit-by-unit time while its trials suffice: same state, same draws |
| Stepping.FrameIsExactIff | src/effects/rain.c:118-118 | a frame equals unit-by-unit time if and only if at most eight trials were due |
| Stepping.RemainderKeepsTime | src/effects/rain.c:141-142 | the step remainder is the clock modulo the interval, even when trials were discarded |
| Stepping.WaitsSumToElapsed | src/effects/rain.c:118-140 | for every stepping behaviour the waits of a frame sum to its elapsed time, discarded trials or not |
| Stepping.PartitionIsIrrelevant | src/effects/rain.c:114-143 | any two partitions of the same time with at most eight trials a frame leave the same state and draws |
| Rain.RainIgnoresCadence | src/effects/rain.c:72-143 | brightness, remainders, colours and draws of pixel, flow and jellybean rain do not depend on frame cadence |
| Rain.RainFrameIsExactIff | src/effects/rain.c:114-143 | exactly up to eight due steps |
| Rain.RainFadesForTheWholeFrame | src/effects/rain.c:118-140 | the fade intervals of a rain frame sum to its elapsed time even when steps are discarded |
| Rain.DropsFade | src/effects/rain.c:72-83 | drops keep their colour and lose brightness linearly, all of it in one period |
| Rain.FlowTrial | src/effects/rain.c:123-138 | a flow trial lights the next key in a random hue for one draw |
| Rain.LitTrial | src/effects/rain.c:123-138 | key, hue, saturation and draws of a trial that lights a key at random |
| Rain.NudgeTouchesOneHue | src/effects/rain.c:62-70 | a nudge changes the hue of one random key and nothing else |
| Rain.DropsIgnoreCadence | src/effects/rain.c:105-113 | hues and draws of the drops mode do not depend on frame cadence |
| Rain.DropsFrameIsExactIff | src/effects/rain.c:105-113 | exactly up to eight due nudges |
| Rain.NineStepsShow | src/effects/rain.c:118-118 | from reset a frame with nine due steps differs from unit-by-unit time |
| Rain.TrialLightsOneKey | src/effects/rain.c:123-138 | a trial lights one key fully with a fresh fade, or none, and flow lights the next along the chain |
| Rain.NudgedHue | src/effects/rain.c:62-70 | a nudge steps down the wheel by zero, one or two eighths |
| Rain.Effect.Render | src/effects/rain.c:84-143 | the in-place loop is the catch-up of that behaviour, its remaining time never below zero |
| Rain.Effect.NudgeDrops | src/effects/rain.c:105-113 | the drops mode, dividing once, is the same catch-up in units of a 64th of a period |
| Starlight.DriftAdds | src/effects/starlight.c:44-64 | drifting toward a target adds up, remainder included, from either side |
| Starlight.StarsDrift | src/effects/starlight.c:44-64 | a star moves toward its target linearly and never past it |
| Starlight.TwinkleMeans | src/effects/starlight.c:83-113 | which LEDs change in a trial, to what, and with how many draws |
| Starlight.StarlightIgnoresCadence | src/effects/starlight.c:44-113 | stars, remainders, offsets and draws do not depend on frame cadence |
| Starlight.StarlightFrameIsExactIff | src/effects/starlight.c:77-113 | exactly up to eight due trials |
| Starlight.StarlightDriftsForTheWholeFrame | src/effects/starlight.c:83-113 | the drift intervals of a frame sum to its elapsed time even when trials are discarded |
| Starlight.NineTrialsShow | src/effects/starlight.c:78-78 | from reset a frame with nine due trials differs from unit-by-unit time |
| Starlight.Effect.Advance | src/effects/starlight.c:44-64 | the in-place loop drifts every star |
| Starlight.Effect.Render | src/effects/starlight.c:67-113 | counting the due trials beforehand and looping is the same catch-up |
| DigitalRain.Advanced | src/effects/digital_rain.c:129-159 | a head stays between the highest restart and the recycling point for every elapsed time and random stream |
| DigitalRain.CrossingIsFirst | src/effects/digital_rain.c:138-141 | the crossing time is exactly the first millisecond that overshoots |
| DigitalRain.RecyclingKeepsTime | src/effects/digital_rain.c:137-146 | consumed crossings and remaining time account for the elapsed time, and the loop stops short only when its recycles are used up |
| DigitalRain.WrapsOnlyAfterEight | src/effects/digital_rain.c:148-156 | the modular wrap happens only after eight recycles |
| DigitalRain.AdvancedIsExactIff | src/effects/digital_rain.c:129-159 | a frame equals millisecond-by-millisecond falling if and only if it ends before the sum of the head's first nine crossing times (one more than its recycles) |
| DigitalRain.NinthRecycleShows | src/effects/digital_rain.c:148-156 | from any head a frame with nine recycles differs, and is short enough to happen |
| DigitalRain.ShortFramesFollowTheReference | src/effects/digital_rain.c:129-159 | frames no longer than eight of the shortest possible falls follow the reference whatever the random numbers |
| DigitalRain.ColumnOf | src/effects/digital_rain.c:99-102 | LEDs fall into twenty-four columns of equal width by position |
| DigitalRain.SpeedFor | src/effects/digital_rain.c:65-69 | a head's speed is the rounded-down speed of its random number, at least one |
| DigitalRain.ShaftExtent | src/effects/digital_rain.c:57-61 | where heads start and end, in 256ths of a unit |
| DigitalRain.FramesFollowTheReference | src/effects/digital_rain.c:129-159 | for a column with its own random numbers frame cadence is invisible while every frame ends before its ninth crossing |
| DigitalRain.Effect.Fall | src/effects/digital_rain.c:132-158 | the in-place loop over one column computes that advance |
| DigitalRain.Effect.Render | src/effects/digital_rain.c:132-159 | columns advance in order from one shared generator and all stay in range |
| Battery.SortedIsTheOrder | src/overlays/battery.c:50-93 | of all arrangements of the targets, the sort's result is the only one in stable reading order |
| Battery.SortPermutes | src/overlays/battery.c:82-92 | sorting rearranges the targets |
| Battery.LongerAxisIsChosen | src/overlays/battery.c:72-80 | the bar runs along x unless the targets extend strictly farther along y |
| Battery.OrderAscends | src/overlays/battery.c:50-65 | along the bar coordinates never step back, by the main axis first, both turned round when reversed |
| Battery.Order | src/overlays/battery.c:67-93 | the in-place insertion sort along the longer axis computes that order |
| Battery.SplitFormula | src/overlays/battery.c:151-152 | the two-part division equals the rounded product floor((count*soc + 50)/100) |
| Battery.LitCountFits | src/overlays/battery.c:151-152 | the lit count never exceeds the count, grows with charge, is zero at 0 and all at 100, and is within half an LED of proportion |
| Battery.BarIsAnImage | src/overlays/battery.c:157-160 | painting along the bar mixes every target once, the first lit in reading order with the on colour |
| Battery.ColoursAlongTheBar | src/overlays/battery.c:116-160 | the first LEDs along the bar, in proportion to the charge, take the on colour and the others the off colour; the hue mode gives all one |
| Battery.HueAt | src/overlays/battery.c:116-120 | the hue mode runs between its end points, reaching each |
| Battery.Bar.CanonicalOrder | src/overlays/battery.c:128-142 | the cached order always equals that of a fresh sort |
| Battery.Bar.OtherOrder | src/overlays/battery.c:143-149 | a frame over other targets or coordinates is sorted afresh and leaves the cache alone |
| Battery.Bar.Render | src/overlays/battery.c:100-163 | a frame over any targets, in bar or hue mode, mixes every target once with the colour its place and the charge give it, using the remembered order only for canonical frames |
| Persist.RecordBytes | src/rgb_persist.c:20-35 | every byte of a record |
| Persist.DecodeAccepts | src/rgb_persist.c:37-60 | exactly which prefixes are accepted, and what they say |
| Persist.DecodeAfterEncode | src/rgb_persist.c:20-60 | decoding an encoded record gives back the settings and the first selections that fit |
| Persist.EncodeAfterDecode | src/rgb_persist.c:20-60 | encoding what a full decode returned gives back the exact bytes |
| Persist.PrefixDecodes | src/rgb_persist.c:37-53 | a prefix decodes as the whole record does if and only if it holds the selections asked for |
| Persist.EncodeInto | src/rgb_persist.c:20-35 | encoding in place succeeds exactly on valid arguments and otherwise leaves the bytes unchanged |
| Persist.DecodeFrom | src/rgb_persist.c:37-60 | decoding in place succeeds exactly on valid records and arguments, null pointers included, and otherwise leaves both outputs unchanged |

## Left out

- Counters (generation, outstanding, repair epoch, control epoch) are unbounded, except that an overflowing outstanding count is refused as in the code.
- dt-bindings/zmk/rgb.h is not part of this model: the opcodes 0 to 14 shared with ZMK carry the numbers ZMK gives them, and nothing depends on more than their being distinct and below 2^15.
- Lapses.QuietHistoriesKeepStepIff: leaves out histories in which, in the middle of an invocation, the central makes a change its message does not overwrite, the replay worker sends, or the peripheral is lost. Histories.TakenAndMadeDecide and Crossings.EarlierChangesHealIff cover the changes, Convergence.AcceptedWalkHasConverged the rest.
- A replica is a started half with the same configuration as the central and changes only by commands it receives.
- An outage empties the link and leaves the replica in any valid state; one that loses only some of the queued messages is not modelled separately, since any replica state is allowed afterwards.
- A failed send may or may not have arrived; a send that returns success is delivered in order. Transport, mutexes, work queues and the event manager appear only through that ordering, atomicity and queueing.
- The private, non-controllable form of an overlay forwards its callbacks unchanged to its one effect and is not modelled.
- Composition.PaintScene: nested effects and filters are arbitrary functions that follow the documented overlay rules (unique targets, no dependence on pixels outside the targets for nested effects, no false claim to replace); an overlay breaking them is not covered.
- Occlusion is a statement about one frame: overlays hidden below a covering one are switched off and lose their animation state, as the scene pass model shows.
- Battery.Bar.Render: the conversion of the hue to a colour is an arbitrary function.
- Battery.Bar.OtherOrder: a frame over other targets or coordinates is sorted into a fresh array instead of the shared static buffer.
- Heatmap.PausedClockAnchors: stated for a single later press; with several, saturation can hide the difference (Heatmap.SaturationHidesTheDelay), and only the sufficient halves, KeyHeat.LitSplitIsInvisible and KeyHeat.PromptPressesHideTheSplit, cover them. The same goes for Reactive.PausedClockAnchors with multi; without it Reactive.PausedClockAnchorsTheLast covers any number.
- DigitalRain.FramesFollowTheReference: does not cover the interleaving of several columns' draws from the shared generator, because that order does depend on frame cadence.
- KeyHeat.LitSplitIsInvisible: assumes renders less than 2^32 milliseconds apart, beyond which the elapsed time saturates.
- Reactive.FramesDoNotMatter: for a fixed period; a period command between frames changes the rate from then on. The same goes for the presets of rain and starlight.
- Colour conversion of per-LED state to pixels, the purely visual effects, the fractal mode of rain and the sine table: finite or one-branch facts.
- Sampled sources (battery level, USB, BLE, layers, caps lock) are arbitrary Booleans or numbers.
- Devicetree macros, build assertions, target resolution and registration storage are taken at their conclusions: ordered dependencies, unique targets, non-empty selectors and ranges.
- Settings flash writes and their debounce, behavior metadata, logging, clock correction values, strip drivers and the test tooling.
- Repairs.RepairConverges: a walk under way that began before an unnoticed outage may be accepted out of step (Convergence.AcceptedWalkHasConverged) and is excluded.
- Repairs.RepairTakesBoundedPasses: which slots are due at a pass is arbitrary; pacing, settling and retry delays appear only as passes that hold a slot back.
- Layers.RuntimeResetReachesTheChild: a statement about histories; that the two classes produce wired ones can be read from the contracts of SelectorOverlay's callbacks but no class combines them.
