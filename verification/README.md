# HeishaMon: verified models

HeishaMon is firmware that reads a Panasonic heat pump, sends it commands and keeps energy statistics. This
project models the parts of it that hold state over long runs, and proves what they promise. `dafny verify
dfyconfig.toml` checks everything.

- **Confirmed commands** (`MqttCommands`, `MqttQueue`, `MqttReports`, `MqttRequests`, `MqttRuns`, `MqttOrder`,
  `MqttProgress`, `MqttHistory`, `CurveTrimming`, `HeatpumpFrames`): a ten-slot table of pending commands with retries,
  a send gap and per-value confirmation.
- **Scheduler** (`ConditionExpressions`, `Scheduler*`, `Rings`): entries, three-valued conditions, the ring of
  action groups, the preview and the edits with rollback.
- **Sterilization workflow** (`SterilizationWorkflow`, `WorkflowTimeline`): borrows the operating mode and gives it back.
- **Energy accounting** (`HistorySamples`, `EnergyPairs`, `EnergyMeaning`, `EnergyCop`, `CopPatterns`, `DailyEnergy`,
  `LiveAccounting`, `DayStatistics`, `RamDownsampling`, `StoredDownsampling`, `EnergyLedger`): trapezoids, midnight
  splitting, the range COP, chart points and the monthly ledger.
- **Stored history** (`SampleFlush`, `FlushRuns`, `FlushExactness`, `FlushSchedules`, `CsvNumbers`, `HistoryCsv`,
  `HistoryUnits`): the sample ring, the writer task and the CSV rows.
- **Recovery after a reboot** (`HistoryReplay`, `RepeatedSeconds`, `ReplayOfBoots`, `StoredFlags`, `StoredReplay`,
  `SkippedRows`, `ReplayedFiles`, `RecoveredTails`, `BootChain`): the replay of the stored rows, and how it compares with
  what was recorded live.

Each object that the firmware changes in place is a class; each of its methods is proved equal to a step function
on values, and the theorems about whole runs are proved about those step functions. What a step means is stated a second
time without its helpers: by the frames seen, the times passed, the readings and the literal topics and constants
(`MqttReports`, `MqttRequests`, `MqttHistory`, `SchedulerMeaning`, `WorkflowTimeline`, `EnergyMeaning`, `HistoryUnits`).
`millis()` is a 32-bit number next to a true unbounded clock. What comes from outside is an input of the step: whether
a send, a save or a file operation succeeds, what a value reader or the dispatcher answers, and the clock.

Properties that hold only under a condition are stated with that condition, and with an input that shows why it is
needed:

- A flush in which samples are stored meanwhile can count a retained sample as flushed without writing it. Which ones,
  for any number of stores, says `FlushSchedules.LostExactly`; when none is lost, `FlushSchedules.LosesNothingExactly`.
  One store loses samples only just before the writer's look at the oldest slot (`FlushSchedules.OneStoreLosesOnlyEarly`);
  two stores between the first two reads of a full ring lose one (`FlushSchedules.TwoStoresLoseOne`). Samples can be
  seconds apart, since a change of compressor, DHW, defrost, valve or heater state stores one at once.
- A CSV row has no DHW flag. Forced DHW with the valve not on DHW is DHW energy when it is recorded and heating energy
  when it is replayed (`ReplayedFiles.ForcedDhwIsReplayedAsHeating`). `StoredFlags.GroupSurvivesUnless` lists the three
  cases in which a sample changes its group, `StoredFlags.EnergySurvivesExactly` says when a pair keeps its energy, and
  `ReplayedFiles.FlagsDecide` when a day does.
- Of a past day with a summary file only the last kilobyte is read. The day before it, if it has no summary file, then
  loses its closing interval (`SkippedRows.TailLosesFirstInterval`, and from the lines of the files
  `ReplayedFiles.CutFileLosesFirstInterval`); the exact conditions are `SkippedRows.TailVisitIsExact` and
  `SkippedRows.FarTailVisitIsExact`. In a chain of boots this does not happen: the only day without a summary file is
  the last one, behind every file that is cut (`RecoveredTails.OpenDayIsExact`, `BootChain.ChainIsExact`).
- Two samples can fall into one second, since a change of state stores a sample at once. Live accounting goes on from
  the last of them, replay from the first, so energy is lost when the compressor starts between the two
  (`ReplayOfBoots.RepeatedSecondLosesEnergy`). What such seconds change is `RepeatedSeconds.KeptIsWorth`; it is nothing
  when both lead on with the same amount, and if no second gains, only then (`RepeatedSeconds.RepeatsExactly`).
- Replay counts a short reboot as compressor time and for degree-days, live accounting does not
  (`ReplayOfBoots.RebootCountsAsRunning`). For both measures replay is never below the live records, and equal to them
  exactly when no reboot counts (`ReplayOfBoots.RebootsCountExactly`).
- Stored charts lose samples when the clock was set back (`StoredDownsampling.ClockSetBackLosesSamples`); the exact
  condition is `StoredDownsampling.EverySampleIsShown`.
- A dispatch at tick 0 of the millisecond clock is forgotten (`SchedulerRuns.TickZeroIsForgotten`).
- A compressor start first seen in a sample of exactly midnight is counted for neither day
  (`DayStatistics.DayIsDescribed`, which counts all others).
- The range COP can leave the range of the sample COPs when a pair has only one of its powers
  (`EnergyCop.OneSidedPairBreaksTheBound`). For every pattern of usable readings with such a pair there are powers with
  which it does (`CopPatterns.PatternBoundsCopExactly`); at steady powers it does so exactly when heat and power are
  observed for different times (`EnergyCop.SteadyCopExactly`).
- The report that excuses the workflow from giving the mode back can be older than the switch to DHW-only mode
  (`WorkflowRuns.OldReportExcusesRestore`); it is newer for certain exactly when the switch is longer ago than the
  maximum age of a report (`WorkflowRuns.FreshReportIsNewer`), so a workflow that ends later than that without sending
  ends on a report from after the switch (`WorkflowRuns.LateExcuseIsNewer`).
- The ledger's day equals its start plus the last live value only if the live value never falls
  (`EnergyLedger.SessionAddsItsLastLiveValue`).
- Commands are served oldest first only until 2^32 sequence numbers have been issued
  (`MqttProgress.WrappedCounterSendsNewestFirst`).

## Model

| member | source | states |
|---|---|---|
| `MqttQueue.CommandQueue.Queue` | HeishaMon/commands.cpp:1504-1568 | Accepts, refuses or ignores a request exactly as `QueueOutcome` says (unknown name, invalid length, empty curve set, already reported, already pending, full table) and writes at most one slot, with the next sequence number |
| `MqttQueue.CommandQueue.FindSlot` | HeishaMon/commands.cpp:1546-1562 | One scan finds the slot that holds the same name, or else the first free one |
| `MqttQueue.CommandQueue.ApplyKnownState` | HeishaMon/commands.cpp:1426-1435 | Setting flags and clearing bytes one expectation at a time equals marking every met expectation and clearing exactly their bytes |
| `MqttQueue.CommandQueue.Confirm` | HeishaMon/commands.cpp:1570-1586 | A frame is applied to every active verifiable slot; a slot is freed when nothing is left to confirm |
| `MqttQueue.CommandQueue.ProcessTimeouts` | HeishaMon/commands.cpp:1591-1605 | Every slot without confirmation for 30 s is queued again with its own new number, or given up after three retries; all others stay |
| `MqttQueue.CommandQueue.FindNext` | HeishaMon/commands.cpp:1609-1613 | The due waiting slot with the least number, or none |
| `MqttQueue.CommandQueue.Process` | HeishaMon/commands.cpp:1588-1631 | Timeout pass, send gap, choice of the oldest due request, the bytes given to the sender, and the effect of a refused or accepted send on the whole state |
| `MqttReports.FrameConfirms` | HeishaMon/commands.cpp:1363-1372 | A frame confirms an open value if and only if it is a main frame in which the topic reads the value, operating mode 2 also as 7, 6 also as 8, holiday mode 1 also as 2; nothing else about the value changes |
| `MqttReports.FrameFrees` | HeishaMon/commands.cpp:1570-1586 | A frame frees a slot if and only if it reports every value that is still open |
| `MqttReports.FreshMeans` | HeishaMon/commands.cpp:1347-1354 | In true time a frame is fresh if and only if its four header bytes are those of a main frame, it did not arrive at tick 0, and it is at most a minute old, or at most four times the wait time |
| `MqttRequests.OutcomeMeans` | HeishaMon/commands.cpp:1504-1568 | Every outcome of a request by its exact condition in any reachable table: already reported means that a fresh frame reports every value asked for, already pending that the slot of this name wants the very same values (or, without any, has the same bytes), full that ten other names are pending |
| `MqttRequests.SingleValuePending` | HeishaMon/commands.cpp:1382-1391 | After any run, a request for a single value is pending already if and only if an active slot of its name wants this value of this topic |
| `MqttRequests.RequestIsHeld` | HeishaMon/commands.cpp:1546-1568 | After any run, an executable request that is neither reported nor refused is afterwards held: an active slot of its name wants exactly what it asks for, or, if it cannot be verified, has its bytes |
| `MqttHistory.FreedExactly` | HeishaMon/commands.cpp:1570-1586 | Over any run, a frame frees a request if and only if each value it asks for was reported by some frame since it arrived, this one included |
| `MqttHistory.SentBytes` | HeishaMon/commands.cpp:1615-1616 | Over any run, what is handed to the sender, retries included, is the bytes and the length of the request that the slot took last, without the curve values that some frame has reported since |
| `MqttHistory.TimesOutExactly` | HeishaMon/commands.cpp:1591-1605 | Over any run, a sent request is left alone for 30 s; then it is given up if and only if it was sent four times, and else tried again |
| `MqttHistory.SendsExactly` | HeishaMon/commands.cpp:1607-1625 | Over any run, a pass sends something if and only if nothing was sent for 7 s and some request is due (on arrival, a second after a refused send) or has timed out with sends left |
| `MqttRuns.ApplyKnownTracks` | HeishaMon/commands.cpp:1402-1435 | For SetCurves a frame confirms an expectation exactly when it clears its byte; an open byte still holds desired + 128 |
| `MqttRuns.StepKeepsSlots` | HeishaMon/commands.cpp:1504-1631 | Every step keeps the bounds of every slot: sends = retries (+1 when not waiting) <= 4, never idle with nothing to wait for, curve bytes cleared exactly as confirmed |
| `MqttRuns.SlotsOverRuns` | HeishaMon/commands.cpp:1504-1631 | Those bounds hold after any run of requests, frames, loop passes and clock advances |
| `MqttOrder.TableOverRuns` | HeishaMon/commands.cpp:1546-1631 | After any run: one slot per name, distinct numbers of active slots, and successful sends at least 7000 ms apart in true time although the 32-bit clock wraps |
| `MqttOrder.StepShortensLine` | HeishaMon/commands.cpp:1607-1625 | While a due request waits, every successful send of another request shortens the line ahead of it by one |
| `MqttOrder.AtMostNineSendsWhileWaiting` | HeishaMon/commands.cpp:1607-1625 | So at most nine other requests are sent before its own attempt, over any run |
| `MqttProgress.NeverStuck` | HeishaMon/commands.cpp:1591-1611 | No reachable active slot is stuck: a waiting one is due from a time at most 1000 ms ahead of the true clock, a sent one times out 30 s after its last send |
| `MqttProgress.WhyARequestEnds` | HeishaMon/commands.cpp:1570-1631 | A slot becomes free if and only if its request is confirmed, its fourth send times out, or it was sent and cannot be verified; otherwise it still holds the request, or a newer one of the same name has taken it |
| `MqttProgress.LoopWork` | HeishaMon/commands.cpp:1588-1631 | The measure 2*(3-retries)+waiting, summed over the table, pays for every successful send, and falls whenever a slot times out |
| `MqttProgress.QueueDrains` | HeishaMon/commands.cpp:1588-1631 | Without newly accepted requests, all sends of a run are paid for by the work present at its start: at most 80 |
| `MqttProgress.WrappedCounterSendsNewestFirst` | HeishaMon/commands.cpp:1564-1612 | Why the order claims stop at 2^32 numbers: the request numbered 0 overtakes an older one |
| `HeatpumpFrames.CurveTablesAgree` | HeishaMon/commands.cpp:1335-1340 | The confirmation table and the decoder agree: each curve value is reported in the byte that sets it |
| `HeatpumpFrames.CurveRowsAsListed` | HeishaMon/commands.cpp:1335-1340 | The sixteen rows of the table |
| `HeatpumpFrames.CurveValueIsReported` | HeishaMon/commands.cpp:1335-1340 | The topic of a curve byte reads as that byte of the frame less 128 |
| `CurveTrimming.HasChanges` | HeishaMon/commands.cpp:1439-1502 | Whether a command is worth sending, and the exact bytes left in it, for curves, verifiable and other commands, fresh and stale frames |
| `CurveTrimming.ClearUnchanged` | HeishaMon/commands.cpp:1460-1469 | The loop over the table clears exactly the curve bytes that the frame already reports, and counts them |
| `CurveTrimming.TrimmingPreservesMeaning` | HeishaMon/commands.cpp:1458-1483 | The trimmed command leaves every setting of the pump as the full command would, and every byte still sent changes one |
| `CurveTrimming.SkippedExactlyWhenNothingChanges` | HeishaMon/commands.cpp:1446-1476 | With a fresh frame SetCurves is skipped if and only if it would change no curve value |
| `CurveTrimming.SentUnseenExactly` | HeishaMon/commands.cpp:1446-1458 | Without a fresh frame SetCurves is sent if and only if it sets some curve value |
| `CurveTrimming.OtherSkippedExactly` | HeishaMon/commands.cpp:1485-1502 | Any other command is skipped if and only if it is verifiable and a fresh frame reports the value it asks for |
| `CurveTrimming.QueueTrimmingPreservesMeaning` | HeishaMon/commands.cpp:1426-1435 | Striking off reported values inside the queue never changes what the command sets |
| `ConditionExpressions.EvaluateConditionExpression` | HeishaMon/scheduler_logic.h:117-132 | One pass over the values equals the OR of the maximal AND-groups, for any number of conditions |
| `ConditionExpressions.EvaluateCondition` | HeishaMon/scheduler.cpp:131-212 | An entry passes if it has no conditions, or if a value provider exists and the expression over its readings is definitely true |
| `ConditionExpressions.DefiniteHoldsForEveryFilling` | HeishaMon/scheduler_logic.h:95-132 | A definite result is the two-valued result for every way of filling in the unavailable values |
| `ConditionExpressions.UnknownExactlyWhenUndecided` | HeishaMon/scheduler_logic.h:95-132 | The result is unknown if and only if two fillings give different outcomes |
| `ConditionExpressions.PassesExactlyWhenNothingCouldForbid` | HeishaMon/scheduler.cpp:142-212 | An entry passes if and only if its conditions hold for all actual values compatible with what could be read |
| `ConditionExpressions.PassesExactly` | HeishaMon/scheduler.cpp:142-212 | An entry passes if and only if it has no conditions, or some run of conditions, from the first one or one joined by OR up to the next one joined by OR, has only readings that are present and compare true, each comparison written out |
| `SchedulerEntries.MinuteKeyOrdersMinutes` | HeishaMon/scheduler_logic.h:65-68 | Up to the year 8148 the minute key does not wrap, orders minutes, tells them apart and is never the reserved value |
| `SchedulerClaims.LoopIsAPass` | HeishaMon/scheduler.cpp:76-90 | What one call of `loop` does to the execution key of any entry, whatever happens to the queue |
| `SchedulerClaims.ClaimedExactlyOncePerMinute` | HeishaMon/scheduler.cpp:76-90 | Over any run whose local day never goes back, an entry is claimed at most once per local minute, only in matching minutes, and in every matching minute the loop saw that was not checked before the entry was there |
| `SchedulerPreview.FindNext` | HeishaMon/scheduler.cpp:806-832 | The double loop returns the first of the best candidates over eight weekdays, or none if there is none |
| `SchedulerPreview.PreviewIsFirstDue` | HeishaMon/scheduler.cpp:806-832 | The preview is the first minute after now, within seven days, at which any enabled entry is due by the due test itself; none is shown if and only if no entry is enabled |
| `SchedulerTable.UpsertKeepsTable` | HeishaMon/scheduler.cpp:563-602 | Adding or editing keeps ids unique, non-zero and at most 255, and the table within 24 valid entries |
| `SchedulerTable.RemoveKeepsTable` | HeishaMon/scheduler.cpp:604-619 | Removal takes away exactly one id and keeps the table valid |
| `SchedulerTable.LoadedTableIsValid` | HeishaMon/scheduler.cpp:686-725 | Whatever a stored file holds, the loaded table is valid; duplicates and invalid entries are left out |
| `SchedulerTable.SavedTableComesBack` | HeishaMon/scheduler.cpp:686-739 | A valid table that was saved loads back whole and in order; only the execution keys are forgotten and entries with legacy zone 1 requests switched off |
| `SchedulerTable.AcceptableExactly` | HeishaMon/scheduler.cpp:563-602 | What an edit must be: a valid entry without legacy requests that is new while there is room, or replaces an entry |
| `SchedulerTable.SomeIdIsFree` | HeishaMon/scheduler.cpp:357-360 | A table of fewer than 255 entries never runs out of ids |
| `SchedulerManager.Manager.NextId` | HeishaMon/scheduler.cpp:357-360 | Always finds the least unused id |
| `SchedulerManager.Manager.Upsert` | HeishaMon/scheduler.cpp:563-602 | Succeeds exactly on an acceptable entry that could be saved; the new table is the edited one, and after a failed save the old one |
| `SchedulerManager.Manager.Remove` | HeishaMon/scheduler.cpp:604-619 | Removes the entry with the id; when saving fails the right shift restores the table exactly |
| `SchedulerManager.Manager.ShiftLeft` | HeishaMon/scheduler.cpp:608-609 | The left shift drops one entry and keeps the others in order |
| `SchedulerManager.Manager.ShiftRight` | HeishaMon/scheduler.cpp:611-613 | The right shift puts the removed entry back where it was |
| `SchedulerManager.Manager.SetEnabled` | HeishaMon/scheduler.cpp:674-684 | The flag changes only if it could be saved |
| `SchedulerManager.Manager.Load` | HeishaMon/scheduler.cpp:686-725 | The table, the enabled flag and the emptied queue for an absent, unreadable, outdated or readable file |
| `SchedulerManager.Manager.Enqueue` | HeishaMon/scheduler.cpp:214-238 | The ring refines a FIFO of at most 24 groups |
| `SchedulerManager.Manager.DispatchNext` | HeishaMon/scheduler.cpp:240-300 | The head action is attempted exactly when the interval is open; the dispatcher is asked for exactly this action, if the scheduler is enabled or the group an automation, and the guard agrees; the result decides how the queue advances |
| `SchedulerManager.Manager.Advance` | HeishaMon/scheduler.cpp:282-296 | On to the next action of the head group, or, at its end or at a stopping result, to the next group |
| `SchedulerManager.Manager.CancelPending` | HeishaMon/scheduler.cpp:302-318 | Empties the queue and reports every pending group, in order |
| `SchedulerManager.Manager.CheckSchedules` | HeishaMon/scheduler.cpp:84-129 | Every due entry is claimed; the groups queued are those of enabled entries whose conditions pass, in table order, as far as they fit |
| `SchedulerMeaning.CheckQueuesExactly` | HeishaMon/scheduler.cpp:84-129 | A check while paused queues nothing; else it appends, in table order, one group for every entry that is enabled, at its time on one of its weekdays, not executed in this minute and whose conditions pass, as long as there is room, with its id and all its actions; every entry at its time is marked for this minute, and nothing else changes |
| `SchedulerMeaning.EditDoesNotRepeat` | HeishaMon/scheduler.cpp:563-602 | An edit replaces all of its entry but the minute of its last execution, and no other entry, so it does not run twice in a minute |
| `SchedulerManager.Manager.Loop` | HeishaMon/scheduler.cpp:50-82 | One loop call as a whole: invalid clock, new minute, dispatch |
| `SchedulerMeaning.LoopIsARun` | HeishaMon/scheduler.cpp:50-82 | With a valid clock a call of the loop does to the queue what queueing the groups of a new minute one by one and then one dispatch do |
| `SchedulerMeaning.LoopMarksTheMinute` | HeishaMon/scheduler.cpp:76-90 | Afterwards this minute counts as checked, and in a new minute exactly the entries at their time are marked |
| `SchedulerManager.Manager.RunNow` | HeishaMon/scheduler.cpp:621-643 | Queues the entry with the id if its conditions allow it, and says so; does nothing while the scheduler is disabled or the id is unknown |
| `SchedulerRuns.GroupsAreServedInOrder` | HeishaMon/scheduler.cpp:214-318 | Over any run groups are served in enqueue order without interleaving, what was handed out is a prefix of each list in which only the last result may stop it, and every action is attempted, dropped or still pending |
| `SchedulerRuns.DispatchesArePaced` | HeishaMon/scheduler_logic.h:54-58 | Attempts are at least 2000 ms apart in true time, except after one made at tick 0 |
| `SchedulerMeaning.DispatchExactly` | HeishaMon/scheduler.cpp:240-300 | Over any run, a dispatch attempts the next action of the oldest group if and only if there is one and the last attempt is two seconds ago (or was made at tick 0); the answer of the dispatcher counts only if the scheduler is enabled, or the group an automation, and the guard agrees; a failed or busy action ends its group |
| `SchedulerRuns.TickZeroIsForgotten` | HeishaMon/scheduler_logic.h:54-58 | The exception is real: two attempts in the same instant |
| `SchedulerRuns.RunsActLikeTheManager` | HeishaMon/scheduler.cpp:50-318 | The runs queue, dispatch and, with an invalid clock, cancel exactly as the manager does |
| `SterilizationWorkflow.DashboardWorkflow.SendCommand` | HeishaMon/custom_features.cpp:153-180 | A command is done if a fresh frame reports it already, else if the sender takes it |
| `SterilizationWorkflow.DashboardWorkflow.StartSterilization` | HeishaMon/custom_features.cpp:188-232 | When it starts, what it records and tries to send, and that a refused mode switch leaves it idle |
| `SterilizationWorkflow.DashboardWorkflow.CancelSterilization` | HeishaMon/custom_features.cpp:234-251 | Cancelling leads to the restore stage whatever the force-off send answers; force-off is sent exactly while active |
| `SterilizationWorkflow.DashboardWorkflow.ProcessWorkflow` | HeishaMon/custom_features.cpp:264-310 | Each stage of the loop step, including the retry of a failed restore, and what it tries to send |
| `WorkflowTimeline.StartsExactly` | HeishaMon/custom_features.cpp:188-232 | A workflow starts if and only if none runs, the pump may be asked, reports topic 69 as 0 and a mode from 0 to 6 (7 as 2, 8 as 6), and takes DHW-only mode unless it is in it; nothing else is sent |
| `WorkflowTimeline.ForcesExactly` | HeishaMon/custom_features.cpp:267-277 | Over any run, the force is tried in the first loop step 250 ms after the start, or 2500 ms if the mode was switched, and in no other step; taken, the sterilization is active, refused, the mode is given back |
| `WorkflowTimeline.EndsExactly` | HeishaMon/custom_features.cpp:279-296 | Over any run, an active sterilization ends if and only if it is cancelled, which tries to switch the force off, or a loop step has a main frame and topic 69 was reported 1 since the force, is now 0 and the water is within 2 of its target, or it was never reported 1 and the force is more than 60000 ms ago |
| `WorkflowTimeline.RestoresExactly` | HeishaMon/custom_features.cpp:298-310 | Over any run, the mode the pump was in at the start is sent in the first loop step 10 s after a cancel or a completed run, 1 s after a refused or unconfirmed force, or 5 s after a refusal, and in no other step; then the workflow is over if it is taken, or if there is none to give back |
| `WorkflowTimeline.ForceIsEnded` | HeishaMon/custom_features.cpp:234-310 | Over any run, a workflow whose force was taken is over only after a step that tried to switch it off, saw it done after it had run, or saw that it never ran for a minute |
| `WorkflowRuns.InvOverRuns` | HeishaMon/custom_features.cpp:142-310 | At every reachable state no workflow means idle, force-on was attempted at most once, and the recorded mode is the one reported at the start |
| `WorkflowRuns.ModeIsGivenBack` | HeishaMon/custom_features.cpp:298-308 | A workflow that switched the mode becomes idle only in a step that sends the mode reported at its start (0..6, not 3), or in which a fresh frame reports it already |
| `WorkflowRuns.SchedulerHoldsOff` | HeishaMon/custom_features.cpp:339-460 | While it runs, the scheduler sends no mode, on/off, Force DHW, DHW target or quiet command |
| `WorkflowRuns.SchedulerResumes` | HeishaMon/custom_features.cpp:397-459 | Once idle, a valid guarded action sends its command if and only if the encoder and the sender take it and no fresh frame reports its value; the second check behind the encoder stops nothing more |
| `WorkflowRuns.AlreadyThereExactly` | HeishaMon/custom_features.cpp:345-407 | An action counts as already there if and only if a fresh frame shows its value in topic 0, 2, 4, 9 or 18, mode 7 as 2 and 8 as 6 |
| `WorkflowRuns.FreshReportIsNewer` | HeishaMon/commands.cpp:1347-1354 | Every fresh report is newer than the switch of the mode if and only if the switch is longer ago than the maximum age |
| `WorkflowRuns.LateExcuseIsNewer` | HeishaMon/custom_features.cpp:153-308 | Over any run, a workflow that becomes idle without sending, longer after its switch than the maximum age, does so on a report that is newer than the switch and shows the original mode |
| `WorkflowRuns.SwitchIsInRun` | HeishaMon/custom_features.cpp:188-232 | The time of the switch is that of a step of the run that started the workflow and had DHW-only mode accepted |
| `WorkflowRuns.OldReportExcusesRestore` | HeishaMon/custom_features.cpp:153-308 | Start, cancel and the restore ten seconds later with one and the same frame: the workflow ends idle and the sender is never asked to give the mode back |
| `EnergyPairs.TrapezoidTelescopes` | HeishaMon/diagnostics_logic.h:42-50 | The trapezoid of an interpolated power between two times is a difference of one primitive |
| `EnergyPairs.PairAddsItsEnergy` | HeishaMon/diagnostics_energy.h:55-108 | A pair adds exactly its clipped trapezoids to the totals, whatever the window |
| `EnergyMeaning.EnergyExactly` | HeishaMon/diagnostics_energy.h:55-108 | A pair is worth heat in a window if and only if it is of one boot, one meter and one purpose, at most 600 s long, overlaps the window, and both powers are above 100 W; then exactly the area under the straight line between them; electricity likewise from 100 W on |
| `EnergyMeaning.OtherMeasuresExactly` | HeishaMon/diagnostics_energy.h:129-147 | Degree-days are the degrees the mean outside temperature lacks to the base times the seconds in the window over 86400; compressor time is those seconds if the later sample runs it |
| `EnergyCop.CalculateEnergy` | HeishaMon/diagnostics_history.cpp:930-942 | The loop over a range of retained samples sums exactly its adjacent pairs |
| `EnergyCop.CopLiesBetweenSampleCops` | HeishaMon/diagnostics_history.cpp:796-799 | The energy COP of a range whose counted pairs have both powers lies between the least and greatest COP of its samples, for any window |
| `EnergyCop.OneSidedPairBreaksTheBound` | HeishaMon/diagnostics_energy.h:82-107 | The condition is needed: at any time, with a pair that has only one of the two powers, the bound can fail |
| `EnergyCop.SteadyCopExactly` | HeishaMon/diagnostics_energy.h:55-108 | At steady powers the COP of any range is that of its samples if and only if heat and power are observed for the same time |
| `CopPatterns.PatternBoundsCopExactly` | HeishaMon/diagnostics_energy.h:55-108 | Whatever the powers, the range COP lies within those of its samples if and only if every counted pair has both powers usable or none, or no pair has both |
| `CopPatterns.EnergyRises` | HeishaMon/diagnostics_energy.h:82-107 | More heat (or electricity) in any usable readings never lowers that energy, raises it strictly if a counted pair is among them, and leaves the other as it is |
| `DailyEnergy.ShareSplits` | HeishaMon/diagnostics_energy.h:110-153 | Cutting an interval at any time conserves its energies, degree-days and compressor seconds |
| `DailyEnergy.AccumulateAddsShare` | HeishaMon/diagnostics_energy.h:110-153 | One accumulated sample adds to a summary exactly the share of its interval inside the summary's day |
| `LiveAccounting.DailyAccounting.UpdateDailySummary` | HeishaMon/diagnostics_history.cpp:901-928 | Opens, closes and continues daily summaries; an interval across midnight goes to both days |
| `LiveAccounting.DailyAccounting.ObserveClock` | HeishaMon/diagnostics_history.cpp:3827-3838 | An expired summary is written before the sample that closes it arrives |
| `LiveAccounting.EveryDayIsExact` | HeishaMon/diagnostics_history.cpp:901-928 | Over any run whose clock does not go back, the record of every day is exactly the sum over adjacent samples clipped to that day |
| `LiveAccounting.SplittingConserves` | HeishaMon/diagnostics_history.cpp:914-924 | The records of all days together are the unsplit sum over adjacent samples |
| `EnergyMeaning.SharesExactly` | HeishaMon/diagnostics_energy.h:143-146 | Heating counts the pairs of group 1 inside the day, DHW those of group 2 |
| `DayStatistics.DayIsDescribed` | HeishaMon/diagnostics_energy.h:110-153 | At every point of a run the current summary counts, sums and bounds the outside temperatures of exactly the samples taken since the day changed, and counts their compressor starts, except one in a sample of exactly midnight |
| `HistoryReplay.DailyRecovery.FinishDay` | HeishaMon/diagnostics_history.cpp:2106-2110 | A finished day becomes today's summary or a summary file, unless the file was there |
| `HistoryReplay.DailyRecovery.RecoverSample` | HeishaMon/diagnostics_history.cpp:2112-2131 | One replayed sample: skipped when not newer, closing one day and opening the next, or added |
| `HistoryReplay.RecoveredDaysAreExact` | HeishaMon/diagnostics_history.cpp:2112-2131 | Every day without a summary file is recomputed as exactly the adjacent kept samples clipped to it, for any stored samples in any order |
| `HistoryReplay.CompletedDaysStay` | HeishaMon/diagnostics_history.cpp:2064-2131 | A day with a summary file is never written again and its samples are never added to its totals |
| `RepeatedSeconds.KeptIsWorth` | HeishaMon/diagnostics_history.cpp:2112-2131 | Replay skips all but the first sample of a second: the kept samples are worth what all are, plus what changes when the next interval begins with the first instead of the last |
| `RepeatedSeconds.RepeatsExactly` | HeishaMon/diagnostics_history.cpp:2112-2131 | If no second leads on with more from its first sample than from its last, the kept samples are worth at most what all are, and exactly that if and only if every second agrees |
| `RepeatedSeconds.DistinctSecondsAgree` | HeishaMon/diagnostics_history.cpp:2114 | Samples of distinct seconds are all kept, so nothing changes |
| `RepeatedSeconds.CompressorTimeAgrees` | HeishaMon/diagnostics_energy.h:129-147 | Compressor time depends on the later sample alone, so repeated seconds never change it |
| `ReplayOfBoots.ReplayAddsCrossings` | HeishaMon/diagnostics_history.cpp:2112-2131 | For every measure, replaying the samples of all boots reports what live accounting had on record over all boots, the intervals between the boots, and what the seconds with several samples change |
| `ReplayOfBoots.UnchangedReplayEqualsLive` | HeishaMon/diagnostics_history.cpp:2112-2131 | Replaying the samples themselves, with distinct boot ids, reports the heating and DHW energy on record over all boots and what repeated seconds change: exactly the live records if these agree, and if no second gains, never more and only then as much |
| `ReplayOfBoots.RebootsCountExactly` | HeishaMon/diagnostics_energy.h:110-153 | For compressor time, and for degree-days if the repeated seconds agree, replay is at least the live records, and equal to them if and only if every reboot lasts longer than 600 s, lies outside the day, or ends with the compressor off (or with temperatures that give no degree-days) |
| `ReplayOfBoots.RebootCountsAsRunning` | HeishaMon/diagnostics_energy.h:129-147 | A short reboot that ends with the compressor on: replay counts it as running time, live accounting records nothing |
| `ReplayOfBoots.RepeatedSecondLosesEnergy` | HeishaMon/diagnostics_history.cpp:2114 | Two samples in one second, the first with the compressor off: the next interval is on record live, and replay reports none of it |
| `StoredFlags.GroupSurvivesUnless` | HeishaMon/diagnostics_history.cpp:1470-1481 | A sample made by `makeSample` keeps its efficiency group in a row, except with forced DHW, a frequency between 0.5 and 0.55 Hz, or a heater alone without a frequency reading |
| `StoredFlags.EnergySurvivesExactly` | HeishaMon/diagnostics_history.cpp:1470-1481 | A pair keeps its heating and DHW energy through its rows if and only if it stays in the group it is counted in, or has no energy in the window |
| `StoredFlags.EnergySurvivesExactlyInSums` | HeishaMon/diagnostics_history.cpp:1470-1481 | If only forced DHW changes groups, restored samples have at least the heating and at most the DHW energy, and the same if and only if every pair keeps its group |
| `StoredFlags.GroupsKeepPairs` | HeishaMon/diagnostics_history.cpp:1470-1481 | If every sample keeps its group, every pair keeps its energy |
| `StoredFlags.OtherMeasuresSurvive` | HeishaMon/diagnostics_history.cpp:1470-1481 | Degree-days never depend on the flags, and compressor time on the compressor's alone |
| `StoredReplay.TailIsExact` | HeishaMon/diagnostics_history.cpp:2172-2182 | Cutting a file to its tail keeps exactly the lines of which fewer than 1024 bytes are left |
| `StoredReplay.CutExactly` | HeishaMon/diagnostics_history.cpp:2164-2194 | After any files, the next one is read from its tail on if and only if it is longer than 1024 bytes, its day is over and has a summary file, from before or written while the earlier files were read; else all of its rows are read |
| `StoredReplay.SkipsExactly` | HeishaMon/diagnostics_history.cpp:2168-2182 | A line is read unless its file is completed and longer than 1024 bytes, and 1024 bytes or more are left from it on |
| `StoredReplay.NextFile` | HeishaMon/diagnostics_history.cpp:2143-2155 | One scan of the directory finds the file with the least date after the last one |
| `StoredReplay.VisitFile` | HeishaMon/diagnostics_history.cpp:2168-2194 | One file: cut to its tail if its day is past and has a summary file, then every row with a time up to now, in order |
| `StoredReplay.VisitRecoveryHistory` | HeishaMon/diagnostics_history.cpp:2136-2199 | All files in the order of dates, up to one that cannot be read |
| `StoredReplay.RestoreEnergyHistory` | HeishaMon/diagnostics_history.cpp:2201-2221 | The recovery as a whole; the last day is finished only if every file could be read |
| `SkippedRows.SkippedRowsAreMissed` | HeishaMon/diagnostics_history.cpp:2168-2194 | All stored samples are worth what the visited ones are, plus the intervals of the skipped ones, less those seen in their place |
| `SkippedRows.TailVisitIsExact` | HeishaMon/diagnostics_history.cpp:2168-2194 | A day without a summary file is reported as all stored samples, less what was missed, plus what repeated seconds change; if no skipped sample is of the day and these agree, it is exact if and only if the first interval into every file is worth the same with and without the skipped rows |
| `SkippedRows.FarTailVisitIsExact` | HeishaMon/diagnostics_history.cpp:2168-2194 | If the tails begin more than 600 s after what was stored before and repeated seconds agree, the day is never overstated, and exact if and only if no skipped interval is worth anything in it, also when its last samples are in the next day's file |
| `SkippedRows.TailLosesFirstInterval` | HeishaMon/diagnostics_history.cpp:2168-2182 | Any number of samples of other days, the first ones skipped and the visited ones beginning more than 600 s after the last sample of the day: the day is reported as 0, and recorded live as the share of its closing interval |
| `SkippedRows.RunningPastMidnightIsLost` | HeishaMon/diagnostics_history.cpp:2168-2182 | In particular a compressor that runs past midnight loses its time up to midnight, which is on record live |
| `ReplayedFiles.RowsParseBack` | HeishaMon/diagnostics_history.cpp:2187-2192 | A file of printed rows parses to the restored samples of these rows |
| `ReplayedFiles.ReplayOfFiles` | HeishaMon/diagnostics_history.cpp:2136-2221 | For every measure, what is reported from the files is the live record, plus the intervals between boots, plus what the re-derived flags and the repeated seconds change, less what is skipped |
| `ReplayedFiles.ReplayEqualsLive` | HeishaMon/diagnostics_history.cpp:2136-2221 | If every pair keeps its group, the repeated seconds agree, and either no skipped sample is of the day or all tails begin more than 600 s later, the heating and DHW energy of a replayed day is that on record live if and only if nothing that counts was skipped |
| `ReplayedFiles.FlagsDecide` | HeishaMon/diagnostics_history.cpp:2136-2221 | If nothing that counts is skipped, the repeated seconds agree and only forced DHW changes groups, heating is at least and DHW at most the live record, and both are equal if and only if every pair keeps its group |
| `ReplayedFiles.CutFileLosesFirstInterval` | HeishaMon/diagnostics_history.cpp:2168-2194 | From the lines themselves: a day with one row before a past day whose file has a summary, is longer than a kilobyte and is cut behind its first row, with the tail more than 600 s later: the day is reported as 0, and recorded live as the share of that interval |
| `ReplayedFiles.ForcedDhwIsReplayedAsHeating` | HeishaMon/diagnostics_history.cpp:361-367 | Two samples of forced DHW with the valve elsewhere: the DHW energy recorded live is reported as heating energy |
| `RecoveredTails.OpenDayIsExact` | HeishaMon/diagnostics_history.cpp:2168-2194 | A day that comes after all days with a summary and is the last one with samples (or has none) is recomputed as all stored samples clipped to it, whichever files are cut |
| `RecoveredTails.CutsArePast` | HeishaMon/diagnostics_history.cpp:2168-2182 | While a day is still open, only files that end before it are cut |
| `BootChain.ChainIsExact` | HeishaMon/diagnostics_history.cpp:2064-2221 | After any number of boots, each recovering from the files of all earlier ones, past days from their tails only, and then taking samples and writing expired summaries early in any order, the heating and DHW energy on record for every day is that of all adjacent samples clipped to it, if every pair keeps its group and repeated seconds agree |
| `BootChain.ChainIsSound` | HeishaMon/diagnostics_history.cpp:3827-3838 | At every point of the chain only past days have files, every day with samples has a file or is the current one, and a summary written early equals the current one |
| `RamDownsampling.HistoryPoints` | HeishaMon/diagnostics_history.cpp:3609-3639 | At most maxPoints points, evenly filled; every matching sample in exactly one, in order; their energies sum to the energy of the whole matching sequence |
| `RamDownsampling.InRangeExactly` | HeishaMon/diagnostics_history.cpp:706-718 | A sample is in range if its age by the wall clock, or else by the uptime, is between 0 and the range |
| `StoredDownsampling.StoredHistoryOutput.Finish` | HeishaMon/diagnostics_history.cpp:2436-2453 | A non-empty bucket becomes a point while there is a slot |
| `StoredDownsampling.StoredHistoryOutput.Add` | HeishaMon/diagnostics_history.cpp:2455-2484 | One visited sample: range totals, bucket change, aggregate and its own energy |
| `StoredDownsampling.StoredHistoryOutput.Visit` | HeishaMon/diagnostics_history.cpp:2535-2548 | The visit of a period from cleared state to the last point |
| `StoredDownsampling.PointsAreBucketRuns` | HeishaMon/diagnostics_history.cpp:2436-2484 | The points are the first maxPoints maximal runs of samples in one time bucket, each with the energy of its own samples |
| `StoredDownsampling.BucketExactly` | HeishaMon/diagnostics_history.cpp:2467-2470 | Bucket b covers the times from b to b + 1 parts of the period, and the last one also its end |
| `StoredDownsampling.EverySampleIsShown` | HeishaMon/diagnostics_history.cpp:2436-2484 | Every sample is in exactly one point if and only if there are no more runs than slots |
| `StoredDownsampling.TimeOrderedSamplesAreAllShown` | HeishaMon/diagnostics_history.cpp:2436-2484 | For time-ordered samples the slot guard never fires and nothing is lost |
| `StoredDownsampling.ClockSetBackLosesSamples` | HeishaMon/diagnostics_history.cpp:2436-2437 | Samples recorded around a clock that was set back can be lost, at any time |
| `StoredDownsampling.RangeTotalsAreWhole` | HeishaMon/diagnostics_history.cpp:2458-2464 | The heating and DHW totals of the period are those of the whole stream |
| `EnergyLedger.RecordedEnergyLedger.Update` | HeishaMon/energy_reporting.h:46-74 | An invalid update changes nothing; any other one books its session delta to the day and to the first entry of its month |
| `EnergyLedger.UpdateCountsExactly` | HeishaMon/energy_reporting.h:46-62 | An update counts unless it has no day or a missing or negative value, and then becomes the last reading of its day |
| `EnergyLedger.RecordedEnergyLedger.MonthTotal` | HeishaMon/energy_reporting.h:76-82 | The entry of a month |
| `EnergyLedger.RecordedEnergyLedger.YearTotal` | HeishaMon/energy_reporting.h:84-91 | The sum over all entries of a year |
| `EnergyLedger.LedgerConserves` | HeishaMon/energy_reporting.h:46-74 | Over any run keys stay unique, each delta reaches its own month and no other, and all months together grow by exactly the deltas |
| `EnergyLedger.SessionAddsItsLastLiveValue` | HeishaMon/energy_reporting.h:49-62 | A session adds to the day exactly its last live value if and only if the live value never falls |
| `EnergyLedger.RepeatingAddsNothing` | HeishaMon/energy_reporting.h:46-74 | Repeating an update changes nothing |
| `EnergyLedger.YearIsSumOfMonths` | HeishaMon/energy_reporting.h:76-91 | The year equals the sum of its twelve months |
| `SampleFlush.HistoryRecorder.StoreSample` | HeishaMon/diagnostics_history.cpp:651-663 | Writes the next slot of the ring, overwriting the oldest sample when it is full |
| `SampleFlush.HistoryRecorder.BeginFlush` | HeishaMon/diagnostics_history.cpp:2996-3018 | Notes the ring position and opens the file; a file that does not open ends logging |
| `SampleFlush.BeginsExactly` | HeishaMon/diagnostics_history.cpp:2996-3018 | A flush begins if there are samples, logging is on, the date is known and the file opens; a file that does not open ends logging |
| `SampleFlush.HistoryRecorder.SkipOverwritten` | HeishaMon/diagnostics_history.cpp:3020-3030 | Counts evicted samples as flushed |
| `SampleFlush.HistoryRecorder.WriteSlot` | HeishaMon/diagnostics_history.cpp:3034-3096 | Writes one slot if its sample is not flushed yet |
| `SampleFlush.HistoryRecorder.CloseFile` | HeishaMon/diagnostics_history.cpp:3100-3107 | Only a closed file moves the flushed number; a failure ends logging |
| `SampleFlush.HistoryRecorder.WriteSamples` | HeishaMon/diagnostics_history.cpp:2996-3108 | A whole flush without stores in between |
| `FlushRuns.RingHoldsTheNewest` | HeishaMon/diagnostics_history.cpp:651-663 | After any run the ring holds exactly the last 1440 samples, in order, with consecutive numbers |
| `FlushRuns.NeverWrittenTwice` | HeishaMon/diagnostics_history.cpp:2996-3108 | However stores interleave with the writer's locked steps, no sample is written twice in one boot, failed closes included |
| `FlushExactness.FlushIsExact` | HeishaMon/diagnostics_history.cpp:2996-3108 | A flush without stores in between writes every retained sample above the flushed number, once and in order |
| `FlushExactness.NewerIsSuffix` | HeishaMon/diagnostics_history.cpp:3043 | Those samples are a suffix of the ring |
| `FlushSchedules.ScheduleIsARun` | HeishaMon/diagnostics_history.cpp:2996-3108 | A flush with any stores before its first look, before each read and before it closes is a run of the recorder |
| `FlushSchedules.LostExactly` | HeishaMon/diagnostics_history.cpp:2996-3108 | For any number of stores: a retained due sample is counted as flushed without being written if and only if its number is not above the newest one read and it was not in its slot when that slot was read, or not above the floor |
| `FlushSchedules.LosesNothingExactly` | HeishaMon/diagnostics_history.cpp:2996-3108 | With fewer than 1440 stores nothing is lost if and only if the stores never overtake the reader, or the ring is full, the overtaken slots are its first ones, and no store came before the first look (or nothing was due) |
| `FlushSchedules.EarlyStoreHidesAll` | HeishaMon/diagnostics_history.cpp:3020-3030 | A store over the oldest slot of a full ring before the first look makes every retained due sample count as flushed |
| `FlushSchedules.OneStoreLosesOnlyEarly` | HeishaMon/diagnostics_history.cpp:2996-3108 | With a single store nothing is lost, except if and only if it is such an early one and something was due |
| `FlushSchedules.TwoStoresLoseOne` | HeishaMon/diagnostics_history.cpp:3034-3043 | Two stores between the first two reads of a full ring: the first is retained, not in the file, and below the flushed number |
| `HistoryCsv.SplitFields` | HeishaMon/diagnostics_history.cpp:1373-1384 | Cuts a line at its commas; more than 32 fields are refused |
| `HistoryCsv.ParseStoredSample` | HeishaMon/diagnostics_history.cpp:1371-1483 | The parser as a whole, with its refusals |
| `HistoryCsv.RowRoundTrip` | HeishaMon/diagnostics_history.cpp:3043-3094 | A printed row parses back to the same sample up to derived flags, sequence and uptime, if its timestamp is not before 2024, and is refused otherwise |
| `HistoryUnits.PrintedInUnits` | HeishaMon/diagnostics_history.cpp:3043-3094 | Which of the 32 fields shows which value, as its digits with the point before the last 0, 1, 2 or 3: temperatures in tenths of a degree, flow and thermal power with two decimals, watts as kW with three |
| `HistoryUnits.ParsedInUnits` | HeishaMon/diagnostics_history.cpp:1393-1464 | For any row that is taken, each reading is the number of its field times 1, 10, 100 or 1000, rounded half away from zero and held to 16 bits; text that is no number, and negative text of an unsigned field, is no reading |
| `HistoryUnits.TakenExactly` | HeishaMon/diagnostics_history.cpp:1371-1391 | A row is taken if and only if it is no header, has 26 to 32 fields, a timestamp from 2024 on, and a boot number and source that can be read where they are there |
| `HistoryUnits.FlagsOfTaken` | HeishaMon/diagnostics_history.cpp:1470-1481 | The flags of a row that is taken follow from its frequency, its operating state and its valve |
| `HistoryCsv.RestoringTwice` | HeishaMon/diagnostics_history.cpp:1371-1483 | Writing a restored sample again loses nothing more |
| `HistoryCsv.ShiftColumn` | HeishaMon/diagnostics_history.cpp:1433-1440 | A curve shift survives if and only if it is not -128 |
| `HistoryCsv.SplitOfJoined` | HeishaMon/diagnostics_history.cpp:1373-1383 | Splitting a joined row gives its fields, empty ones included |
| `CsvNumbers.FixedRoundTrip` | HeishaMon/diagnostics_history.cpp:1355-1360 | Parsing a printed fixed-point number gives that number, also between -1 and 0 |
| `CsvNumbers.ReadBack` | HeishaMon/diagnostics_history.cpp:266-278 | Scaling the parsed number gives back the printed integer |

## Left out

- Command encoders and the 45-row confirmation table: a request carries the encoded bytes and its table row; decoders of topics other than the curve bytes are one uninterpreted function of the frame.
- Null pointers for topic, payload, buffer or dispatcher, and the log texts of all functions.
- Order of commands after 2^32 sequence numbers, and "latest request wins": a request skipped as already reported leaves an older pending one in place.
- Float rounding: powers, energies and temperatures are reals, printed numbers exact decimals. Live values that are not finite exist only in the ledger.
- Time zones: local midnight is any function with ordered days that reach back to their start (`LocalDays`); the exactness results also need days longer than 600 seconds (`LongDays`).
- SchedulerPreview.PreviewIsFirstDue: counts minutes on a calendar of 24-hour days, so a change of daylight saving time before the previewed minute is not modelled.
- SchedulerClaims.ClaimedExactlyOncePerMinute: an edit of the entry's own time between two passes is not part of the run.
- Observers and guards of queued groups: a guard is one answer per attempt, observers do not call back into the scheduler. The event log of the scheduler is not kept.
- Condition sources and their ages: a reading is available with a value, or not.
- The curve-shift and water-target actions of the dispatcher: their code is elsewhere and gives an arbitrary result here.
- SterilizationWorkflow.DashboardWorkflow.ProcessWorkflow: liveness is not claimed, since the workflow may stay active while the hot water is below target.
- LiveAccounting.DailyAccounting.UpdateDailySummary: summary files are written at once and always succeed; in the firmware a full work queue drops the write.
- LiveAccounting.DailyAccounting.ObserveClock: may write an expired summary at any time, while the firmware does so once, when it notices the new day. A reboot between this write and the next sample leaves a summary file without the closing share of compressor time and degree-days; energy is not concerned, since the next sample has another boot id.
- Interval counts of a day are computed but not claimed to be conserved; outside temperatures and compressor starts are described for the day that is being recorded, not for replayed ones.
- StoredReplay.VisitRecoveryHistory: the directory itself can always be opened; where it cannot, the firmware gives up for this time as with a file that cannot be read.
- StoredReplay.VisitFile: a line of 512 characters or more, which the firmware reads in pieces, is one line here; opening, seeking and reading a file are one flag.
- ReplayedFiles.ReplayOfFiles: every recorded sample has reached its file. Samples that a reboot takes from memory before they are flushed are on record live and cannot be replayed.
- BootChain.ChainIsExact: energy only, since compressor time and degree-days count reboots; every recovery finds all its files readable and all earlier samples in them, each in a file of its own day or a later one.
- StoredDownsampling.StoredHistoryOutput.Add: the averaged readings shown for a point and the source-state list are not modelled, only which samples a point holds and its energy.
- Sample numbers do not wrap at 2^32, and the ring buffers are allocated.
- HistoryCsv.RowRoundTrip: the zone 1 request, its meaning and the COP column are carried as text and not interpreted; external sensor values are not in the row.
- HistoryCsv.ParseStoredSample: hexadecimal, exponent and infinite number forms and leading blanks that strtof and strtoul accept are not parsed, and a line is not cut at 511 characters.
- Cycle tracking (`diagnosticsUpdateCycle`), the event ring, daily, cycle and event files: per-branch assignments, or smaller copies of the sample ring.
- The rules engine, web pages, JSON, MQTT transport and discovery, OpenTherm, GPIO, S0 and Dallas sensors.
