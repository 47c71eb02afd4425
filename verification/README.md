# The Forge daemon: verified models

The Forge is a daemon that runs inference services in a small number of slots of one host. This project
models the parts of its Go code that carry the hardest promises and proves those promises for all inputs
and all runs. `dafny verify dfyconfig.toml` checks everything.

| part | modules | what is proved |
|---|---|---|
| cron schedules | `Text`, `Calendar`, `CronParse`, `CronNext`, `CronHorizon` | the search that jumps over months, days and hours returns what a minute-by-minute scan returns, over a full Gregorian calendar; parsing gives exactly the union of the terms; when the day rule is that of its comments |
| slot lifecycle | `SlotInference`, `Lifecycle`, `LifecycleSafety`, `LifecycleGaps`, `LifecycleServed`, `Manager`, `RecordedMode`, `Engine`, `EngineGaps` | over every interleaving of operations, systemd and reconciliation no two slots track one mode and a mode is dropped only when its unit is gone; exactly which start-up states are safe, which loads find their unit gone and which commit a mode that the slot's process serves; the imperative operations are runs of the machine; exactly when a successful switch leaves its slot with the mode |
| fit planning | `FitPlan`, `FitOptimal`, `KvCache` | the verdict is exact, evictions are bottleneck-optimal, and exactly when they free the least memory and when one is needless; exactly when the KV-cache figure grows with the context and stays below the full-cache figure |
| GGUF metadata | `GgufFormat`, `GgufMetadata`, `GgufParse`, `GgufScan`, `GgufReader`, `GgufRoundTrip`, `GgufLookup` | reading an encoded file gives the lookup in the table of its pairs, consumes exactly the header and the pairs, and ignores the order of the pairs; exactly when the reader panics |
| context ledger | `ConvLru`, `Measure`, `Conversation`, `ConversationRun`, `ConversationGaps`, `Ledger`, `Percentile` | what the requests of a conversation create adds up to its total, and exactly which requests of others prevent that; the cache returns exactly the latest put; percentiles are exact order statistics |
| compressor | `Chunking`, `Scoring`, `Compressor` | chunks are the fewest possible; batched scoring equals scoring alone; the output does not depend on the batch size |
| run monitors | `HangDetector`, `Download` | an alert means a sustained unbroken stall; part files stay prefixes of the remote file under any cuts and retries; exactly which files a later run can finish |

Code that changes things step by step is modelled by methods and classes, each tied by its `ensures` to a
specification function; lemmas state what that function promises. Go integers are unbounded here except
where 64-bit wrap-around matters, where `WrapInt64` is applied.

Places where the code and its comments differ, or where a promise holds only under a condition, are stated
as equivalences:

- The comment at cron.go:79-84 counts a stepped wildcard as restricted; the code counts it as a star. The
  two day rules agree on every day exactly under the condition of `CronHorizon.DayRuleAsCommented`; for `*/2`
  and Mondays they differ (`CronHorizon.SteppedWildcardDiffers`).
- A schedule bound to 29 February reaches the search horizon although it is possible, against the comment
  at cron.go:30-32 (`CronHorizon.HorizonMeansImpossible` by schedule, `CronHorizon.ExhaustsExactly` by call).
- A cron step above 2^63-1 minus the first value wraps around and panics (`CronParse.MarkTerm`); the
  minute field `1/9223372036854775807` does (`CronParse.LargestStepPanics`).
- The comment at memory.go:275-277 has the plan free the least memory necessary. Smallest first does that,
  whatever is free and needed, exactly when the loaded slots that hold memory all hold the same
  (`FitOptimal.PlanFreesLeastExactly`, `FitOptimal.LeastMemoryMissed`). A listed slot may even be needless:
  exactly when the first listed one is (`FitPlan.NeedlessEviction`, `FitPlan.NeedlessWithComfyUI`).
- Without `--swa-full` the estimate is never above the full-cache figure exactly when the windowed layers'
  head counts do not add up to a negative rate (`KvCache.NeverAboveFullCache`); metadata may hold negative
  ones (`KvCache.NegativeHeadCount`).
- The comment at kvcache.go:37-38 pads min(n_ctx, window + n_ubatch); the code takes the smaller of the
  padded window and n_ctx. The code never counts more cells; `KvCache.CellsAsCommented` says exactly when it
  counts as many, and `KvCache.CellsCommentedExample` where it counts fewer.
- The comment at kvcache.go:123-130 takes the configured context as the cell count and lets `--parallel`
  above 1 err high. The code divides by it (kvcache.go:206), so the figure errs low: it is below the one at
  the configured context exactly when a whole byte lies between the two (`KvCache.FigureBelowExactly`), and
  that happens at some context for every model whose cache comes to a byte (`KvCache.ParallelUndercutsExactly`).
- The length check on skipped scalar arrays multiplies before it compares and so lets some huge counts
  pass (`GgufParse.LengthCheckExact`). A single head count for more than 2^45 layers makes the reader panic
  (`GgufLookup.ReadAllIsLookup`, `GgufLookup.HugeLayerCountPanics`).
- Load treats a unit that is activating as not occupying its slot, so it can start a unit whose process
  is alive, against the comment at lifecycle.go:208-211. A load is sure to find its unit gone exactly when,
  as it reads the unit, that is gone or ordered to stop (`LifecycleGaps.LoadFindsGoneExactly`). Otherwise it
  may commit a mode that the slot's process does not serve, unless the slot's file already served it
  (`LifecycleServed.LoadServesExactly`). A unit that is restarting while the daemon starts can make two slots track one mode (`LifecycleGaps.SafeStartExactly`).
- SwitchMode and Restart go by the state file, which Load does not write. After a successful switch the
  mode's slot tracks it exactly when the shortcut at lifecycle.go:31-35 was not taken or the slot tracked it
  already (`Engine.Engine.SwitchMode`; when the shortcut may be taken is `RecordedMode.ShortcutExactly`).
  Modes placed in the same slot fit the same units, so after a switch to one and a load of another into its
  slot a switch back succeeds and changes nothing (`EngineGaps.SwitchBack`), and a restart starts the first
  one (`EngineGaps.RestartStarts`).
- `unloadAll` clears every mode even when `stopAll` has failed, so a mode may be dropped while its unit is
  still going down; nothing else drops one then (`LifecycleSafety.ModeDroppedOnlyWhenGone`,
  `LifecycleGaps.UnloadAllDropsEarly`).
- The conversation cache's `get` does not refresh recency, so a conversation that is only read is evicted
  in the order of its last put (`ConvLru.GetFindsLatestPut` counts puts only).
- What a conversation creates adds up (`ConversationRun.CreationIsConserved`) only while its entry is left
  alone. Before its second message it stands under a short key, which every conversation of the same
  consumer with the same first message shares, so such a one can take the entry away, replace it or answer
  for it although nothing was evicted and nothing expired (`ConversationGaps.CountedTwice`,
  `ConversationGaps.FlaggedUnedited`, `ConversationGaps.NeverCounted`). Exactly which requests do so is
  `ConversationGaps.OneRequestBetween`.
- A part file that is already complete can be finished only by a server that ignores the range
  (`Download.CompletePartNeedsFullResend`), and a file whose record failed after the rename never again
  (`Download.StrandedForever`).

## Model

| member | source | states |
|---|---|---|
| Text.SplitOnJoins | go/internal/cron/cron.go:88 | splitting a field at commas loses nothing: joining the parts gives the field back |
| Text.FieldsOfJoin | go/internal/cron/cron.go:49 | words joined by single blanks are exactly the fields of the result |
| Calendar.DateOf | go/internal/cron/cron.go:139-140 | every day number is the number of exactly the valid date returned, by the 400/100/4/1-year cycles of Go's time package |
| Calendar.DateOfDayNumber | go/internal/cron/cron.go:159-164 | the date of a date's day number is that date: days and dates are in bijection |
| Calendar.DayNumberIncreases | go/internal/cron/cron.go:159-168 | later dates have larger day numbers |
| Calendar.TimeDateOfFields | go/internal/cron/cron.go:159 | rebuilding a minute from its calendar fields with time.Date gives the same minute |
| Calendar.FieldsOfTimeDate | go/internal/cron/cron.go:159-172 | the fields of a time built by time.Date are the ones it was built from |
| CronParse.ParseField | go/internal/cron/cron.go:85-133 | the membership table is exactly the union of the comma-separated terms and the star flag says that all of them are wildcards; otherwise the first faulty term decides between a syntax error and an index panic |
| CronParse.MarkTerm | go/internal/cron/cron.go:128-130 | the stepping loop marks exactly the members of its term, and panics exactly when first value plus step leaves int64 |
| CronParse.DenotationUnique | go/internal/cron/cron.go:85-133 | a list of terms denotes at most one result, so the specification of a field is a function |
| CronParse.Parse | go/internal/cron/cron.go:46-77 | an expression parses to the tables of its five fields, is rejected or panics by its first faulty field, and a parsed schedule has non-empty tables within the field bounds |
| CronParse.ParseUnique | go/internal/cron/cron.go:46-133 | an expression has at most one result, so a parse, a rejection and a panic exclude each other |
| CronParse.LargestStepOverflows | go/internal/cron/cron.go:87-130 | the term `1/9223372036854775807` is read as the step 2^63-1 from value 1, whose next index leaves int64 |
| CronParse.LargestStepPanics | go/internal/cron/cron.go:106-130 | an expression of five fields whose minute is `1/9223372036854775807` panics and has no other result |
| CronParse.LargestStepExample | go/internal/cron/cron.go:46-133 | there is such an expression |
| CronNext.MonthJump | go/internal/cron/cron.go:162-166 | the jump to the next month passes only minutes of the same month |
| CronNext.DayJump | go/internal/cron/cron.go:167-170 | the jump to the next day passes only minutes of the same day |
| CronNext.HourJump | go/internal/cron/cron.go:171-174 | the jump to the next hour passes only minutes of the same hour |
| CronNext.ScanSkips | go/internal/cron/cron.go:161-180 | a scan started later gives the same result when no minute in between fires |
| CronNext.Next | go/internal/cron/cron.go:157-182 | the jumping search terminates and returns exactly what the minute scan from the next minute to the horizon returns |
| CronNext.NextFireIsEarliest | go/internal/cron/cron.go:153-182 | the answer is the earliest matching minute strictly after the start and before the horizon, and there is none exactly when no such minute matches |
| CronHorizon.DayRuleAsCommented | go/internal/cron/cron.go:79-151 | for a parsed expression the code's day rule is the comments' rule, in which only wildcards without a step are unrestricted, on every day exactly when the star flags mean that or the fields judged differently leave out no day that matters |
| CronHorizon.SteppedWildcardIsStar | go/internal/cron/cron.go:79-105 | `*/2` parses as a star although it leaves out day 2 |
| CronHorizon.SteppedWildcardDiffers | go/internal/cron/cron.go:79-151 | for the day fields `*/2` and `1` the comments' rule matches a Tuesday the 3rd and the code's does not |
| CronHorizon.SteppedWildcardExample | go/internal/cron/cron.go:46-151 | an expression with these day fields parses |
| CronHorizon.YearlyNeverExhausts | go/internal/cron/cron.go:30-32 | a schedule with a date in every year always finds a fire time |
| CronHorizon.LeapDayExhausts | go/internal/cron/cron.go:30-32 | from 1 March 2096 a schedule bound to 29 February finds nothing within the horizon |
| CronHorizon.HorizonMeansImpossible | go/internal/cron/cron.go:30-32 | only impossible schedules reach the horizon, exactly for schedules not bound to 29 February |
| CronHorizon.ExhaustsExactly | go/internal/cron/cron.go:30-32 | one call finds nothing for a possible schedule exactly when the schedule is bound to 29 February and none with an allowed hour and minute lies between the start and the horizon |
| SlotInference.InferSlotMode | go/internal/engine/sysconfig.go:116-141 | whatever order the modes are visited in, the result is a mode with the file's alias, else one whose model file ends the path, else none |
| SlotInference.InferenceIsExact | go/internal/engine/sysconfig.go:100-141 | a file written for a mode is read back as that mode and no other, however many modes share its model file |
| LifecycleSafety.StepKeeps | go/internal/engine/lifecycle.go:21-355 | every step of every operation, `unloadAll` included, of systemd and of reconciliation keeps the invariant: modes distinct, every unit that may be up tracked, and what each operation knows |
| LifecycleSafety.BootEstablishes | go/internal/engine/manager.go:144-180 | the reconciliation at start-up establishes the invariant |
| LifecycleSafety.AdoptedMode | go/internal/engine/manager.go:364-373 | a reconciliation only keeps a mode, clears it, or adopts the mode that the running operation is starting in that slot |
| LifecycleSafety.OneSlotPerMode | go/internal/engine/lifecycle.go:149-167 | in every reachable state no two slots track the same mode |
| LifecycleSafety.ModeDroppedOnlyWhenGone | go/internal/engine/manager.go:351-381 | a slot's mode goes from set to empty only while its unit is gone, never while it is active, activating or deactivating, whether SlotStates, Unload or SwitchMode clears it; only `unloadAll` after a failed wait may clear it while the unit is going down by an order |
| LifecycleSafety.StartedOnlyWhenSeenFree | go/internal/engine/lifecycle.go:208-232 | a unit is started only after it was seen neither active nor deactivating, and if it was seen gone it still is at the start |
| LifecycleSafety.CommitIsExclusive | go/internal/engine/lifecycle.go:239-247 | after a load or switch commits, its mode is tracked by its slot and by no other |
| LifecycleGaps.LoadStartsLiveUnit | go/internal/engine/lifecycle.go:208-232 | a run in which Load starts a unit that is active: it was seen activating and came up before the start |
| LifecycleGaps.StartFindsGoneExactly | go/internal/engine/lifecycle.go:208-232 | over all runs the unit is sure to be gone when it is started exactly when it was seen gone |
| LifecycleGaps.LoadFindsGoneExactly | go/internal/engine/lifecycle.go:208-232 | in every reachable state in which a load is about to read its unit, every way on to a start finds the unit gone exactly when it is gone by then or has been ordered to stop |
| LifecycleGaps.UnloadAllDropsEarly | go/internal/engine/lifecycle.go:291-300 | for every slot and loadable mode a run from a fresh start in which `unloadAll` clears the mode of a unit still deactivating |
| LifecycleGaps.SafeStartExactly | go/internal/engine/manager.go:144-180 | with two slots and a loadable mode, no run from a start-up state makes two slots track one mode exactly when every unit is down, ordered to stop, or active under a file standing for a mode of its own |
| LifecycleGaps.RestartingIsUnsafe | go/internal/engine/lifecycle.go:208-232 | from an untracked unit that is restarting there is a run in which two slots track one mode, by a failed write and a load elsewhere |
| LifecycleServed.StepIsLived | go/internal/engine/dbus.go:50-62 | every step of the lifecycle is one that the units' processes can go along with, each reading its file once as its unit comes up |
| LifecycleServed.GoneThenServed | go/internal/engine/lifecycle.go:208-247 | in every run a mode that is committed after its unit was seen gone, as in every switch, is the one that the slot's process serves |
| LifecycleServed.LoadServesExactly | go/internal/engine/lifecycle.go:208-247 | in every reachable state in which a load is about to read its unit, every way on to its commit has the slot's process serving the mode exactly when the unit is gone or ordered to stop, or the slot's file already serves the mode and so does a process that is on its way up |
| LifecycleServed.LoadOverRestart | go/internal/engine/lifecycle.go:208-247 | for every slot and two loadable modes a run from a fresh start to a load that may commit one mode while the slot's process serves the other |
| Manager.SlotTable.constructor | go/internal/engine/manager.go:169-177 | every configured slot starts with an empty record |
| Manager.SlotTable.SlotStates | go/internal/engine/manager.go:351-381 | every configured slot is reconciled once by the machine's relation, transitions and other records stay, and the returned assignments are the new records |
| Manager.SlotTable.SetTransition | go/internal/engine/manager.go:399-406 | only the transitions of the named, existing slot change |
| Manager.SlotTable.SetSlotMode | go/internal/engine/manager.go:408-414 | only the mode of the named, existing slot changes |
| Manager.SlotTable.ClearAllSlots | go/internal/engine/manager.go:416-424 | every record becomes empty and no record appears or disappears |
| Manager.TableStepIsMachineStep | go/internal/engine/manager.go:351-397 | one pass of SlotStates over a current report that may miss units, as the method performs it on a table holding the machine's modes, reconciles every slot that was read, keeps the others, and is a reconciliation step of the machine whose modes the table then holds |
| Manager.UnreadUnitKeepsMode | go/internal/engine/manager.go:385-397 | the record of a unit missing from the report stays exactly as it was |
| Manager.ReportIsCurrent | go/internal/engine/manager.go:385-397 | the report built from the units shows each of them as SlotStates takes it, but for those that could not be read |
| Manager.ReconcileMode | go/internal/engine/manager.go:364-373 | one slot's switch infers for an active unit without a mode, clears when the unit is gone, and otherwise keeps the mode |
| Manager.WaitUnitGone | go/internal/engine/lifecycle.go:359-376 | true exactly when some poll every 2 s, up to and including the first at or past the timeout, shows the unit gone; it stops at the first such poll |
| Manager.WaitServiceRunning | go/internal/engine/lifecycle.go:381-433 | true exactly when the process is seen running in time before it is seen stopped and, if it has a port, then answers /health in time before it is seen crashed |
| RecordedMode.StateFile.Save | go/internal/engine/manager.go:211-223 | a save that works replaces the file by the mode and a time stamp; one that fails leaves it |
| RecordedMode.SavedIsRecorded | go/internal/engine/manager.go:211-235 | a saved mode is read back exactly when its name is one word |
| RecordedMode.FullyActive | go/internal/engine/lifecycle.go:302-317 | true exactly when the active units are those of the mode |
| RecordedMode.Reconciled | go/internal/engine/manager.go:308-324 | whatever order the modes are visited in, finds an inference mode whose units are the active ones, or none exactly when there is none |
| RecordedMode.CurrentMode | go/internal/engine/manager.go:274-335 | answers the recorded mode when its units are the active ones, else saves and answers a mode that fits, else the recorded one or "unknown"; the file changes in the second case only |
| RecordedMode.ShortcutExactly | go/internal/engine/lifecycle.go:31-36 | the answer may be a mode that is fully active exactly when that mode fits the units and is the recorded one, or no recorded mode fits and the fallback may pick it |
| RecordedMode.FitsBySlots | go/internal/engine/manager.go:253-306 | modes placed in the same slots fit the same units |
| RecordedMode.FitsTarget | go/internal/engine/manager.go:253-306 | a mode with a slot fits exactly when that slot's unit is active and no other |
| Engine.Engine.constructor | go/internal/engine/manager.go:144-180 | from a fresh start, whatever the state file holds, the engine is at the end of a run of the machine with distinct modes |
| Engine.Engine.LoadedElsewhere | go/internal/engine/lifecycle.go:160-167 | the guard refuses exactly when another slot tracks the mode |
| Engine.Engine.SiblingResident | go/internal/engine/lifecycle.go:179-188 | true exactly when another slot tracks another mode with the same, known weights |
| Engine.Engine.NothingFits | go/internal/engine/lifecycle.go:190 | FitPlan's terminal refusal comes exactly when the need is unknown or exceeds everything that can be freed |
| Engine.Engine.SiblingGuard | go/internal/engine/lifecycle.go:169-197 | the guard refuses exactly when a sibling is resident at its look at the records, the budget can be read, and after FitPlan's own reconciliation nothing fits |
| Engine.Engine.SlotStates | go/internal/engine/manager.go:351-397 | a pass of the slot table over a report that may miss units reconciles every slot that was read, keeps the modes of the others, continues the run by one step and leaves the running operation where it is |
| Engine.Engine.WaitUnitGone | go/internal/engine/lifecycle.go:359-376 | polling continues the run whatever happens between polls, on readings of the unit that end as soon as one shows it gone or at the timeout; true means that the unit is gone, and a unit that was gone is found gone |
| Engine.Engine.ClearSlot | go/internal/engine/lifecycle.go:208-223 | an active unit is stopped and awaited, a deactivating one awaited; the placement goes on only from a state that the machine allows, and always when the unit was gone |
| Engine.Engine.Place | go/internal/engine/lifecycle.go:225-247 | write, start and wait are machine steps, the mode is committed exactly when the write, the start and waitServiceRunning on its readings all succeed, and a service that does not come up is stopped; undisturbed, nothing but the slot's mode and unit changes |
| Engine.Engine.Load | go/internal/engine/lifecycle.go:132-248 | for every interleaving the execution continues the run of the machine, so modes stay distinct; a load that is not allowed does nothing; the same-weights guard decides as stated for it; success leaves the slot tracking the mode; into a slot that is empty or, undisturbed, can be stopped at once, an allowed load succeeds exactly when the guard does not refuse and write, start and wait succeed; undisturbed and without a sibling, nothing but the slot's mode and unit changes |
| Engine.Engine.Unload | go/internal/engine/lifecycle.go:253-289 | for every interleaving the execution continues the run; success means that the slot is empty and its unit gone, and a unit that stops at once is always freed |
| Engine.Engine.StopAll | go/internal/engine/lifecycle.go:324-355 | every unit is ordered to stop before any is awaited; true means that each was seen gone, and it is true when all stop at once |
| Engine.Engine.UnloadAll | go/internal/engine/lifecycle.go:291-300 | the execution continues the run and leaves every slot empty, whether or not each unit was seen gone |
| Engine.Engine.AlreadyIn | go/internal/engine/lifecycle.go:31-36 | the shortcut is taken only while the units fit the mode, no unit comes up and no slot whose unit is up loses its mode meanwhile; undisturbed it is taken when the file names a fitting mode, and only when it may be |
| Engine.Engine.Activate | go/internal/engine/lifecycle.go:40-107 | stop, clear, start and record continue the run; success leaves the mode's slot tracking it and the file naming it; when all units stop at once it succeeds exactly when write, start and wait do; undisturbed, nothing else is tracked or up |
| Engine.Engine.SwitchMode | go/internal/engine/lifecycle.go:21-107 | for every interleaving the execution continues the run; after a success the mode's slot tracks it exactly when the shortcut was not taken or the slot already tracked it; without the shortcut and when all units stop at once it succeeds exactly when write, start and wait do |
| Engine.Engine.Restart | go/internal/engine/lifecycle.go:110-127 | the answer of CurrentMode is stopped, cleared and switched to, with any operations of other callers before and between the two halves; without the shortcut success leaves that mode's slot tracking it, and with no operation in between the shortcut is not taken for a mode that has a slot; "unknown" is refused and "unloaded" accepted without a step |
| EngineGaps.SwitchBack | go/internal/engine/lifecycle.go:21-107 | from a fresh start, after a switch to one mode and a load of another into its slot, a switch back succeeds while the slot goes on tracking the other |
| EngineGaps.RestartStarts | go/internal/engine/lifecycle.go:110-127 | in that state a restart ends with the first mode in the slot |
| EngineGaps.RivalsExist | go/cmd/forge/merged_config.go:271-285 | any two modes placed in one slot are such a pair, the first being one word |
| FitPlan.EvictSmallest | go/internal/engine/memory.go:375-383 | the eviction loop lists the shortest prefix of the candidates that covers the shortfall, or all of them |
| FitPlan.FitPlan | go/internal/engine/memory.go:275-434 | refuses exactly when the need is unknown or exceeds free memory minus in-flight loads plus all loaded slots and ComfyUI; proposes ComfyUI exactly when the slots together fall short; and fixes slot, eviction list and figures in every other case |
| FitPlan.SortKeeps | go/internal/engine/memory.go:368-373 | sorting candidates loses none and orders them by footprint |
| FitPlan.EvictionIsBottleneckOptimal | go/internal/engine/memory.go:357-383 | every set of loaded slots that frees enough holds a slot at least as large as the largest one evicted |
| FitPlan.EvictionListsLoadedSlotsOnce | go/internal/engine/memory.go:357-383 | evictions are distinct loaded slots in ascending size, and all of them when ComfyUI is proposed |
| FitPlan.EvictionSuffices | go/internal/engine/memory.go:375-399 | the listed evictions with ComfyUI free enough, and without the last slot the slots alone do not |
| FitPlan.LastEvictionWithComfyUI | go/internal/engine/memory.go:392-415 | with ComfyUI stopped too, the last eviction is needed exactly when ComfyUI and all slots but the largest fall short |
| FitPlan.ComfyUIEvictsNeedlessly | go/internal/engine/memory.go:385-415 | a machine where stopping ComfyUI alone would do, yet the plan evicts a slot as well |
| FitPlan.NeedlessEviction | go/internal/engine/memory.go:375-383 | some listed slot could stay exactly when the first, smallest one could |
| FitPlan.NeedlessWithComfyUI | go/internal/engine/memory.go:375-420 | with ComfyUI proposed, some listed slot could stay exactly when free memory, ComfyUI and all loaded slots but the smallest cover the need |
| FitPlan.FirstNeedlessLastNeeded | go/internal/engine/memory.go:375-420 | a machine where the smallest listed slot could stay and the largest could not |
| FitPlan.SmallestFirstEvictsNeedlessly | go/internal/engine/memory.go:375-383 | a machine without ComfyUI where both slots are listed and the larger alone would do |
| FitOptimal.SmallestFirstIsLeastExactly | go/internal/engine/memory.go:275-277 | for every shortfall the shortest prefix of the eviction order frees no more than any set of slots that covers it, exactly when the slots that hold memory all hold the same |
| FitOptimal.PlanFreesLeastExactly | go/internal/engine/memory.go:275-383 | every plan of evictions frees the least memory that makes room, whatever is free and whatever is needed, exactly when the loaded slots that hold memory all hold the same |
| FitOptimal.LeastMemoryMissed | go/internal/engine/memory.go:275-383 | with 3, 4 and 6 bytes loaded and 6 needed the plan frees 7, no listed slot could stay, and the third slot alone would free 6 |
| KvCache.PadTo256 | go/internal/engine/kvcache.go:118-121 | the smallest multiple of 256 not below the argument |
| KvCache.KvCacheBytes | go/internal/engine/kvcache.go:133-184 | an estimate is given exactly when the model is not hybrid and its layer data are complete, and it is the sum over the layers of cells times bytes per cell |
| KvCache.WindowedCells | go/internal/engine/kvcache.go:166-178 | clamping before and after padding gives min(window padded to 256, n_ctx) cells for a windowed layer and n_ctx otherwise |
| KvCache.CellsAsCommented | go/internal/engine/kvcache.go:37-38 | the code's cells are at most the comment's padded min(n_ctx, window + n_ubatch), and equal exactly when n_ctx is a multiple of 256 within the padded window, or beyond it while window + n_ubatch stays within |
| KvCache.CellsCommentedExample | go/internal/engine/kvcache.go:37-38 | for a window of 1024, n_ubatch 512 and n_ctx 262144 the code counts 1024 cells and the comment 1536 |
| KvCache.TotalIsPiecewiseLinear | go/internal/engine/kvcache.go:154-183 | the total is n_ctx times the rate of the full layers plus the window cells times the rate of the windowed ones |
| KvCache.GrowsWithContext | go/internal/engine/kvcache.go:123-184 | the total never shrinks with n_ctx exactly when the rates of all layers, and of the full ones, are not negative |
| KvCache.FigureGrowsWithContext | go/internal/engine/kvcache.go:123-185 | the estimate in whole bytes never shrinks with n_ctx exactly when, without a window, the rates together are not negative, or, with one, the full layers' rate is not negative and the total falls by less than a byte over the padded window |
| KvCache.NeverAboveFullCache | go/internal/engine/kvcache.go:133-185 | the figure is at most the one with `--swa-full` at every context exactly when there is no window or the windowed layers' rate is not negative |
| KvCache.BelowFullCacheAt | go/internal/engine/kvcache.go:133-185 | at one context the estimate is at most the full-cache one exactly when the window saves no cells there or that rate is not negative |
| KvCache.NegativeHeadCount | go/internal/engine/kvcache.go:133-185 | metadata with a negative head count whose windowed figure is above the full-cache one |
| KvCache.RatesOfHeadCounts | go/internal/engine/kvcache.go:133-185 | the rates are not negative when no head count is |
| KvCache.BytesMonotoneAndBounded | go/internal/engine/kvcache.go:133-185 | with rates that are not negative the figure is not negative, never shrinks with the context and never exceeds the full-cache figure |
| KvCache.KvAwareNeedBytes | go/internal/engine/kvcache.go:187-227 | for readable metadata and known cache types the floor is the weights plus the figure at the context divided by `--parallel`, and is unknown exactly when that figure is or there are no weights |
| KvCache.UsedWithin | go/internal/engine/kvcache.go:206-209 | the context used is at most the configured one and below it exactly when `--parallel` is above 1 and not above the context; then it is at most half |
| KvCache.FigureBelowExactly | go/internal/engine/kvcache.go:123-130 | the figure at one context is below that at another exactly when a whole byte lies between the exact estimates |
| KvCache.ParallelUndercutsExactly | go/internal/engine/kvcache.go:123-130 | for a `--parallel` above 1 and rates that are not negative, some context's figure is undercut exactly when the cache comes to a byte: the full layers hold anything, or the windowed ones a byte over the padded window |
| KvCache.ModeNeed | go/internal/engine/memory.go:215-273 | an unprofiled mode's need never falls below weights plus KV cache, nor below a curated figure, and is unknown only when nothing is known |
| GgufFormat.FromToLE | go/internal/gguf/gguf.go:150-170 | a little-endian number of k bytes is read back |
| GgufParse.LengthCheckExact | go/internal/gguf/gguf.go:545-551 | skipping a scalar array steps over its elements or refuses, as it should, exactly when the byte total fits int64 or its wrapped value is no length the file has |
| GgufParse.HugeCountPasses | go/internal/gguf/gguf.go:545-551 | an array header that declares 2^61 eight-byte elements is skipped as empty |
| GgufReader.Reader.ReadUint | go/internal/gguf/gguf.go:150-170 | reading k bytes little-endian, one by one, gives the number of the bytes at the cursor or fails at the end |
| GgufReader.Reader.ReadString | go/internal/gguf/gguf.go:369-389 | the cursor method agrees with the specification in value, failure and new position |
| GgufReader.Reader.UintOrArray | go/internal/gguf/gguf.go:458-493 | the cursor method agrees with the specification in value, failure and new position |
| GgufReader.Reader.BoolArray | go/internal/gguf/gguf.go:497-524 | the cursor method agrees with the specification in value, failure and new position |
| GgufReader.Reader.SkipValue | go/internal/gguf/gguf.go:527-581 | the recursive method terminates and agrees with the specification in failure and new position |
| GgufReader.Reader.ScanPairs | go/internal/gguf/gguf.go:175-302 | the loop over the pairs fills the staging as the specification does and stops where it stops |
| GgufReader.Reader.ReadAll | go/internal/gguf/gguf.go:147-351 | the whole reader agrees with the specification in metadata, refusal, panic and the position at which it stops |
| GgufRoundTrip.ReadsString | go/internal/gguf/gguf.go:369-389 | an encoded string is read back, empty when longer than 65536 bytes, and skipping consumes the same bytes |
| GgufRoundTrip.SkipsValue | go/internal/gguf/gguf.go:527-597 | skipping a well-formed value, with arrays nested to any depth, consumes exactly its encoding |
| GgufRoundTrip.SignedNumber | go/internal/gguf/gguf.go:401-446 | a signed integer of any width is read back as itself after widening to uint64 and conversion to int |
| GgufRoundTrip.ReadsInts | go/internal/gguf/gguf.go:484-492 | an encoded array of numbers is read back element by element |
| GgufRoundTrip.ReadsBools | go/internal/gguf/gguf.go:515-523 | an encoded bool array is read back element by element |
| GgufRoundTrip.ReadsPayload | go/internal/gguf/gguf.go:208-301 | reading an encoded value under any key gives its meaning and consumes exactly its encoding, or fails when its shape does not suit the key |
| GgufRoundTrip.ReadsPairs | go/internal/gguf/gguf.go:191-302 | scanning encoded pairs stages each in turn and stops at their end, or fails exactly when one of them is refused |
| GgufRoundTrip.ReadsFile | go/internal/gguf/gguf.go:147-351 | reading an encoded file followed by any bytes consumes exactly the header and the pairs |
| GgufLookup.OneSuffix | go/internal/gguf/gguf.go:208-297 | no key ends with two of the recognised suffixes, so the order of the cases does not matter |
| GgufLookup.KindOfField | go/internal/gguf/gguf.go:208-297 | every architecture's key for a field is recognised as that field of that architecture, whatever the architecture is called |
| GgufLookup.StandsForStep | go/internal/gguf/gguf.go:175-302 | staging one more pair keeps the staging equal, field by field and architecture by architecture, to the table of the pairs read |
| GgufLookup.FinishIsLookup | go/internal/gguf/gguf.go:306-350 | what is made of the staging is the lookup by full key: the declared architecture's fields, the llama fallback, the broadcast head counts and the length-checked layer lists |
| GgufLookup.ReadAllIsLookup | go/internal/gguf/gguf.go:147-351 | an encoded file with any tail is read as the lookup in the table of its pairs and ends right behind them; it is refused exactly when version or count is out of range or a value has the wrong shape, and else panics exactly when the declared architecture has a single head count and more layers than a slice can have elements |
| GgufLookup.PanicsAsLookup | go/internal/gguf/gguf.go:326-332 | the staging makes the reader panic exactly when the table's declared architecture has a single head count and too many layers |
| GgufLookup.HugeLayerCountPanics | go/internal/gguf/gguf.go:326-332 | a file of three pairs, an architecture, one head count and a layer count, panics exactly when the layers are above 2^45 |
| GgufLookup.ReadAllIgnoresOrder | go/internal/gguf/gguf.go:175-187 | permuting pairs with distinct keys changes neither metadata nor refusal nor panic, wherever architecture and block count stand |
| ConvLru.LRU.Lookup | go/internal/ctxledger/fingerprint.go:47-61 | get returns the unexpired value, drops an expired one, and keeps map and list consistent |
| ConvLru.LRU.Store | go/internal/ctxledger/fingerprint.go:63-83 | put writes the entry in front and evicts from the back only when a new key overfills the cache |
| ConvLru.LRU.Remove | go/internal/ctxledger/fingerprint.go:85-92 | del removes the key from map and list |
| ConvLru.LRU.Size | go/internal/ctxledger/fingerprint.go:94-98 | the list's length is the map's size and at most max |
| ConvLru.PutIs | go/internal/ctxledger/fingerprint.go:63-83 | a put evicts at most one key, the one at the back |
| ConvLru.RunConsistent | go/internal/ctxledger/fingerprint.go:31-98 | over every run of calls map and list hold the same keys, each once, and never more than max |
| ConvLru.GetReturnsLatestPut | go/internal/ctxledger/fingerprint.go:47-61 | get returns only the value of the latest put of its key, undeleted and unexpired |
| ConvLru.GetFindsLatestPut | go/internal/ctxledger/fingerprint.go:31-98 | get does return it when it is unexpired, undeleted and fewer than max other keys were put since |
| Measure.MeasureMessages | go/internal/ctxledger/analyze.go:125-191 | the loop computes the created measurement of the messages from an index on and the total of all |
| Measure.CreatedIsTheRest | go/internal/ctxledger/analyze.go:125-191 | the characters created from an index on are the total minus those before it |
| Conversation.Fingerprints | go/internal/ctxledger/fingerprint.go:103-131 | the scan that stops at the second non-system message computes both keys of the request |
| Conversation.PrefixSums | go/internal/ctxledger/fingerprint.go:136-152 | one pass gives the digest of the first messages, when there are that many, and of all of them |
| Conversation.LeadStays | go/internal/ctxledger/fingerprint.go:100-131 | a request that extends another opens with the same non-system messages |
| Conversation.Track | go/internal/ctxledger/ledger.go:367-402 | the cache part of process finds, judges, measures and remembers one request as specified |
| Conversation.SuspectMeansEdited | go/internal/ctxledger/ledger.go:376-402 | when the entry found counts the messages it holds, a request is suspect exactly when it does not extend them, and its created characters are the total minus those before the new ones |
| ConversationRun.EntryIsARequest | go/internal/ctxledger/ledger.go:363-402 | after any history every cached conversation stands for the latest request under its key, with that request's messages, count, total and time |
| ConversationRun.SuspectIffEdited | go/internal/ctxledger/ledger.go:376-402 | after any history a request goes on from at most one earlier request; it is suspect exactly when it does not extend that one, and otherwise just what it adds to it counts as new |
| ConversationRun.OtherKeeps | go/internal/ctxledger/ledger.go:367-402 | a request that is remembered under another key, even one of the same consumer that opens alike, leaves the entry under the conversation's key that of its latest request, if it leaves one |
| ConversationRun.OursRemembered | go/internal/ctxledger/ledger.go:394-402 | after a request of the conversation it is the only thing remembered of it, also across the move from the short to the full key |
| ConversationRun.OtherHolds | go/internal/ctxledger/ledger.go:367-402 | a request that does not look under a key leaves its entry in the cache, pushed back by at most the request's own key |
| ConversationRun.CreationIsConserved | go/internal/ctxledger/ledger.go:363-402 | over every run in which each request of a conversation finds the one before, mixed with any requests that are remembered under other keys, no request of it is suspect, and the created characters add up to the total of its latest request |
| ConversationRun.SteadyIsUninterrupted | go/internal/ctxledger/fingerprint.go:31-131 | each request of a conversation finds the one before when it comes within the time to live of that and fewer other conversations than the cache has room for came in between, none of them looking under the key the conversation then has, and when no request used the keys of its first request, and of its first one with a second message, within the time to live |
| ConversationRun.TrafficConserves | go/internal/ctxledger/ledger.go:363-402 | in such traffic no request of the conversation is suspect and its created characters add up to its latest total |
| ConversationGaps.StartsExactly | go/internal/ctxledger/ledger.go:367-391 | a request that extends another is found to start where that ended exactly when the cache holds exactly that one's messages, unexpired, under its key and nothing unexpired under a full key that is looked up before it |
| ConversationGaps.GoesOnExactly | go/internal/ctxledger/ledger.go:367-391 | every extension of a request within the time to live is found to start where it ended exactly when its messages stand in the cache, no older than it, and, under a short key, no conversation that opens alike has a full one |
| ConversationGaps.OneRequestBetween | go/internal/ctxledger/fingerprint.go:100-131 | after any history and a request whose extensions would all be found, one more request leaves them all to be found exactly when it does not look under that one's key and the cache has room for two, or asks with exactly its messages, no earlier |
| ConversationGaps.CountedTwice | go/internal/ctxledger/ledger.go:394-402 | another conversation that opens alike moves on to its full key and removes the entry under the shared short one: the opening is counted twice and no request is suspect |
| ConversationGaps.FlaggedUnedited | go/internal/ctxledger/ledger.go:376-402 | a conversation that differs in its system message alone replaces the entry: a request that extends its predecessor is suspect |
| ConversationGaps.NeverCounted | go/internal/ctxledger/ledger.go:367-391 | a conversation that had the same two messages before answers for ours: the second message is never counted |
| Ledger.Bound | go/internal/ctxledger/ledger.go:324-340 | a label is never empty, labels are only added, and never beyond the limit |
| Ledger.LabelIsSticky | go/internal/ctxledger/ledger.go:324-340 | a name keeps the label it got first, whatever other names come in between |
| Ledger.Ledger.Process | go/internal/ctxledger/ledger.go:355-452 | one request updates labels, cache, its request row and its tool rows as specified, touches no other scope, and adds to the rows exactly the characters it created |
| Ledger.Ledger.AddTools | go/internal/ctxledger/ledger.go:437-451 | in whatever order the tools are visited each is charged to its bounded label's row, and the rows gain exactly the tools' characters |
| Percentile.ReuseBucket | go/internal/ctxledger/analyze.go:211-223 | the bucket is between 0 and 19 and its midpoint within 0.025 of a ratio between 0 and 1 |
| Percentile.ReuseBucketMonotone | go/internal/ctxledger/analyze.go:211-219 | a larger ratio never has a smaller bucket |
| Percentile.Percentile | go/internal/ctxledger/analyze.go:227-252 | for any samples tallied by the histogram the result is the value of the bucket at rank max(1, ceil(p*n)), and none without samples |
| Percentile.BucketOfOrderStatistic | go/internal/ctxledger/analyze.go:227-252 | bucketing by a monotone function keeps order statistics, whatever order the samples arrived in |
| Percentile.IncrementTallies | go/internal/ctxledger/analyze.go:173 | counting one more sample keeps the histogram equal to the tally of the samples |
| Chunking.ChunkWords | go/internal/compress/chunk.go:39-63 | the chunks are those of the greedy split, concatenate back to the words, and no fitting split has fewer |
| Chunking.SplitFits | go/internal/compress/chunk.go:39-63 | every chunk of a split is non-empty and within 510 tokens, or a single word |
| Chunking.GreedyIsFewest | go/internal/compress/chunk.go:39-63 | no fitting split of the same words uses fewer chunks than the greedy one |
| Scoring.ScoreChunk | go/internal/compress/chunk.go:65-106 | an oversized encoding is scored in pieces of at most 512 tokens, joined in order |
| Scoring.ScoreEncodings | go/internal/compress/chunk.go:108-172 | results are in input order and each equals its encoding scored alone; every native call has at most the batch size in sequences and 512 tokens per sequence |
| Compressor.Measure | go/internal/compress/compress.go:225-242 | measuring window by window gives each word its sub-token count within its window |
| Compressor.MarkScored | go/internal/compress/compress.go:281-288 | a word of the chunk is marked exactly when one of its sub-tokens scores above the threshold |
| Compressor.FlagAt | go/internal/compress/compress.go:271-302 | the keep flag at a chunk's offset plus j is that chunk's verdict on its word j: chunk and document indexes are aligned |
| Compressor.Compress | go/internal/compress/compress.go:203-327 | for a faithful model the result is the expected one, in which no batch size occurs, and the native calls stay within their bounds |
| Compressor.SelectedTotal | go/internal/compress/compress.go:304-326 | the tokens of kept words never exceed the original tokens |
| Compressor.NeverGrows | go/internal/compress/compress.go:203-332 | compression adds neither words nor tokens, and a pass-through returns the content and no saving |
| HangDetector.Detector.NotifySwitchComplete | go/internal/collector/hang.go:56-63 | a switch clears every port's state and opens the cooldown |
| HangDetector.Detector.ForgetPort | go/internal/collector/hang.go:65-71 | only the named port's state is dropped |
| HangDetector.Detector.DecodeAdvanced | go/internal/collector/hang.go:73-94 | true exactly when a counter seen before is larger now, and the counters present are remembered |
| HangDetector.Detector.Observe | go/internal/collector/hang.go:96-137 | state and alert after a scrape are those of the specified automaton |
| HangDetector.TimerAlways | go/internal/collector/hang.go:56-137 | over every history a port's timer is the time of its earliest stalled scrape with no break since |
| HangDetector.AlertMeansSustainedStall | go/internal/collector/hang.go:96-137 | a scrape alerts exactly when it is stalled and a stalled scrape of the same port at least `sustain` ago has had no break since; other ports do not occur in the condition |
| Download.Worker.DownloadFileAttempt | go/internal/hfdownload/worker.go:435-490 | one attempt appends after a 206 to a resuming request, starts over after a 200 and otherwise leaves the part file |
| Download.Worker.DownloadAndVerifyFile | go/internal/hfdownload/worker.go:308-415 | a file is refused when its destination exists, and renamed only after a completed attempt passes its checksum and header tests |
| Download.Worker.DeletePartFiles | go/internal/hfdownload/worker.go:195-211 | every part file of the job is removed and nothing else |
| Download.Worker.RunWorker | go/internal/hfdownload/worker.go:215-294 | the files are done in order, verified ones skipped; the first that stops or fails ends the run, and registration follows only a full pass |
| Download.AttemptKeepsPrefix | go/internal/hfdownload/worker.go:461-489 | against a conforming server an attempt keeps the part file a prefix of the remote file, and completes it when it succeeds |
| Download.RunKeepsFinal | go/internal/hfdownload/worker.go:260-273 | no run touches a file that is in place |
| Download.LifeIsSafe | go/internal/hfdownload/worker.go:215-415 | over any sequence of runs, pauses, cancellations, cuts and retries part files stay prefixes, final paths are absent or complete, and a registered job has every file in place |
| Download.SpliceIsCleanForPrefixes | go/internal/hfdownload/worker.go:430-464 | a completed 206 rebuilds the remote file exactly when the part file on disk is a prefix of it |
| Download.CompletePartNeedsFullResend | go/internal/hfdownload/worker.go:439-470 | an attempt on an already complete part file succeeds exactly when the server sends everything with a 200 |
| Download.FinishesExactly | go/internal/hfdownload/worker.go:308-490 | a run without any fault against a server that answers ranges finishes a file exactly when nothing is in place, the part file is empty or shorter than the content, and the content resumed from it passes the tests |
| Download.UnfinishedStaysSo | go/internal/hfdownload/worker.go:308-490 | what one such run does not finish no later one does |
| Download.CancelFreesPart | go/internal/hfdownload/worker.go:195-211 | a cancellation lets a file finish exactly when nothing is in place and its content passes the tests |
| Download.JobFinishesExactly | go/internal/hfdownload/worker.go:260-275 | such a run of the job registers it exactly when every file is marked verified or can finish |
| Download.FailedRecordStrands | go/internal/hfdownload/worker.go:407-413 | a finished file is left in place but unmarked exactly when its record fails |
| Download.StrandedForever | go/internal/hfdownload/worker.go:311-315 | a job with such a file is never registered, whatever runs and cancellations follow |

## Left out

Assumptions of the models:

- Cron: a zone with a fixed offset from UTC. Daylight-saving gaps and overlaps, and Go's location tables, are not modelled.
- Lifecycle: units are started only by the engine; a stop sends an up unit to deactivating or down and a unit told to stop is not restarted by systemd; a failed start leaves the unit down; the `State` reads of Load and of the polling loops succeed (on an error Load skips the occupied-slot test, lifecycle.go:212-223); a reconciliation acts on a current report, which may miss units except at start-up (the collector reports a unit it cannot read as inactive, which the model excludes); configuration is fixed, every slot names a unit of its own, aliases are set and unique, and modes have at most one service. The `reloading` and `maintenance` states of systemd do not occur.
- Lifecycle: environment files change only when the engine writes them, and a failed write may leave anything in the one being written.
- Lifecycle: starting an active unit leaves its process alone, and a process reads the environment file once, at some moment while its unit comes up, as systemd does it. Which mode a process serves is decided by the alias in that file.
- FitPlan: memory figures are whole bytes and footprints are not negative; `slotRSSBytes`, `MemoryBudget` and the estimates are inputs.
- KV cache: bytes per element are exact rationals; float rounding and int64 overflow of huge products are not modelled. The value of `--parallel` and the cache types, parsed from the service's arguments, are inputs.
- GGUF: Go strings are byte strings; the conversion of floats to uint64 is an arbitrary function; a slice of up to 2^48 bytes can be allocated, as on 64-bit Linux with memory enough; running out of memory below that, and of stack on deeply nested arrays, is not modelled.
- Ledger: digests are injective, so a digest of messages is modelled by the messages; all clock reads of one call give one time.
- Compressor: tokenizer, model and must-keep test are functions; the Tokenizer and Scorer contracts of their doc comments are preconditions or appear in the results. Scores are reals.
- Downloads: one worker per job; servers follow RFC 9110 for 200 and 206; a crash between steps is a cancellation; the checksum and GGUF tests are predicates of the content.

What the models do not contain:

- Engine.Engine.Load: does not model locks as such: `opMu` is the precondition that no operation is running, and everything that other goroutines may do between two statements is given by a script of disturbances, and the results of writing and starting and the readings of waitServiceRunning are inputs.
- RecordedMode.CurrentMode: does not model units that move between the reads of one scan; a scan sees one state, and other goroutines act between scans. A file that cannot be read is empty.
- Engine.Engine.Restart: does not model an operation of another caller that is still running when it asks for the current mode, nor a second restart between its halves other than as the stop, clear and switch it consists of.
- Modes of several services: the catalog builds modes of at most one.
- Context verification, killing of lingering processes and the GTT drain wait: they delay an operation without changing slots or units. The engine does not set transition marks, which only FitPlan of other callers would see.
- KvCache.ParallelUndercutsExactly: leaves out rates below zero, which only negative head counts give; `KvCache.FigureBelowExactly` covers them at each pair of contexts.
- KvCache.ModeNeed: takes the KV figure as an input, which `KvCache.KvAwareNeedBytes` computes.
- GgufReader.Reader.ReadAll: does not model the cursor position after a failed read, because the caller discards the reader.
- GGUF: `FileSizeBytes` is copied from the file's size by the caller and is not part of the metadata record.
- ConvLru.LRU.Store: does not model list elements as pointers into the map; the list holds keys.
- Ledger.Ledger.AddTools: does not model the result histograms inside the tool rows and the tool-output counters.
- Ledger.Ledger.Process: does not model schema statistics, result and reuse histograms inside rows, the created and tool-output counters, or persistence; row merging in the store is not part of this model.
- `SizeBucket`'s logarithm: `Percentile` is proved for any monotone bucketing.
- Download.LifeIsSafe: does not model failures to read the job's files from the store, progress accounting, pre-flight tests or asset enrichment; registration itself is a flag.
- Error texts, log messages, events, history records, wall-clock timing of polls.
- HTTP handlers, command line, user interfaces, D-Bus, SQLite, the tokenizer and the native model, authorization, the scheduler, router and tool map are not part of this model.
