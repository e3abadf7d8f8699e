# Verified models of portbase

portbase is a Go framework for services: modules with dependencies, background tasks, a database
abstraction with a query language, configuration, and a resource updater. This project models its
engines in Dafny, one module per engine, and proves what each of them is for.

- **Modules** (`ModuleGraph`, `Lifecycle`, `PhaseReports`, `ModuleManager`). A transition system with one manager that
  reads statuses one at a time and goroutines that end, or fail, at any moment in between. The manager's
  loops are methods of a class whose state is always a state of some run of that system, so what is
  proved of all runs holds at every point of every method.
- **Concurrency** (`Microtasks`, `MicrotaskRuns`, `MicrotaskDrain`, `CallLimiter`, `TaskSchedule`). Any number of
  microtasks and of concurrent calls, in any interleaving; the sorted task schedule as a class.
- **Query language** (`QueryLexer`, `QueryConditions`, `QueryParser`, `Queries`, `QueryRejects`). The
  lexer's and the parser's loops are proved against functions on texts and tokens, and those are proved to
  undo printing, and to refuse what has to be refused.
- **Bytes** (`Varint`, `Containers`, `RecordWrapper`). Variable length integers, the compartment
  container, packed metadata and stored records, each against the plain byte string.
- **Things that must agree with something simple** (`RecordCache`, `ConfigOptions`, `ProviderRegistry`).
  The delayed-write cache against the last record put, option getters against a fresh lookup, the
  longest-prefix search against ownership of keys.
- **Transformations and selection** (`Splitting`, `ConfigTree`, `NameMatching`, `VersionedNames`,
  `VersionSelection`).

`Basics` holds what several of them share. Operations that change state are methods of classes whose
contracts give the new state in terms of the old one. A loop over a Go map, or over modules, picks its
elements in an unspecified order, so results hold for every order. `dafny verify dfyconfig.toml` checks
everything.

## What was found on the way

Where the code does not do what a simple statement would say, the model follows the code, the exact
condition is proved, and a failing input or run is given.

- After a parenthesised group the parser expects more (database/query/parser.go:251), so a query with
  canonical parts is parsed back exactly if its where clause is or ends in a leaf or a negated leaf
  (`Queries.RoundTripExactly`), so never with a group at the end (`Queries.GroupAtEndIsLost`); the word
  that begins the next clause is then taken as a key (`Queries.OrderBySwallowed`).
- Two conditions with no connective between them are joined by and (`QueryRejects.ConnectiveIsOptional`),
  and a limit or offset of zero may be given again, as zero is the mark of an unset one
  (`QueryRejects.LimitTaken`, `QueryRejects.OffsetTaken`).
- Backslashes are not escaped and quotes at the ends are trimmed: which tokens survive is stated for all
  tokens (`QueryLexer.SurvivesExactly`); one that does not is in `QueryLexer.SlashIsLost`.
- `Unpack8` reports one byte in its two-byte branch (`Varint.Unpack8Packed`). A stored record whose
  format is 128 or more therefore loads exactly if its data begins with the byte 1
  (`RecordWrapper.RoundTrip`).
- Reading a block faults exactly if its length, with the length of that number, is above the signed range
  (`Varint.SliceFaultExactly`, `Varint.SliceFaultWitness`), and so does loading a record
  (`RecordWrapper.LoadFaultsExactly`). The container's method of that name returns an empty block instead.
- `Replace` keeps the offset: the container then holds the data exactly if the offset was zero
  (`Containers.Container.Replace`, and `Containers.ReplaceAfterPrepend` for one that does not). A container appended to itself as a block repeats the length too.
- Rescheduling an inactive task changes its key but not its place: the schedule stays sorted exactly if
  the two neighbours tolerate the key (`TaskSchedule.Schedule.ScheduleAt`, `TaskSchedule.Schedule.Repeat`).
- Microtasks that give up waiting leave their signals queued, so more tasks than the threshold run: at
  most by the number that gave up, and at most by one less than both queues hold
  (`Microtasks.GrantedBoundedByThreshold`). Both bounds are reached (`MicrotaskRuns.ThresholdIsExceeded`).
- A failed start keeps what the module depends on online through a shutdown, which then reports a loop
  (`ModuleManager.ModuleSystem.Shutdown`; `ModuleManager.StuckStart` is such a run). `ManageModules` after a shutdown starts the needed modules
  again (`ModuleManager.ModuleSystem.ManageModules`).
- A flat configuration survives expanding and flattening exactly if no key is a path prefix of another
  (`ConfigTree.FlattenExpanded`; `ConfigTree.PrefixIsLost` is one that does not).
- Flushing delayed writes without all permissions drops them (`RecordCache.Interface.FlushWriteCache`,
  `RecordCache.FlushLosesWrite`).
- Purging keeps in the list exactly the versions whose files it removes (updater/resource.go:531). If all
  numbers differ, exactly the versions before the boundary keep their files
  (`VersionSelection.SparedExactly`). Adding does not sort, so the newest version may lie behind it
  (`VersionSelection.PurgeLosesNewest`); versions added under a string that is not their normalised number
  are listed several times and share a file (`VersionSelection.PurgeLosesSelected`).

## Model

| member | source | states |
|---|---|---|
| `ModuleGraph.NoLeavesReachCycle` | modules/start.go:161-168 | if each module of a set has a dependency in the set, each of them leads into a cycle: why a waiting scan means a loop |
| `ModuleGraph.NoRootsMeanCycle` | modules/stop.go:114-121 | if each module of a set is needed by another in the set, one of them is on a cycle: the same for stopping |
| `ModuleGraph.ClosureContains` | modules/mgmt.go:136-142 | a set closed under dependencies contains everything its members depend on |
| `Lifecycle.StepKeepsInv` | modules/modules.go:145-351 | every step of the manager or of a goroutine, failing or not, keeps the system invariant |
| `Lifecycle.RunKeepsInv` | modules/modules.go:145-351 | the invariant holds in every state of every run |
| `Lifecycle.NothingOutlivesItsDependencies` | modules/status.go:208-253 | in every reachable state a module above Offline has all its dependencies Online |
| `Lifecycle.PreparedAtMostOnce` | modules/status.go:192-205 | no run prepares a module twice |
| `Lifecycle.CyclesStayDead` | modules/status.go:192-205 | in every reachable state, modules that lead into a cycle are Dead |
| `PhaseReports.PathTracks` | modules/modules.go:145-351 | whatever control functions end, and however, while the manager looks: each module a phase has moved shows whether it failed, and a failure is on offer as a report or known |
| `PhaseReports.TakenTracks` | modules/start.go:150-160 | receiving any of the reports loses track of no failure |
| `ModuleManager.ModuleSystem.ReadyTo` | modules/status.go:192-253 | reading one status at a time, with interference in between, still gives a verdict that holds when the module is fired |
| `ModuleManager.ModuleSystem.ReadAwaited` | modules/status.go:198-250 | what was read clear, one status at a time, is still clear at the end |
| `ModuleManager.ModuleSystem.Fire` | modules/modules.go:145-291 | the module is in the status the phase starts from, gets the intermediate status, and the work left shrinks |
| `ModuleManager.ModuleSystem.Scan` | modules/start.go:138-148 | executions are counted exactly, and a scan with nothing outstanding classifies every module |
| `ModuleManager.ModuleSystem.ReceiveReport` | modules/start.go:150-160 | takes any report on offer; outstanding reports and remaining work shrink by one step, and a failure reported becomes known |
| `ModuleManager.ModuleSystem.RunPhase` | modules/start.go:129-220 | the report-driven loop terminates under every interleaving. On a quiet system a prep or start phase is failed with a module whose function failed, stuck and not running, or leaves each concerned module done or waiting for one that is not; a stop phase always does that, and without a loop is failed exactly if some stop function failed |
| `ModuleManager.PhaseEnds` | modules/start.go:161-168 | a loop is reported exactly if some concerned module is left waiting, and otherwise a failure exactly if there was one |
| `ModuleManager.PrepResult` | modules/start.go:129-171 | after preparing, exactly the modules that reach a cycle are Dead and the outcome is a loop exactly on cyclic graphs |
| `ModuleManager.ModuleSystem.PrepareModules` | modules/start.go:129-171 | whatever happens to the enabled flags: done exactly on acyclic graphs, all Offline; otherwise a loop, with exactly the modules that reach a cycle left Dead; or a failed prep function is reported, with its module stuck and nothing above Offline |
| `ModuleManager.ModuleSystem.MarkDependencies` | modules/mgmt.go:136-142 | terminates on cyclic graphs; marks only dependencies, and marks stay closed |
| `ModuleManager.ModuleSystem.BuildEnabledTree` | modules/mgmt.go:122-134 | marked are exactly the modules reachable by one or more dependency edges from an enabled one |
| `ModuleManager.StopResult` | modules/stop.go:74-124 | after stopping, exactly what was online and is needed still is, and no loop was reported |
| `ModuleManager.ModuleSystem.StopModules` | modules/stop.go:74-124 | on a settled system everything not needed goes offline, during a shutdown everything does; no loop is reported, and a failure exactly if some stop function failed |
| `ModuleManager.StartResult` | modules/start.go:173-220 | after starting, exactly what is to run is online |
| `ModuleManager.ModuleSystem.StartModules` | modules/start.go:173-220 | everything that is to run comes online and nothing else does, or a failed start function is reported, with its module stuck and nothing started that is not to run |
| `ModuleManager.ModuleSystem.Start` | modules/start.go:33-122 | from registration: exactly the modules to run end up online; a cycle or a failed prep function is reported before anything is started, a failed start function with its module stuck; nothing is prepared or started after a failure before it, and a second start is refused |
| `ModuleManager.ModuleSystem.ManageModules` | modules/mgmt.go:90-120 | on a settled system whose flags nobody touches meanwhile, also after a shutdown: no loop error, and exactly the enabled modules and their transitive dependencies are online, with a failure reported, if not shutting down, exactly if some other module failed to stop; or a needed module failed to start and that is reported |
| `ModuleManager.ManageResult` | modules/mgmt.go:105-119 | what failed to stop is still told after starting: the last error is the failure of a module that was online and is not needed, or there is none |
| `ModuleManager.ModuleSystem.SetEnabled` | modules/mgmt.go:18-36 | enabling and disabling modules keeps the system within its runs and changes nothing else |
| `ModuleManager.FlagsAreFree` | modules/mgmt.go:18-36 | whatever state can be reached can be reached with any enabled flags |
| `ModuleManager.ModuleSystem.ChangeEnabled` | modules/mgmt.go:18-120 | after any change of the flags on a settled system, managing ends with exactly the modules needed now online, or reports which failed to start |
| `ModuleManager.ModuleSystem.Shutdown` | modules/stop.go:39-72 | with nothing in flight, whatever happens to the enabled flags, exactly what modules stuck in a failed start depend on stays online, and a loop is reported exactly if there is any, otherwise a failure exactly if some stop function failed; a second shutdown is refused |
| `ModuleManager.ShutdownResult` | modules/stop.go:74-124 | the same for any run of the stop phase over all modules |
| `ModuleManager.StuckStart` | modules/modules.go:219-249 | a run of two modules after which the first is held up by the second, whose start failed |
| `ModuleManager.InitDependencies` | modules/modules.go:406-425 | the reverse lists become the exact converse of the dependency lists, or a missing dependency is reported |
| `Microtasks.CounterIsExact` | modules/microtasks.go:228-316 | in every state of every run the counter is the counted tasks minus the concluded ones |
| `Microtasks.QuiescentCounterIsZero` | modules/microtasks.go:228-239 | when all tasks have concluded and no signal is left, the counter is zero |
| `Microtasks.GrantedBoundedByThreshold` | modules/microtasks.go:272-393 | before shutdown, tasks running on a clearance exceed the threshold at most by the number that gave up, so not at all if none did, at most by the signals queued, and at most by one less than both queues hold |
| `MicrotaskRuns.ThresholdIsExceeded` | modules/microtasks.go:272-393 | for every threshold and every number up to that bound there is a run in which so many give up and so many more than the threshold run |
| `MicrotaskDrain.CanComeToRest` | modules/microtasks.go:228-393 | from every state of every run, shutting down or not, the system can come to rest: all tasks done, no signal left, the counter at zero |
| `MicrotaskDrain.MediumComesFirst` | modules/microtasks.go:272-296 | before shutdown a low priority signal is taken only after the scheduler, since it last looked at the counter, found no medium one |
| `Microtasks.StepKeepsInv` | modules/microtasks.go:93-393 | every step of every task and of the scheduler keeps the invariant |
| `CallLimiter.StepKeepsInv` | utils/call_limiter.go:31-87 | each step of each call keeps the invariant of the two locks, the waiter count and the phases |
| `CallLimiter.OneExecution` | utils/call_limiter.go:60-87 | at most one function executes at a time |
| `CallLimiter.ExecutedAtMostOnce` | utils/call_limiter.go:31-87 | in every run each phase has executed once if its leader has got to the function, and otherwise never |
| `CallLimiter.ReturnsAfterExecution` | utils/call_limiter.go:31-87 | when a call has returned, the phase it joined has executed, exactly once and before |
| `CallLimiter.NoFault` | utils/call_limiter.go:31-87 | neither lock is ever released while free, nor the inner one passed on by anyone but its holder |
| `CallLimiter.JoinsAnOpenPhase` | utils/call_limiter.go:31-58 | a call that does not lead joins a phase that is open at that moment |
| `CallLimiter.ReturnsAfterItsPhase` | utils/call_limiter.go:31-87 | a call returns only after the phase it joined has ended |
| `CallLimiter.NoDeadlock` | utils/call_limiter.go:31-87 | while a call has not returned one of the calls present can go on, even if no other arrives |
| `TaskSchedule.Schedule.AddToSchedule` | modules/tasks.go:396-443 | an active task ends up once, in its place; all others keep their order |
| `TaskSchedule.Schedule.Rekey` | modules/tasks.go:206-240 | a task with a new time gets its place if it is active; otherwise it is left, and the list stays sorted exactly if its two neighbours tolerate the time |
| `TaskSchedule.Schedule.Remove` | modules/tasks.go:253-274 | the task is off the list and both run queues, its element pointer and overtime mark agree |
| `TaskSchedule.Schedule.Enqueue` | modules/tasks.go:117-194 | an active task is on the queue of its urgency, last if it was not there or, if to be run next, first, with all others in their order and the other queue untouched; with a maximum delay as deadline it is on the schedule too, which stays sorted |
| `TaskSchedule.EnqueuedPlace` | modules/tasks.go:137-194 | the same for the queues alone, for each urgency |
| `TaskSchedule.FirstInFirstOut` | modules/tasks.go:137-153 | distinct tasks queued one after the other are in the queue in that order, behind those there |
| `TaskSchedule.Schedule.QueueTwo` | modules/tasks.go:137-509 | of two tasks queued into empty queues the next turn of the queue handler runs the first, and leaves the second as the next |
| `TaskSchedule.EnqueuedOk` | modules/tasks.go:137-194 | queueing keeps every task at most once in each run queue |
| `TaskSchedule.DequeuedOk` | modules/tasks.go:253-266 | so does removing, after which the task is in neither and all others still are |
| `TaskSchedule.Schedule.NewTask` | modules/tasks.go:70-108 | the schedule stays valid; the task is active exactly if its module is coming online, and otherwise canceled |
| `TaskSchedule.Schedule.MaxDelay` | modules/tasks.go:197-203 | the schedule stays valid and only the delay changes |
| `TaskSchedule.Schedule.ModuleChange` | modules/tasks.go:110-115 | a task becomes active exactly if its module is coming online and it is not canceled, without being moved |
| `TaskSchedule.Schedule.ScheduleAt` | modules/tasks.go:206-218 | the list is sorted afterwards exactly if the task is active, the time is zero, or its two neighbours tolerate the key |
| `TaskSchedule.Schedule.Repeat` | modules/tasks.go:221-240 | intervals are raised to the minimum; sorted under the same condition; zero changes no schedule |
| `TaskSchedule.Schedule.Cancel` | modules/tasks.go:243-251 | the task is not active any more, and nothing else changes |
| `TaskSchedule.Schedule.Run` | modules/tasks.go:276-306 | whatever becomes of the attempt the task is off the schedule; it starts exactly if active, not executing and not stopped |
| `TaskSchedule.Schedule.Finish` | modules/tasks.go:360-369 | an active repeating task that set no time is put back in its place after its interval; otherwise only the mark of executing goes |
| `TaskSchedule.Schedule.HandlerTurn` | modules/tasks.go:533-557 | an overdue head is run and gone, any other head is marked overdue and moved to its deadline |
| `TaskSchedule.Schedule.QueueTurn` | modules/tasks.go:460-509 | the first prioritized task, or else the first other one, is run if it can be and is then off both queues and the schedule; no other task changes |
| `TaskSchedule.Schedule.TwoHandlerTurns` | modules/tasks.go:533-557 | the head is removed or moved to a new deadline within two turns |
| `TaskSchedule.PlacedSorted` | modules/tasks.go:418-442 | inserting before the first later task keeps the order |
| `TaskSchedule.InactiveTaskBreaksOrder` | modules/tasks.go:206-218 | a valid schedule in which a new key of an inactive task is not tolerated |
| `QueryLexer.ExtractSnippets` | database/query/parser.go:124-197 | the scanning loop computes the token function on every text, errors included |
| `QueryLexer.LexToken` | database/query/parser.go:338-350 | a printable token is lexed back from its escaped form before any delimiter |
| `QueryLexer.SurvivesExactly` | database/query/parser.go:335-350 | the tokens that survive escaping and lexing are exactly those not empty, not ending in a quote, with an even number of backslashes before each quote and none before other characters |
| `QueryLexer.SlashIsLost` | database/query/parser.go:335-350 | a token with a backslash between letters does not survive |
| `QueryConditions.ParseIntOfText` | database/query/condition-int.go:17-94 | every 64-bit integer is parsed back from its printed form |
| `Splitting.SplitOfJoin` | database/query/condition-stringslice.go:17-69 | comma-free values are split back from their joined form |
| `QueryConditions.BuildPrimaryNames` | database/query/operators.go:34-45 | in any iteration order every operator gets a longest one of its names |
| `QueryConditions.InitOperatorNames` | database/query/operators.go:3-53 | from the table, in any order, the initialisation makes exactly the names that are printed |
| `QueryConditions.TableIsTable` | database/query/operators.go:4-29 | the table of the source is the one the parser looks names up in |
| `QueryConditions.LexCondition` | database/query/condition-not.go:29-36 | the printed form of every canonical condition, at any depth, lexes to its tokens |
| `QueryConditions.LexJoined` | database/query/condition-and.go:40-46 | the same for conditions joined by a connective |
| `QueryConditions.NotInserted` | database/query/condition-not.go:29-36 | in a leaf with a space-free key the negation lands right behind the key |
| `QueryParser.ParseAndOr` | database/query/parser.go:199-291 | the parser loop computes the parsing function on every token list, and the position after it |
| `QueryParser.AtEnd` | database/query/parser.go:207-260 | where and with what the loop ends |
| `QueryParser.ParsePart` | database/query/parser.go:239-289 | each turn of the loop takes a group, a condition or a connective as the parsing function does |
| `QueryParser.ParseCondition` | database/query/parser.go:293-336 | the same for leaves |
| `QueryParser.WhereOfLeaf` | database/query/condition.go:41-72 | building a condition from a leaf's printed parts gives the leaf, whatever the libraries for floats and expressions do with other values |
| `QueryParser.ParseOne` | database/query/parser.go:199-291 | the tokens of a canonical condition parse to it, with any tokens after it and in any state of the loop |
| `QueryParser.ParseJoined` | database/query/parser.go:199-291 | the same for a list of conditions under one connective |
| `Queries.ParseClause` | database/query/parser.go:54-119 | each turn of the clause loop takes one clause, or fails, as the query function does |
| `Queries.ParseQuery` | database/query/parser.go:19-122 | the clause loop computes the query function on every text, errors included |
| `Queries.LexQuery` | database/query/query.go:132-160 | a printed query lexes to the tokens of its parts |
| `Queries.RootExactly` | database/query/parser.go:205-251 | alone, a canonical condition parses back as a where clause exactly if it is or ends in a leaf or negated leaf; otherwise the text ends unexpectedly |
| `Queries.RoundTrip` | database/query/query.go:132-160 | parsing the printed form of a canonical query gives the same query, checked |
| `Queries.RoundTripExactly` | database/query/parser.go:19-122 | for whole texts, with any other clauses: a query with canonical parts is parsed back exactly if its where clause, if any, is or ends in a leaf or negated leaf |
| `Queries.GroupAtEndIsLost` | database/query/parser.go:239-251 | a where clause that ends in a group, of whatever canonical parts, is never parsed back |
| `Queries.NeverShorter` | database/query/parser.go:199-291 | the parser never loses a condition it has collected |
| `Queries.OrderBySwallowed` | database/query/parser.go:226-251 | after a group, an order by the word "exists" becomes a condition on a key "orderby" |
| `QueryRejects.BlanksSeparate` | database/query/parser.go:157-172 | any number of spaces, tabs, newlines and carriage returns ends a token |
| `QueryRejects.QuoteInWordRejected` | database/query/parser.go:181-185 | a quote within a word is an error |
| `QueryRejects.QuoteNotClosed` | database/query/parser.go:189-195 | a quoted token at the end need not be closed |
| `QueryRejects.EscapedInWord` | database/query/parser.go:134-141 | outside quotes a backslash makes the next character, delimiter or not, part of the word |
| `QueryRejects.MixedAndOrRejected` | database/query/parser.go:259-272 | after two or more conditions joined by one connective the other one is an error, whatever follows, at the root and in groups |
| `QueryRejects.MixedQueryRejected` | database/query/parser.go:19-291 | so for the whole text of a query |
| `QueryRejects.MissingClose` | database/query/parser.go:205-224 | a group that is not closed ends unexpectedly |
| `QueryRejects.RedundantParentheses` | database/query/parser.go:239-258 | parentheses around a single condition make no difference but that more is then expected |
| `QueryRejects.EmptyGroup` | database/query/parser.go:252-258 | an empty group is an And of nothing |
| `QueryRejects.StrayClose` | database/query/parser.go:54-119 | a stray closing parenthesis ends the where clause and is then no clause |
| `QueryRejects.TrailingWord` | database/query/parser.go:259-275 | a clause that ends in a connective or a negation ends unexpectedly |
| `QueryRejects.ConnectiveIsOptional` | database/query/parser.go:199-291 | two conditions without a connective between them are joined by and |
| `QueryRejects.UnknownOperatorRejected` | database/query/parser.go:299-314 | whatever is in neither table of operator names is refused, negated or not |
| `QueryRejects.UnendedRejected` | database/query/parser.go:293-329 | a condition that ends before its operator or its value ends unexpectedly |
| `QueryRejects.BadValues` | database/query/condition.go:41-72 | which values are refused by which operators |
| `QueryRejects.ParseIntExactly` | database/query/condition-int.go:38-46 | integers are digits behind an optional sign, in range up to the last one, and leading zeros do not count |
| `QueryRejects.IntegersOnly` | database/query/condition-int.go:38-46 | nothing else is an integer |
| `QueryRejects.SoundExactly` | database/query/query.go:66-81 | the check refuses a condition exactly if one of its parts, however deep, has a bad value |
| `QueryRejects.ParsedIsSound` | database/query/parser.go:19-122 | whatever text is parsed, the query has been checked and none of its values is bad |
| `QueryRejects.BadValueRejected` | database/query/query.go:66-81 | a query whose only fault is a bad value is refused for it |
| `QueryRejects.DuplicatesRejected` | database/query/parser.go:60-111 | a clause whose field is set already is refused |
| `QueryRejects.LimitTaken` | database/query/parser.go:88-103 | otherwise a number of at most 31 bits is taken and anything else refused; so a limit of zero may be given again |
| `QueryRejects.OffsetTaken` | database/query/parser.go:104-119 | the same for the offset |
| `QueryRejects.OtherClausesRejected` | database/query/parser.go:54-119 | other words begin no clause, and a clause without its word ends unexpectedly |
| `QueryRejects.NoQuery` | database/query/parser.go:37-53 | queries begin with their word and a key |
| `Varint.ReadUvarint` | formats/varint/varint.go:58-97 | the digit loop finds the group up to the first byte below 128 and its value, or tells too small from overflow |
| `Varint.UnpackExactly` | formats/varint/varint.go:58-97 | unpacking succeeds on exactly the buffers that start with a group of at most ten bytes whose value is in range |
| `Varint.UnpackPacked` | formats/varint/varint.go:20-97 | a packed number is unpacked, with its length, before any suffix |
| `Varint.Unpack8Packed` | formats/varint/varint.go:12-55 | the 8-bit forms agree with the others except for the reported length, which is right exactly below 128 |
| `Varint.PutUvarint` | formats/varint/varint.go:20-38 | the buffer holds the packed number and is otherwise untouched |
| `Varint.Pack16` | formats/varint/varint.go:20-24 | a buffer of three bytes suffices |
| `Varint.Pack32` | formats/varint/varint.go:27-31 | a buffer of five bytes suffices |
| `Varint.Pack64` | formats/varint/varint.go:34-38 | a buffer of ten bytes suffices |
| `Varint.EncodedSizeIsPackedSize` | formats/varint/helpers.go:25-48 | the announced size is the packed size for all 64-bit numbers |
| `Varint.BlockBeforeSuffix` | formats/varint/helpers.go:6-22 | a length-prefixed block is read back before any suffix |
| `Varint.GetNextBlockExactly` | formats/varint/helpers.go:11-22 | which buffers start with which block |
| `Varint.SliceFaultExactly` | formats/varint/helpers.go:11-22 | slicing faults on exactly the buffers whose first number, with its own length, is above the signed range |
| `Varint.SliceFaultWitness` | formats/varint/helpers.go:11-22 | ten bytes on which it does |
| `Containers.Container.constructor` | container/container.go:27-31 | a new container holds the concatenation of its parts |
| `Containers.Container.RenewCompartments` | container/container.go:205-211 | the contents stay, with room in front |
| `Containers.Container.Prepend` | container/container.go:34-40 | contents become data + contents, and where the offset then is |
| `Containers.Container.Append` | container/container.go:43-45 | contents become contents + data |
| `Containers.Container.PrependNumber` | container/container.go:48-50 | prepends the packed number |
| `Containers.Container.AppendNumber` | container/container.go:53-55 | appends the packed number |
| `Containers.Container.PrependInt` | container/container.go:58-60 | prepends the packed two's complement |
| `Containers.Container.AppendInt` | container/container.go:63-65 | appends the packed two's complement |
| `Containers.Container.AppendAsBlock` | container/container.go:68-71 | appends length and data |
| `Containers.Container.PrependAsBlock` | container/container.go:74-77 | prepends length and data |
| `Containers.Container.AppendContainer` | container/container.go:80-82 | appends the other's contents, which rests on its emptied compartments |
| `Containers.Container.AppendContainerAsBlock` | container/container.go:85-88 | appends length and contents of the other; for the container itself the length appears twice |
| `Containers.Container.HoldsData` | container/container.go:91-98 | true exactly if the contents are not empty |
| `Containers.Container.Length` | container/container.go:101-106 | the length of the contents |
| `Containers.Container.Replace` | container/container.go:109-111 | valid and holding the data exactly if the offset was zero; otherwise nothing lies behind the offset |
| `Containers.ReplaceAfterPrepend` | container/container.go:34-111 | after prepending, none of the data replaced is seen |
| `Containers.Container.CompileData` | container/container.go:114-126 | returns the contents and keeps them in one compartment |
| `Containers.Container.Get` | container/container.go:129-136 | takes n bytes off the front, or fails and changes nothing |
| `Containers.Container.GetAll` | container/container.go:139-144 | takes everything |
| `Containers.Container.GetAsContainer` | container/container.go:147-154 | takes n bytes into a new container, or fails and changes nothing |
| `Containers.Container.GetMax` | container/container.go:157-161 | takes at most n bytes |
| `Containers.Container.WriteToSlice` | container/container.go:164-182 | fills the slice from the front, leaves its rest, and tells whether the container is empty |
| `Containers.Container.CheckOffset` | container/container.go:223-227 | restores the invariant without changing the contents |
| `Containers.Container.PrependLength` | container/container.go:232-234 | the contents become a block |
| `Containers.Container.Peek` | container/container.go:237-262 | the first n bytes of the contents |
| `Containers.Container.PeekContainer` | container/container.go:265-287 | the same as a new container, none if n is negative or too large |
| `Containers.Container.Skip` | container/container.go:289-306 | drops n bytes |
| `Containers.Container.GetNextBlock` | container/container.go:309-315 | the block at the front of the contents, and what then remains, errors included |
| `Containers.Container.GetNextBlockAsContainer` | container/container.go:318-324 | the same as a container; fails also on lengths above the signed range |
| `Containers.Container.GetNextN8` | container/container.go:327-335 | the 8-bit number at the front |
| `Containers.Container.GetNextNumber` | container/container.go:338-369 | the number at the front, looking at a given number of bytes; on errors nothing is taken |
| `Containers.Container.GetNextN16` | container/container.go:338-346 | the 16-bit number in the first three bytes |
| `Containers.Container.GetNextN32` | container/container.go:349-357 | the 32-bit number in the first five bytes |
| `Containers.Container.GetNextN64` | container/container.go:360-369 | the 64-bit number in the first ten bytes |
| `Containers.NextNumberOfPacked` | container/container.go:338-369 | an appended number is the next number |
| `Containers.NextIntOfPacked` | container/container.go:57-65 | a signed integer that was added is the next number, taken as signed again |
| `Containers.NextBlockOfPacked` | container/container.go:309-315 | an appended block is the next block and leaves what follows |
| `RecordWrapper.Int64OfOctets` | database/record/meta-gencode.go:25-43 | every signed 64-bit integer is read back from its eight bytes |
| `RecordWrapper.Meta.GenCodeMarshal` | database/record/meta-gencode.go:14-116 | the buffer is the packed layout of all six fields |
| `RecordWrapper.Meta.GenCodeUnmarshal` | database/record/meta-gencode.go:119-145 | all fields are set from the layout, or none if there is too little data |
| `RecordWrapper.GenCodeRoundTrip` | database/record/meta-gencode.go:14-145 | metadata is read back for all 64-bit values and both flags |
| `RecordWrapper.WrapperObject.Marshal` | database/record/wrapper.go:83-101 | format byte and data, nothing for a deleted record, errors for missing metadata and format mismatch |
| `RecordWrapper.WrapperObject.MarshalRecord` | database/record/wrapper.go:104-129 | by way of a container: version, metadata block and data in the stored layout |
| `RecordWrapper.LoadMetaSection` | formats/dsd/dsd.go:21-88 | the metadata section loads back by its format identifier |
| `RecordWrapper.RoundTrip` | database/record/wrapper.go:24-64 | a stored record loads back with the same metadata, format and data, or as raw and empty if deleted, exactly if it is loadable, as all with formats below 128 are |
| `RecordWrapper.LiveRecordLoads` | database/record/wrapper.go:24-64 | a record that is not deleted, with a format below 128, loads back with its data |
| `RecordWrapper.MetaFormats` | formats/dsd/dsd.go:21-88 | metadata is refused in the raw and the automatic format and, packed, if it is too short; all other formats are left to the libraries |
| `RecordWrapper.OtherVersionsRejected` | database/record/wrapper.go:24-36 | only version 1 is loaded |
| `RecordWrapper.LoadFaultsExactly` | database/record/wrapper.go:24-36 | loading faults on exactly the data of version 1 with such a length of the metadata |
| `RecordCache.Interface.constructor` | database/interface.go:118-136 | a new interface shows what the storage holds |
| `RecordCache.Interface.StoragePut` | database/controller.go:121-154 | put, shadow delete or immediate delete: the storage then shows the record, or none if deleted, and all others as before |
| `RecordCache.Interface.Evict` | database/interface_cache.go:120-163 | an eviction with its handler changes no view and leaves no pending write for the key |
| `RecordCache.Interface.CacheSet` | database/interface_cache.go:201-213 | setting an entry, with any evictions, keeps all other keys coherent |
| `RecordCache.Interface.CheckCache` | database/interface_cache.go:165-180 | what is cached is the record last put; what is not is in the storage |
| `RecordCache.Interface.UpdateCache` | database/interface_cache.go:187-227 | whether the write is taken over by the cache, and that all other keys stay coherent |
| `RecordCache.Interface.Get` | database/interface.go:160-202 | returns the record last put under the key, or not found, or permission denied; no secret without internal and no crown jewel without local permission, and no denial with both |
| `RecordCache.Interface.Put` | database/interface.go:269-345 | succeeds exactly if permitted and then the record, with the marks of the options added, is the last one put under its key; a delayed write is pending with the storage untouched at its key, any other is not pending |
| `RecordCache.Interface.FlushWriteCache` | database/interface_cache.go:84-116 | with all permissions, after a full flush nothing is pending and the storage alone holds the view of every key; without, the pending writes are dropped, which the view survives exactly if they were stored already |
| `RecordCache.Interface.WriteAll` | database/interface_cache.go:98-115 | in any order, every pending record is written |
| `RecordCache.FlushLosesWrite` | database/interface_cache.go:84-116 | a write delayed without all permissions is neither pending nor stored after a flush |
| `ConfigOptions.CachedIsFresh` | config/get.go:18-72 | in every interleaving a getter whose flag is set caches what a fresh layered lookup gives, unless a setter that wrote its option or the release level has not signalled yet |
| `ConfigOptions.StepKeeps` | config/set.go:22-38 | every step of every getter and setter keeps that |
| `ConfigOptions.ServedSinceLastSignal` | config/get.go:60-72 | a cached value served was read after the last signal of the run |
| `ConfigOptions.SignalledIsSeen` | config/set.go:156-191 | after a setter's signal no getter serves a value read before it |
| `ConfigOptions.SetThenGet` | config/set.go:156-191 | a value set and signalled is what every getter of the option serves from then on, in every interleaving, until the option or the release level is written again |
| `ConfigOptions.NeverSetGivesFallback` | config/get.go:18-72 | in every interleaving an option never set gives its own fallback, and one without any, of another type or unknown, the getter's |
| `ConfigOptions.ReleaseLevelSet` | config/release.go:78-97 | which names stand for which level, set as default or, without one, as active value; all others stand for stable |
| `ConfigOptions.ReleaseLevelElsewhere` | config/release.go:78-97 | a default level shadows any active one, and without either the fallback counts |
| `ConfigOptions.LevelOpensOption` | config/get.go:41-50 | a beta option shows its active value at the beta level and its default at the stable one |
| `ConfigTree.FlattenMap` | config/persistence.go:117-132 | in any iteration order exactly the section's values are merged in, under their joined keys |
| `ConfigTree.Flatten` | config/persistence.go:111-115 | the flat form holds for every key what the tree holds at its path |
| `ConfigTree.PutLookup` | config/persistence.go:149-183 | putting a value changes the value at its path, removes those above and below it, and no other |
| `ConfigTree.Expand` | config/persistence.go:140-146 | in any order: if no key is a path prefix of another the tree holds exactly the flat values; it never holds others |
| `ConfigTree.FlattenExpanded` | config/persistence.go:111-183 | flattening the expanded form gives the flat form back exactly if no key is a path prefix of another |
| `ConfigTree.PrefixIsLost` | config/persistence.go:149-183 | a configuration with keys "a" and "a/b" does not come back |
| `ConfigTree.CleanFlattened` | config/persistence.go:186-196 | exactly the existing options are left |
| `ConfigTree.CleanSubMap` | config/persistence.go:206-234 | of a section exactly the existing options are left, no section stays empty, and emptiness is reported |
| `ConfigTree.CleanHierarchical` | config/persistence.go:199-204 | the same for the whole tree |
| `ConfigTree.CleanBothWays` | config/persistence.go:186-234 | cleaning then flattening equals flattening then cleaning |
| `ProviderRegistry.Registry.Register` | runtime/registry.go:101-128 | accepted exactly if it conflicts with no registration; so no prefix key is ever a prefix of another key |
| `ProviderRegistry.Registry.GetMatchingProvider` | runtime/registry.go:268-282 | returns the provider that owns the key by equality or prefix, and none exactly if nobody does |
| `ProviderRegistry.OwnerIsUnique` | runtime/registry.go:101-128 | no key has two owners |
| `ProviderRegistry.OwnsExactly` | runtime/registry.go:62-64 | a registration that ends in a slash owns everything below it, and any other only itself |
| `ProviderRegistry.LongestPrefixDecides` | runtime/registry.go:268-282 | the owner of a key is its longest registered prefix |
| `VersionedNames.MatchedIsVersion` | updater/filename.go:10-10 | the matched text is in the language of the version pattern |
| `VersionedNames.MatchedIsLongest` | updater/filename.go:10-10 | no longer prefix is: the greedy match is the longest |
| `VersionedNames.VersionForm` | updater/filename.go:10-10 | three numbers and maybe a tag of letters make a version |
| `VersionedNames.VersionParts` | updater/filename.go:10-10 | every version is made of those |
| `VersionedNames.PackedLayout` | updater/filename.go:43-57 | how a version is written in names |
| `VersionedNames.PathLayout` | updater/filename.go:43-57 | it goes before the first dot of the file name, below any directory |
| `NameMatching.FoundIsLeftmost` | updater/filename.go:18-23 | the match found is the leftmost |
| `NameMatching.IndexOfMatch` | updater/filename.go:29-35 | searching for the matched text finds the leftmost match |
| `VersionedNames.ReplaceSeparators` | updater/filename.go:25-27 | replacing the separators of a version and replacing them back is the identity |
| `NameMatching.PathRoundTrip` | updater/filename.go:15-57 | the round trip for any pattern whose matches do not run into the text put in |
| `VersionedNames.RoundTrip` | updater/filename.go:15-57 | taking apart a versioned path gives identifier and version back, for every well-formed version and every identifier without a match before its first dot |
| `VersionedNames.VersionedAgain` | updater/filename.go:15-57 | a name whose leftmost version is right before its first dot, or at its end, is put together again from its parts |
| `VersionSelection.SortSorts` | updater/resource.go:174-189 | sorting orders by descending precedence and permutes |
| `VersionSelection.Resource.AddVersion` | updater/resource.go:225-279 | at most one current release; exactly one version is added or marked, no flag of another changes except the current mark; numbers stay distinct exactly if a version added has a new one, as it has if the string is normalised |
| `VersionSelection.Resource.IsSelectable` | updater/resource.go:114-135 | the switch means: not blacklisted, and available or to be downloaded automatically |
| `VersionSelection.Resource.FindFit` | updater/resource.go:363-380 | finds the first fit version of the sorted list, which is a newest fit one |
| `VersionSelection.Resource.SelectableCurrent` | updater/resource.go:350-361 | finds the current release if it is selectable; stopping at the first one is right since there is only one |
| `VersionSelection.Resource.Choose` | updater/resource.go:337-384 | the choice meets the declarative priority order |
| `VersionSelection.Resource.SelectVersion` | updater/resource.go:308-384 | sorts, permutes, and selects by the priority order, nothing from an empty list; so outside dev mode, if some version is available, stable and not blacklisted, the one selected is not blacklisted and is available or downloadable and, unless it is the current release, no older than those |
| `VersionSelection.ChosenServes` | updater/resource.go:337-384 | that consequence, for any choice that meets the priority order |
| `VersionSelection.DevVersionWins` | updater/resource.go:339-348 | in dev mode an available development version is chosen if no other version is as low |
| `VersionSelection.Resource.Blacklist` | updater/resource.go:387-416 | succeeds exactly if the version exists and two are usable; then one still is, and the selection is renewed, so with an available stable version left it is none that is blacklisted |
| `VersionSelection.Resource.Required` | updater/resource.go:444-475 | the least number of leading versions with the active, the selected and a stable one |
| `VersionSelection.Resource.PurgeBoundary` | updater/resource.go:425-480 | the boundary lies the kept number behind those; none if a version is blacklisted |
| `VersionSelection.Resource.Purge` | updater/resource.go:421-532 | removed are exactly the files of available versions behind the boundary; with distinct numbers exactly the versions before it, or without a file, are spared, among them always the active and the selected one and, in a sorted list, the newest stable one |
| `VersionSelection.SparedExactly` | updater/resource.go:482-531 | with distinct numbers, a version keeps its file exactly if it is listed before the boundary or has none |
| `VersionSelection.PurgeKeepsRequired` | updater/resource.go:444-483 | so the active, the selected and, in a sorted list, the newest stable version keep theirs |
| `VersionSelection.PurgeLosesNewest` | updater/resource.go:225-532 | with three versions added before the newest one, purging removes the file of the newest |
| `VersionSelection.PurgeLosesSelected` | updater/resource.go:239-256 | with four versions added under a string that is not their number, purging removes the file of the selected one |
| `VersionSelection.PurgeExamples` | updater/resource.go:225-532 | both on concrete versions |

## Left out

- Modules: real time (timeouts are failing ends of control functions), workers, sleep mode, events, and starting again after a failed start. Flag parsing, the global prep function, command line operations and logging only decide whether `Start` goes on. `stop` and the counters behind `stopComplete` are one step that ends Offline.
- TaskSchedule: waiting for timeslots and for the module to start, and the pointers of the linked lists; schedule and run queues are sequences and each call is one step. Removal and the reset of the execution time at the start of a run are one step.
- Microtasks: durations; a task may give up waiting at any moment.
- CallLimiter: the pause between executions, which only delays.
- Queries: how libraries read floats and regular expressions (any way they do is covered; the condition keeps the text they print), error positions and messages, and matching of records; text is a sequence of characters, so what the lexer does with multi-byte runes at the end of the text is not covered.
- Containers: sharing of byte slices between containers and their callers (contents are values), `WriteAllTo`, `clean` and `carbonCopy`.
- Containers.Container.Peek: needs a compartment if bytes are asked for, as the source indexes one; the methods that peek inherit this.
- Varint.GetNextBlockExactly: buffers are no longer than a signed 64-bit length can say.
- RecordWrapper: other formats and compression of metadata, done by libraries, are a parameter; database name and key are passed through and omitted.
- RecordCache.Interface.StoragePut: hooks, subscribers and failing storage writes are not covered.
- RecordCache: time (records do not expire; an expiry of a cache entry is an eviction), concurrent calls on one interface, and changes to a record object after it was put. `ClearCache`, `FlushCache` and `Delete` are not steps: they drop pending writes, do nothing when delaying is on, and bypass the cache.
- ConfigOptions: registering options after getters were made, validation and migration of values; a rejected value is not a step.
- ConfigTree.Flatten: path joining is modelled for clean segments only (not empty, no slash, neither `.` nor `..`), and nested maps are values that are rebuilt, not updated in place.
- ProviderRegistry: the radix tree is a map with a longest-prefix search; queries over several providers are not covered.
- VersionSelection: parsing of version numbers is a parameter and precedence a real number, of which only the order is used; signatures, notifiers, unpacked copies and failing file removals are not covered.
- HTTP and websocket API, storage backends, JSON, YAML, CBOR, MsgPack and gzip bodies, download and signature checking, metrics, logging, and operating system helpers.
