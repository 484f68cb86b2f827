# nnysl: logging, live configuration, locks and threads

nnysl is a small C++ base library for server frameworks. This project models its four cores and proves what
they are for, for all inputs, all runs and all interleavings:

- **Patterns** (`Pattern`, `PatternLaws`, `PatternOutput`, `PatternTable`, `DefaultPattern`). The nested scanning loops of `LogFormatter::init`
  compute the recursive scanner `Scan` on every pattern, erroneous ones included. `Scan` and the printer are
  mutual inverses, no character of any pattern is lost, and formatting distributes over concatenation exactly
  when the seam does not continue a specifier.
- **Log reconfiguration** (`Reconcile`, `LogGraph`, `LogManager`, `LogSystem`, `LogOutput`, `LogConfig`,
  `LogClients`, `DefineCodec`, `DefineTrees`).
  Loggers, appenders and the manager are mutable objects. The change listener is an incremental maintenance of
  that heap; the heap is proved to follow a value model step by step, and over every history the value model
  equals a direct reading of that history. What any logger writes is a function of the history alone.
- **Locks and threads** (`LockOrder`, `TwoPhase`, `SpinLock`, `ThreadStart`). Transition systems over any
  number of threads: deadlock and race freedom of all operations, the two-phase `setValue`, the test-and-set
  lock with its guard, and the start-up handshake.
- **Configuration** (`Chains`, `ConfigVar`, `ConfigTree`, `ConfigOrder`). Observable variables and their listeners over whole runs,
  the flattening of a tree into dotted keys, and loading.

`dafny verify dfyconfig.toml` checks everything. Some predicates are *folded* (they count down before they say
what they mean, with a lemma `Unfold` beside them) only so that proofs elsewhere stay small.

Where the program is surprising, the model follows the program:

- `%%` is literal text one character at a time: the second `%` is scanned again. `}` does not end a specifier
  name. An unclosed brace pushes an error token ahead of the pending literal and skips only the `%`.
- Log definitions are ordered and deduplicated by name only, but compared by every field. A dropped logger gets
  level 100 and no appenders, and so does root when its definition is dropped.
- `LexicalCast<LogDefine, std::string>` writes the formatter only when it is empty, never writes the file, and
  names the file type differently from what the reader accepts; `TripProjects` and `SurvivesIff` say exactly
  what survives.
- With more than one writing thread a listener's chain of old and new values can break:
  `TwoSettersBreakTheChain` is a run that does, `ChainIffUndisturbed` says exactly which runs do. The listener can
  also stay out of step at rest: `InStepIff` says exactly when.

Assumptions: pthread calls succeed; atomic steps are sequentially consistent; a read lock is granted whenever
no writer holds the lock (the default preference of `pthread_rwlock_t`), which a listener that reads its own
variable relies on; listeners given by users only log, through a logger they hold or fetch by name, and call `toString` (deadlock freedom) and do not call
back into the variables (sequential runs); `isalpha`, `tolower` and `toupper` are those of the C locale.

## Model

| member | source | states |
|---|---|---|
| `Pattern.LogFormatter.ReadOne` | nnysl/log.cpp:355-390 | the inner loop ends, with every index in range, and leaves exactly the name, format and position that the recursive reading of one specifier gives, or finds the brace unclosed exactly when that does |
| `Pattern.LogFormatter.Tokenize` | nnysl/log.cpp:342-409 | on every pattern the outer loop pushes the recursive scanner's tokens in order, with the displaced literals of unclosed braces, and flags an error iff a brace is unclosed |
| `Pattern.LogFormatter.Build` | nnysl/log.cpp:443-458 | every token becomes its item, unknown names become error text, and the error is set iff some name is not among the eleven known |
| `Pattern.LogFormatter.Init` | nnysl/log.cpp:337-462 | the compiled items are those of the recursive scanner; `isError` holds iff some brace is unclosed or some specifier name is unknown |
| `Pattern.LogFormatter.Format` | nnysl/log.cpp:238-244 | the output is the renderings of the items one after the other |
| `PatternLaws.ScanPrint` | nnysl/log.cpp:337-409 | parsing what a well-formed token list prints gives that list back |
| `PatternLaws.PrintScan` | nnysl/log.cpp:337-409 | every accepted pattern parses to a well-formed list that prints as the pattern, character for character |
| `PatternLaws.AcceptedIffPrinted` | nnysl/log.cpp:337-462 | a pattern is free of error iff it is the print of some well-formed token list |
| `PatternLaws.WellFormedIsClean` | nnysl/log.cpp:443-458 | well-formed token lists never compile to an error |
| `PatternLaws.TuplesShrink` | nnysl/log.cpp:391-398 | printing the program's own tuples, which do not tell `%d{}` from `%d`, never gives a longer pattern than the one they came from |
| `PatternLaws.ReprintExact` | nnysl/log.cpp:391-398 | printing the tuples returns the pattern exactly when it has no empty `{}` |
| `PatternOutput.PatternConserved` | nnysl/log.cpp:342-409 | for every pattern, erroneous or not, every character is accounted for by the tokens pushed |
| `PatternOutput.OutIsRender` | nnysl/log.cpp:238-244 | the output defined on tokens is the output of the compiled items |
| `PatternOutput.PendingShift` | nnysl/log.cpp:391-397 | an accumulated literal is written before what follows it, wherever the seam between merged literals is |
| `PatternOutput.FormatConcat` | nnysl/log.cpp:238-244 | for accepted p and q, unless p ends inside an unbraced specifier that q would continue, p+q is accepted and writes the output of p followed by that of q, for every event and level |
| `PatternOutput.SeamBreaks` | nnysl/log.cpp:355-390 | when q would continue such a specifier, p+q is not accepted or some event shows the difference |
| `PatternOutput.FormatConcatIff` | nnysl/log.cpp:238-244 | so formatting distributes over p+q exactly when the seam is not inside a specifier |
| `PatternTable.FieldOutputs` | nnysl/log.cpp:428-438 | the patterns `%m`, `%r`, `%c`, `%t`, `%f`, `%l` and `%F` write content, elapsed time, logger name, thread id, file, line and fiber id of the event, for every level and event |
| `PatternTable.LevelOutputs` | nnysl/log.cpp:480-482 | `%p` writes DEBUG to FATAL for levels 1 to 5 and UNKNOW for any other |
| `PatternTable.FixedOutputs` | nnysl/log.cpp:496-527 | `%n` writes a line end, `%T` a tab, `%d` the time in the format `%Y-%m-%d %H:%M:%S` |
| `PatternTable.TimeOutputs` | nnysl/log.cpp:504-511 | `%d{f}` writes the time in format f, and `%d{}` in the default one |
| `PatternTable.BracedOutputs` | nnysl/log.cpp:423-438 | the other ten ignore what stands in braces |
| `PatternTable.KnownExactly` | nnysl/log.cpp:428-438 | there are no specifiers but these eleven |
| `PatternTable.UnknownOutputs` | nnysl/log.cpp:449-452 | any other name, the empty one included, with or without braces, writes the error text with that name |
| `PatternTable.TextOutputs` | nnysl/log.cpp:343-346 | text without `%` writes itself |
| `PatternTable.DoubledOutputs` | nnysl/log.cpp:348-353 | a `%` in front of a `%` writes itself, and the second one is read again |
| `PatternTable.UnclosedOutputs` | nnysl/log.cpp:399-403 | an unclosed brace writes the error text first and then what the pattern without this `%` writes, the text before it displaced behind the error |
| `PatternTable.OutputInPieces` | nnysl/log.cpp:238-244 | every accepted pattern writes what its pieces, each taken as a pattern of its own, write one after the other |
| `DefaultPattern.DefaultOutput` | nnysl/log.cpp:91-94 | the pattern every logger starts with is valid, and exactly what it writes for each event |
| `LogGraph.LogAppender.SetFormatter` | nnysl/log.cpp:246-251 | an appender has its own formatter iff the last one set was not null |
| `LogGraph.LogAppender.Log` | nnysl/log.cpp:299-328 | an event that reaches the appender's level is written once, rendered by its formatter; any other is not |
| `LogGraph.Logger.Log` | nnysl/log.cpp:107-121 | terminates; an event that reaches the thresholds on its way is written by the target list (own if not empty, else root's) and nothing else is written |
| `LogGraph.RecordsExact` | nnysl/log.cpp:112-116 | what a list of appenders writes for an event are records of exactly the entries whose level it reaches, each once, at strictly increasing positions |
| `LogGraph.Logger.Emit` | nnysl/log.h:21-25 | a logged event goes exactly once, in list order, to each entry of the target list (own if not empty, else root's) for which it reaches the logger's, the target's and the entry's thresholds, and every record, those written by root included, renders the name of the logger it was made for |
| `LogGraph.Logger.AddAppender` | nnysl/log.cpp:147-154 | an appender without a formatter takes the logger's; formatter inheritance survives iff it had none, has its own, or already shares the logger's |
| `LogGraph.Logger.DelAppender` | nnysl/log.cpp:161-171 | exactly the first occurrence is removed |
| `LogGraph.Logger.SetFormatter` | nnysl/log.cpp:179-188 | appenders without their own formatter follow, the others keep theirs, and inheritance is kept |
| `LogGraph.Logger.SetFormatterPattern` | nnysl/log.cpp:190-198 | an invalid pattern changes nothing; a valid one is taken over and inheritance is kept |
| `LogGraph.Logger.AttachDefined` | nnysl/log.cpp:807-822 | kind 1 gives a file appender on the defined file and kind 2 a console appender, of the defined level, with the defined formatter as its own iff that is not empty and free of error, and otherwise the logger's |
| `LogGraph.Logger.Configure` | nnysl/log.cpp:802-823 | whatever the logger looked like, it ends with the definition's level and exactly its appenders in order, all of them new, and keeps its old formatter unless the definition gives a usable one |
| `LogGraph.Logger.Mute` | nnysl/log.cpp:829-831 | level 100, no appenders, formatter kept |
| `LogGraph.NewRoot` | nnysl/log.cpp:530-533 | root starts with the default pattern and one console appender that follows it |
| `LogGraph.Logger.StandsKept` | nnysl/log.cpp:107-203 | framing: a logger whose fields and attached appenders are untouched looks as before |
| `LogGraph.RecordsAreLines` | nnysl/log.cpp:299-328 | what the appender objects write is determined by what can be observed of them: kind, level, pattern in force |
| `LogClients.World.NewAppender` | nnysl/log.h:244-268 | a new appender can join any logger |
| `LogClients.World.Add` | nnysl/log.cpp:147-154 | a legal addition appends the appender, gives it the logger's formatter iff it had none, and inheritance holds at every logger |
| `LogClients.World.Del` | nnysl/log.cpp:161-171 | only the logger's list changes, by exactly the first occurrence, and inheritance holds at every logger |
| `LogClients.World.FormatLogger` | nnysl/log.cpp:179-188 | exactly the appenders without a formatter of their own follow, and inheritance holds at every logger |
| `LogClients.World.FormatAppender` | nnysl/log.cpp:246-251 | the appender has that formatter as its own, nothing else changes, and inheritance holds at every logger |
| `LogClients.World.Run` | nnysl/log.cpp:147-188 | across any run of those operations and `clearAppenders`, in any order, on appenders made at any time, each performed if it is legal when its turn comes: every attached appender has a formatter, and one without its own has its logger's current one |
| `LogClients.WithoutIsPart` | nnysl/log.cpp:161-171 | a removal keeps every other appender and removes at most one entry |
| `LogManager.LoggerManager.GetLogger` | nnysl/log.cpp:539-550 | the one logger of that name, now and whenever asked again; an unknown name gets a default one, and no other logger changes |
| `LogManager.LoggerManager.ApplyChanged` | nnysl/log.cpp:787-824 | in whatever order the names come, the first loop makes the value model's changes for new and changed definitions and skips the unchanged |
| `LogManager.LoggerManager.MuteDropped` | nnysl/log.cpp:826-833 | the second loop mutes exactly the names no longer defined |
| `LogManager.LoggerManager.OnDefinesChanged` | nnysl/log.cpp:784-834 | the listener first reports to root as root is then, and then leaves every logger of the heap as the value model says, never exchanging a logger object that was handed out |
| `LogManager.LoggerManager.Log` | nnysl/log.cpp:107-121 | what any logger of the manager writes is determined by its view and root's |
| `LogManager.ViewedTargets` | nnysl/log.cpp:107-121 | routing on objects and routing on views agree for all thresholds and lists |
| `LogSystem.LogSystem.SetDefines` | nnysl/config.h:322-335 | an equal set does nothing; any other runs the listener once, and the heap follows the history extended by it |
| `LogSystem.LogSystem.FromTree` | nnysl/config.h:298-316 | a tree that cannot be read changes nothing and is reported to root; one that can is applied, and its listener never meets a null appender |
| `LogSystem.LogSystem.GetLogger` | nnysl/log.cpp:539-550 | the logger of that name, which stays the logger of that name |
| `LogSystem.LogSystem.Log` | nnysl/log.cpp:107-121 | through a logger handed out at any time, exactly the lines that the whole history of definitions prescribes are written |
| `LogSystem.LogSystem.NeverErroneous` | nnysl/log.cpp:190-198 | whatever patterns the definitions gave in whatever history, no logger handed out and none of its appenders ever formats with an erroneous pattern |
| `LogConfig.TreeDecides` | nnysl/config.cpp:25-49 | after loading a tree the definitions are those of its last node, in pre-order, that stands under `logs` and can be read; without one they are as before |
| `LogConfig.TreeConfigures` | nnysl/log.cpp:784-834 | so after loading each logger named by that node is as its definition there says, and each one it drops is muted |
| `LogConfig.LoadTree` | nnysl/config.cpp:25-49 | loading a tree extends the history by exactly what stands under `logs` in it, with the loggers following on the heap |
| `Reconcile.LoopsReconcile` | nnysl/log.cpp:787-833 | the two loops, in any order of names, together make one simultaneous change |
| `Reconcile.ReconcileOne` | nnysl/log.cpp:787-833 | names are independent: one more name changes that name's logger only |
| `Reconcile.RunTracks` | nnysl/log.cpp:787-833 | after every history each logger is what a direct reading of the history says, although each step saw only a difference |
| `Reconcile.RunReconciles` | nnysl/log.cpp:787-833 | after every history each current definition is in force, each dropped name is muted, and every never-defined logger is as created |
| `Reconcile.IncrementalIsFromScratch` | nnysl/log.cpp:784-825 | a defined logger has the level and appenders that its definitions alone give a fresh manager, and is the same altogether iff the formatter in force is, in particular when the definition gives a usable one |
| `Reconcile.ScratchDiffers` | nnysl/log.cpp:803-805 | the other half is real: for every name and usable formatter but the default, a definition that stops giving the formatter leaves a logger that differs from the one made from scratch |
| `Reconcile.MessageThenNothing` | nnysl/log.cpp:803-805 | for instance a definition with formatter `%m` and then one with none |
| `Reconcile.RunIsSound` | nnysl/log.cpp:803-822 | after every history every formatter in force, the logger's and each appender's own, is free of error |
| `Reconcile.DroppedIsSilent` | nnysl/log.cpp:826-833 | after any history that defined a name and does not define it now, no event up to FATAL sent to its logger is written anywhere, root's appenders included |
| `Reconcile.SilentUntilRestored` | nnysl/log.cpp:826-833 | so its logger is silent from the change that drops the definition through every run that does not restore the name |
| `Reconcile.RunKnows` | nnysl/log.cpp:539-550 | a logger exists iff it is root, was fetched, or was ever defined |
| `LogOutput.LinesExactly` | nnysl/log.cpp:107-121 | for any logger and root: nothing below the logger's level; else one line for each appender reached of its own list, or of root's list if its own is empty and root's level is reached, in order, each of the appender's kind and rendered by its own formatter or its logger's |
| `LogOutput.DefinedWrites` | nnysl/log.cpp:784-824 | after any history, an event that reaches a defined logger gives one line for each defined appender it reaches, in order, to the defined file or to standard output, with the output of the appender's usable formatter or else of the last usable one the name was given |
| `LogOutput.FreshWrites` | nnysl/log.cpp:530-550 | a logger nothing was defined for writes one line to standard output, by way of root and in the default format, for every event from DEBUG on |
| `LogOutput.DroppedView` | nnysl/log.cpp:829-831 | after any history a name no longer defined has level 100 and no appenders |
| `LogOutput.LastFormatterExactly` | nnysl/log.cpp:803-805 | the formatter in force is that of the last step that gave a usable one, or the default if no step did |
| `LogOutput.LastDefinesExactly` | nnysl/config.h:322-335 | the definitions in force are those of the last step that set any, or none |
| `DefineCodec.ParseDefine` | nnysl/log.cpp:596-644 | the reading loop computes the recursive reading, whose meaning `DefineTrees.DefineReads` states |
| `DefineTrees.DefineReads` | nnysl/log.cpp:596-644 | every map that stands for a definition reads as exactly that definition: name, level in any letter case, formatter, appenders in order, with keys in any order, further keys without effect, and elements that are to be skipped left out |
| `DefineTrees.SkippedReads` | nnysl/log.cpp:613-640 | an appender without a type, of another type, or a file appender without a file is skipped |
| `DefineTrees.LevelReads` | nnysl/log.cpp:31-45 | a text reads as a level iff it has the letters of its name in whatever case, and as UNKNOW iff it has those of none |
| `DefineTrees.ReadWrite` | nnysl/log.cpp:592-646 | reading undoes a full writer, for every definition the reader can tell apart |
| `DefineTrees.SetReadWrite` | nnysl/config.h:168-185 | a whole set written out in any order reads as that set |
| `DefineTrees.DefineThrows` | nnysl/log.cpp:598-610 | a missing name, and a name, level or formatter that is no text, fail |
| `DefineTrees.PrintedFields` | nnysl/log.cpp:651-658 | what the program's own writer puts under each key: the formatter only when it is empty |
| `DefineTrees.PrintedType` | nnysl/log.cpp:659-672 | the type names it writes, and that it never writes a file |
| `DefineCodec.LevelTrip` | nnysl/log.cpp:11-45 | a level name reads back as its level, every other level as UNKNOW |
| `DefineCodec.TripProjects` | nnysl/log.cpp:592-680 | writing a definition and reading it back keeps the name, any valid level and the ordered console appenders with their formatters, and nothing else |
| `DefineCodec.TripIsIdempotent` | nnysl/log.cpp:592-680 | a second trip loses nothing more |
| `DefineCodec.SurvivesIff` | nnysl/log.cpp:651-680 | a definition survives the trip iff its level has a name or is UNKNOW, it has no formatter, and its appenders are console appenders without level or file |
| `DefineCodec.ReadAppendersTyped` | nnysl/log.cpp:609-642 | every appender read is a console appender, or a file appender whose file the tree gave; none has a level |
| `DefineCodec.ReadSetIsWellTyped` | nnysl/log.cpp:807-822 | no definition set that can be read makes the listener meet a null appender |
| `DefineCodec.ParseDefines` | nnysl/config.h:168-185 | the set is read element by element, and one bad element fails it |
| `DefineCodec.FirstDefinitionWins` | nnysl/log.cpp:580-582 | a name is defined iff some element has it, and then by the first such element entirely |
| `LockOrder.OperationDisciplined` | nnysl/config.h:322-412 | every operation, with whatever loggers, appenders, listeners and failures it meets, takes its locks in the one order Config, variable, manager, logger, root, appender, and touches shared state only under that state's lock, exclusively for a change |
| `LockOrder.ActionsAreOrdered` | nnysl/thread.h:31-159 | scoped guards that nest in order acquire and release in order |
| `LockOrder.MutualExclusion` | nnysl/thread.h:63-190 | in every state that is reached, no two threads hold a lock in conflicting modes |
| `LockOrder.NoRaces` | nnysl/thread.h:31-245 | in every state that is reached, no two threads are about to use the same registry, value, listener list, logger table, logger or appender with one of them changing it |
| `LockOrder.DeadlockFree` | nnysl/thread.h:31-245 | in every state that any number of threads reach by any operations in any interleaving, some thread can step unless all have finished |
| `LockOrder.EveryRunEnds` | nnysl/thread.h:31-245 | every run is bounded, and one that cannot be continued has finished all operations |
| `LockOrder.FindEnabled` | nnysl/thread.h:31-245 | a chain of threads that wait for one another climbs the order and ends at one that can step |
| `TwoPhase.PhasesExclude` | nnysl/config.h:322-335 | under every interleaving writers exclude readers and each other, and while a thread is in its callback phase the value stays the old one it hands out |
| `TwoPhase.ResultsAreCurrent` | nnysl/config.h:317-321 | `getValue` returns the value written last when it reads, or the default; later results are never older; and every value written is one that some thread's `setValue` was given |
| `TwoPhase.ChainIffUndisturbed` | nnysl/config.h:322-335 | for any number of threads, a listener's calls form an unbroken chain iff it is never called while another thread has told it a value not yet written |
| `TwoPhase.SingleSetterChains` | nnysl/config.h:322-335 | with one writing thread every chain is unbroken and ends at the current value whenever that thread is idle |
| `TwoPhase.SingleSetterSets` | nnysl/config.h:322-335 | with one writing thread the value, whenever that thread is idle, is that of its last `setValue`, whatever the readers do |
| `TwoPhase.TwoSettersBreakTheChain` | nnysl/config.h:322-335 | a run of two writing threads in which a listener is told 0 to 1 and then 0 to 2 |
| `TwoPhase.AnyTwoSettersCanBreak` | nnysl/config.h:322-335 | for any threads, two of which first set other values than the default, and any listener, there is a run that breaks its chain |
| `TwoPhase.ToldIsWritten` | nnysl/config.h:322-335 | at rest, with any number of writing threads, each value has been told to each listener exactly as often as it was written: only the order can differ |
| `TwoPhase.InStepIff` | nnysl/config.h:322-335 | at rest a listener knows the current value iff the last write wrote what the listener had last been told by then |
| `TwoPhase.TwoSettersLeaveOutOfStep` | nnysl/config.h:322-335 | a run of two writing threads after which the value is 1 for good and the listener was last told 2 |
| `TwoPhase.StepKeepsInv` | nnysl/thread.h:97-190 | each step keeps the reader/writer lock's counts true |
| `TwoPhase.RunLinks` | nnysl/config.h:328-330 | as long as no call is disturbed, what a listener was last told is the current value or the one a single thread is about to write; the first disturbed call breaks the chain for good |
| `SpinLock.CriticalSectionsExclude` | nnysl/thread.h:31-61 | for any use of the guards, sections exclude each other, the flag is set iff a thread is in one, and each guard's own flag agrees outside lock and unlock |
| `SpinLock.CounterIsExact` | test/test_thread.cpp:14-17 | increments by separate load and store under the guard are never lost: the counter ends at the exact total, the lock free |
| `SpinLock.SomeoneGetsFurther` | nnysl/thread.h:227-245 | unless all threads are through, some thread has a step other than a failed test-and-set |
| `SpinLock.StepKeepsInv` | nnysl/thread.h:31-61 | each step, also those between an atomic operation and the guard's note of it, keeps counter plus outstanding increments constant |
| `ThreadStart.ConstructorWaits` | nnysl/thread.cpp:69-83 | when the constructor returns, the child has set the id, taken the callback, and has the name given, or UNKNOW for an empty one; the system's name is the first 15 characters of it |
| `ThreadStart.ObjectIsSafe` | nnysl/thread.cpp:109-122 | the child never uses an object that is gone; after it has notified, what it does neither depends on the object nor changes it |
| `ThreadStart.CallbackRunsOnce` | nnysl/thread.cpp:109-122 | the callback given is the one run, at most once, and has run by the time a join returns |
| `ThreadStart.SemaphoreCounts` | nnysl/thread.cpp:13-51 | the semaphore's value is always posts minus completed waits |
| `ThreadStart.ReleasedOnce` | nnysl/thread.cpp:87-107 | any number of joins and then destruction joins or detaches the pthread exactly once, and joins it iff there was a join |
| `ThreadStart.EveryStepWorks` | nnysl/thread.cpp:69-122 | each step of either thread leaves less to do |
| `ThreadStart.EveryRunEnds` | nnysl/thread.cpp:69-122 | every run is bounded by the work at the start, and one that cannot be continued has destroyed the object and let the child exit |
| `ConfigVar.ConfigVar.SetValue` | nnysl/config.h:322-335 | an equal value does nothing; any other is told to all listeners, the old value still in place, and then written |
| `ConfigVar.ConfigVar.FromString` | nnysl/config.h:298-316 | true iff the text converts, and then as `SetValue`; otherwise nothing changes |
| `ConfigVar.ConfigVar.AddListener` | nnysl/config.h:339-346 | the id is one more than the last that the variable's counter gave out, and is put on the list that `RegisteredIff` speaks of |
| `ConfigVar.ConfigVar.DelListener` | nnysl/config.h:349-352 | exactly that listener is gone |
| `ConfigVar.AnnouncedExact` | nnysl/config.h:328-330 | a change is told once to each registered listener, in ascending order of ids, and to no other |
| `ConfigVar.EraseExact` | nnysl/config.h:349-352 | removal keeps the order and every other listener |
| `ConfigVar.ListenerChain` | nnysl/config.h:322-365 | over every run on any number of variables: each call starts from what the call before announced, beginning with the value at registration; a registered listener knows the current value; no other variable ever uses its id |
| `ConfigVar.RegisteredIff` | nnysl/config.h:339-365 | over every run, a listener that was added is on its variable's list iff no later act removed it or cleared the list |
| `ConfigVar.HearsAll` | nnysl/config.h:322-335 | a listener added and not removed has been told exactly the changes of its variable's value since, each once and in order |
| `ConfigVar.ValueSet` | nnysl/config.h:322-335 | setting gives a variable that value, and nothing else changes a value |
| `ConfigVar.ChangeTellsInOrder` | nnysl/config.h:328-330 | each change appends one call for each listener on the list, in ascending order of ids, and no other |
| `ConfigVar.Variables.AddListener` | nnysl/config.h:339-346 | among variables that share a counter, the id is one more than any given out before by any of them, and the objects follow the run |
| `ConfigVar.Variables.SetValue` | nnysl/config.h:322-335 | the objects follow the run |
| `ConfigVar.Variables.Chains` | nnysl/config.h:322-365 | so the chain of every listener holds of the objects, whatever was done to them |
| `ConfigVar.Variables.Hears` | nnysl/config.h:322-365 | registration and hearing likewise hold of the objects |
| `ConfigTree.ListAllMember` | nnysl/config.cpp:12-23 | the recursion appends what is listed, and reports the rejected prefixes, in pre-order |
| `ConfigTree.ListedExactly` | nnysl/config.cpp:12-23 | listed are, in pre-order, exactly the nodes all of whose path segments use the allowed alphabet |
| `ConfigTree.SplitJoin` | nnysl/config.cpp:20 | splitting a listed key at its dots gives the keys on the node's path back, for keys without dots |
| `ConfigTree.JoinInjective` | nnysl/config.cpp:20 | so different such paths have different keys |
| `ConfigTree.NamesIffParts` | nnysl/config.cpp:20-37 | a variable takes a node's text iff the dotted parts of its name are the keys on the node's path and all are written with allowed characters |
| `ConfigTree.AllowedAlphabet` | nnysl/config.h:404-408 | the allowed characters are exactly those of the alphabet |
| `ConfigOrder.PreOrder` | nnysl/config.cpp:17-22 | the order of the list, by positions in the tree: every node once, before everything below it and before what stands later in its map |
| `ConfigTree.AllowedIsLower` | nnysl/config.cpp:35-36 | the later lower-casing changes no listed key |
| `ConfigTree.Config.Lookup` | nnysl/config.h:386-412 | found, of another type, invalid name and newly registered: result and registry in each case; all registered variables share the id counter, and a new one has the given name, type and conversion, so that asking again finds it |
| `ConfigTree.Config.LoadFromYaml` | nnysl/config.cpp:25-49 | every registered variable is changed by exactly the listed values under its name, in order, with their listener calls; the rest of it and all others stay |
| `ConfigTree.LoadIsLastConverted` | nnysl/config.cpp:25-49 | a variable ends with the last node, in pre-order of the whole tree, whose path reads as its name and whose text it can convert, else it keeps its value, listeners and calls |

## Left out

- YAML text: trees are values, and writing a node to text and loading it again is taken as the identity on it, so no round trip of `set<LogDefine>` through text is claimed (structured elements come out as quoted scalars). `boost::lexical_cast` and yaml emission are functions passed in.
- A map where the reader expects a list (of appenders, or of definitions): yaml-cpp would look its keys up by number. Numeric keys are not modelled; null nodes are not either.
- Output: what appenders write is a sequence of records. Opening, reopening and checking files, console messages, `strftime` (a function of the format) and the formatting of numbers are left out.
- `ConfigTree.Config.Lookup`: does not model the log lines it writes, and two variables of different types share one value type; their locks are in `LockOrder`.
- `ConfigTree.ListAllMember`: reports prefixes only, not the text of the log line.
- `Pattern.LogFormatter`: formatter objects are immutable; the program never changes one after construction.
- `LogClients.World.Run`: an operation that is not legal when its turn comes is skipped; an appender that has joined one logger may not join another. When one addition keeps inheritance is stated exactly by `LogGraph.Logger.AddAppender`. A null formatter, which breaks it too, is excluded by the operations' types. `setLevel` is not among them, since no formatter depends on it.
- `LogManager.LoggerManager.ApplyChanged`: the order in which a set is walked is left open, which includes the program's order by name.
- `LockOrder.OperationDisciplined`: each operation is the list of locks and accesses for the loggers, appenders and outcomes it meets, so it covers every choice the data could make, but does not tie them to one heap. The accesses the program makes without a lock are not among them: `clearAppenders`, `setLevel`, `getLevel`, `LookupBase` and the stream checks of file appenders claim nothing under concurrency.
- `LogConfig.LoadTree`: writes its reports through the system as `FromTree` does, and does not restate them.
- `ConfigVar.ConfigVar`: `getListener`, which only looks a callback up, is left out.
- `TwoPhase.ChainIffUndisturbed`: the listeners of the variable are fixed during a run; adding and removing them is in `ConfigVar`, for one thread.
- `SpinLock.CounterIsExact`: each thread uses one guard at a time; a second guard on the same lock would spin for ever.
- `ThreadStart.ObjectIsSafe`: a callback that calls `Thread::SetName` uses the object itself; the callback is a single step here.
- Callbacks that throw in the middle of `setValue` are covered by `LockOrder` only.
- Printing loggers and appenders as YAML, `Singleton`, static initialisation order, backtraces, memory-order details, spurious wake-ups and pthread error codes: no property beyond the above depends on them.
