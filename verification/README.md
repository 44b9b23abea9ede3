# Verified models of the apme core

A Dafny model of the parts of apme whose behaviour is hardest to see from the code: the layout passes
and the key reordering of the YAML formatter, the gateway's operation registry (locks, indexes, pauses
and event queues), the OPA circuit breaker, the diff builder of the violation dialog, and five smaller
pieces of algebra: collection names, version ranges, suppression fingerprints, rule-configuration rows
and old-style module arguments.

Code that works step by step is modelled by classes and loops, each proved equal to a function or to a
stated property. What the system promises is then proved about those functions, for every input or for
every run of the state machine. `dafny verify dfyconfig.toml` checks the whole project.

| file | what it models |
|---|---|
| `Text.dfy` | Python strings: white space, trimming, `split("\n")` and `"\n".join` as inverses |
| `YamlLines.dfy` | what the formatter reads off one line: comment, indentation, key, item, block-scalar header |
| `Layout.dfy` | a text as non-blank lines and the blank runs between them |
| `LayoutPasses.dfy` | the three passes as maps on blank runs; idempotence; what each pass keeps |
| `LayoutLoops.dfy` | the formatter's loops, proved to be those maps |
| `LayoutGrammar.dfy` | task files written out: the blank lines of every formatted file, stated on its lines |
| `LayoutData.dfy` | which blank lines of block-scalar data survive formatting |
| `LayoutScalars.dfy` | block scalars written out: which lines are their text, and that formatting keeps it |
| `TaskKeys.dfy`, `TaskTree.dfy` | the order of task keys, and reordering in place over nested documents |
| `KvString.dfy` | `key=value` arguments: parser, printer, round trip |
| `ProjectLock.dfy` | the reference-counted lock table and every interleaving of its users |
| `OperationTypes.dfy`, `SseQueue.dfy` | statuses and messages; bounded event queues with must-deliver eviction |
| `ApprovalGates.dfy` | the pauses of one operation and the futures behind them |
| `OperationRegistry.dfy` | the operation table, the project index, terminal times and the reaper |
| `OpaBreaker.dfy` | the circuit breaker's lock-guarded steps under every interleaving of calls |
| `UnifiedDiff.dfy` | the diff loop, and patching as its inverse |
| `Naming.dfy` | Galaxy names and Python package names |
| `VersionRanges.dfy` | comparator ranges against an advisory interval, over any total order |
| `Suppressions.dfy` | fingerprints and the three-index suppression pass |
| `RuleConfigMerge.dfy` | one configuration per bare rule id, whatever the order of rows |

## Where the code and its promise differ

- The layout passes add a blank line to the data of a block scalar with the keep indicator (`|+`) when a
  task item directly follows it. `LayoutData.FormatKeepsData` gives the exact condition,
  `LayoutData.KeepingExample` a text. Whether the YAML dumper ever hands the passes such a text is library
  behaviour and not modelled.
- Once a list of tasks holds a block, the spacing pass no longer separates the tasks after the next plain
  key at the margin level, although the list goes on. `LayoutGrammar.OuterTaskIsSpaced` gives the exact
  condition, `LayoutGrammar.BlockStopsSpacing` a text of six lines.
- A blank line between the last item of a list of data and the next key of the same task stays, where the
  strip pass promises none between sibling keys: `LayoutGrammar.TaskListIsSpaced` says where.
- `_parse_kv_string` raises `IndexError` on a key without a value (`a=b c=`), where its documentation
  promises a mapping or nothing: `KvString.RaisesExactlyWhen`.
- A status change never drops a terminal time, so an operation that becomes active again is evicted when
  that time runs out: `OperationRegistry.SweepCanEvictActive`.
- `create` keeps the two indexes in agreement exactly for ids that are not empty and not the id of an
  operation of another project: `OperationRegistry.CreatedAgrees`.
- Clearing the lock tables at shutdown lets two tasks into one project unless no task is in or waiting:
  `ProjectLock.ShutdownIsSafeWhenIdle`.
- Resetting the breaker during a trial lets a second trial run beside it:
  `OpaBreaker.ResetBreaks`, `OpaBreaker.ResetIsSafeWhenIdle`.
- The module docstring of `naming.py` calls the split of a package name always unambiguous; an underscore
  in the namespace is lost, and different collections share a package name: `Naming.NamesCollide`.
- `canonicalize_rule_id` strips one prefix, so the canonical form of `native:opa:L1` is not canonical:
  `Suppressions.CanonicalTwice` says for which raw ids.
- The interval test of the npm scan calls a range such as `>a <b` non-empty even when nothing lies between
  the bounds: `VersionRanges.OverlapIsExact`.

## Model

| member | source | states |
|---|---|---|
| `YamlLines.WithoutYamlComment` | src/apme_engine/formatter.py:309-345 | the scanner with its quote and escape flags cuts the line at the first hash that is outside quotes and at the start or after white space, and returns the line exactly when there is none |
| `YamlLines.QuotedTextStays` | src/apme_engine/formatter.py:309-345 | whatever stands between double or single quotes, escaped or doubled as YAML writes it, is kept with all its hashes, and a comment behind it is cut off |
| `LayoutLoops.BlockScalarContentLines` | src/apme_engine/formatter.py:372-409 | the mask marks exactly the lines that belong to a block scalar and the blank lines inside an open one |
| `LayoutLoops.CollapseBlankLines` | src/apme_engine/formatter.py:239-306 | the loop with its pending blanks computes the collapse map, and takes for scalar content exactly the non-blank lines the mask marks |
| `LayoutLoops.IsBareTaskList` | src/apme_engine/formatter.py:514-553 | true exactly when the first relevant line is a list item and no line of that item has a play key |
| `LayoutLoops.PopDeeper` | src/apme_engine/formatter.py:412-454 | popping saved indentations leaves exactly those below the line |
| `LayoutLoops.TaskLayoutMembership` | src/apme_engine/formatter.py:412-454 | the forward pass marks exactly the task items and the keys directly inside tasks |
| `LayoutLoops.IsInsideTask` | src/apme_engine/formatter.py:457-504 | the condition on the nearest non-blank lines removes a blank line exactly between neighbouring keys of one task outside scalars |
| `LayoutLoops.StripTaskInternalBlanks` | src/apme_engine/formatter.py:457-504 | the loop computes the strip map on blank runs |
| `LayoutLoops.AddTaskSpacing` | src/apme_engine/formatter.py:556-610 | the loop computes the spacing map on blank runs |
| `LayoutLoops.FormatDumpedText` | src/apme_engine/formatter.py:1058-1060 | the three loops in order compute the pipeline and keep every non-blank line |
| `LayoutGrammar.FormatsFile` | src/apme_engine/formatter.py:1058-1060 | for every file of tasks or plays, written as item lines, keys two columns in, lists of tasks under their keys and lists of data, and for every choice of blank runs in it, the formatted text is the same lines with exactly the stated runs |
| `LayoutGrammar.TaskListIsSpaced` | src/apme_engine/formatter.py:457-610 | a list of tasks is formatted to one blank line before every task but the first and none between two keys of a task; around the items of a list of data at most one stays |
| `LayoutGrammar.ListedTasksAreSpaced` | src/apme_engine/formatter.py:457-610 | the same for tasks under `tasks`, `handlers`, `block` and the other list keys, in any file |
| `LayoutGrammar.OuterTaskIsSpaced` | src/apme_engine/formatter.py:585-609 | in a list of tasks that also holds such lists, a task gets its blank line if and only if every plain key after the key of a list has another such key below it |
| `LayoutGrammar.BlockStopsSpacing` | src/apme_engine/formatter.py:585-609 | a text of three tasks, the first a block: the second is separated and the third is not |
| `LayoutGrammar.SeparatesIs` | src/apme_engine/formatter.py:593-609 | which item lines the spacing pass separates from the line above, on lines as written |
| `LayoutGrammar.DocumentStart` | src/apme_engine/formatter.py:602-607 | a document start, with any spaces behind it, counts as a header that nothing is separated from |
| `LayoutGrammar.ItemsAre` | src/apme_engine/formatter.py:508 | what an item line is |
| `LayoutGrammar.RowReads` | src/apme_engine/formatter.py:412-610 | what the formatter reads off a written line: column, item, key, list header, play key, no scalar |
| `LayoutGrammar.BareIsTaskFile` | src/apme_engine/formatter.py:514-553 | a written file is taken for a list of tasks exactly when no line before its second item line has a play key |
| `LayoutGrammar.MembersFound` | src/apme_engine/formatter.py:412-454 | the membership pass finds exactly the item lines of tasks and the keys of tasks among the written lines |
| `LayoutGrammar.SpacingIs` | src/apme_engine/formatter.py:571-592 | the state of the spacing pass before every line: in a list or not, and at which column |
| `LayoutPasses.FormatIsIdempotent` | src/apme_engine/formatter.py:1160-1170 | for every text, formatting the layout twice is formatting it once |
| `LayoutPasses.PassesAreIdempotent` | src/apme_engine/formatter.py:239-610 | each of the three passes is idempotent on every text |
| `LayoutPasses.PipelineTwice` | src/apme_engine/formatter.py:1058-1060 | on runs: what the strip pass removes and the spacing pass puts back is put back both times |
| `LayoutPasses.FillingInserts` | src/apme_engine/formatter.py:571-610 | filling empty runs never makes the spacing pass insert somewhere new, and changes nothing at lines with a colon |
| `LayoutPasses.FormatKeepsContent` | src/apme_engine/formatter.py:1058-1060 | the non-blank lines of the formatted text are those of the text, and its blank runs are the pipeline's |
| `LayoutPasses.CollapseKeepsScalars` | src/apme_engine/formatter.py:252-306 | blank runs inside scalars and after keeping scalars stay verbatim, every other run becomes at most one empty line |
| `LayoutPasses.CollapseLeavesNoPairs` | src/apme_engine/formatter.py:239-306 | two blank lines in a row after collapsing are scalar data |
| `LayoutData.PipelineKeepsDataRun` | src/apme_engine/formatter.py:239-610 | a run of scalar data is kept if and only if it is not an empty run before a line the spacing pass separates; interior runs are always kept |
| `LayoutData.FormatKeepsData` | src/apme_engine/formatter.py:1058-1060 | the same for whole texts, with all content lines kept |
| `LayoutScalars.HeaderIsRead` | src/apme_engine/formatter.py:30-35 | a header line, of a key with or without a dash or of a dash alone, with any anchors and tags, style, sign and digit, is read as it is written, measured from the column of its key or dash |
| `LayoutScalars.NotAHeader` | src/apme_engine/formatter.py:30-35 | with anything else behind the style the line is no header |
| `LayoutScalars.ScanText` | src/apme_engine/formatter.py:372-409 | the lines below a header that stand at the column its digit or its first line fixes are its text |
| `LayoutScalars.TextEnds` | src/apme_engine/formatter.py:372-409 | the first line further to the left is not |
| `LayoutScalars.FormatKeepsScalar` | src/apme_engine/formatter.py:239-610 | formatting any text keeps a block scalar in it with every blank line between its lines; trailing ones are data only under `+`, otherwise at most one stays |
| `LayoutData.KeepingScalarGrows` | src/apme_engine/formatter.py:593-609 | for every bare list of three lines, a one-line keeping scalar directly followed by an item, formatting puts an empty line at the end of the scalar |
| `LayoutData.KeepingExample` | src/apme_engine/formatter.py:593-609 | a concrete three-line text with a keep-chomped scalar: formatting puts an empty line before the last line, which is scalar data |
| `Layout.WeaveParts` | src/apme_engine/formatter.py:252-306 | a text is determined by its non-blank lines and blank runs |
| `Layout.PartsOfWeave` | src/apme_engine/formatter.py:252-306 | any non-blank lines and blank runs are the parts of the text woven from them |
| `TaskKeys.DesiredIsReordering` | src/apme_engine/formatter.py:690-743 | the desired keys are the same keys, each once, with `name` first; mappings without a name or with one key stay as they are |
| `TaskKeys.ActionStandsSecond` | src/apme_engine/formatter.py:709-719 | the first key outside the table of keywords, unless empty, stands right behind the name |
| `TaskKeys.DesiredOrder` | src/apme_engine/formatter.py:721-736 | keywords stand in the order of the table, every other key behind them except one right behind the name, and keys outside the table keep their order |
| `TaskKeys.KeyTable` | src/apme_engine/formatter.py:37-69 | the table of keywords, written out |
| `TaskKeys.DesiredTwice` | src/apme_engine/formatter.py:690-743 | ordering ordered keys changes nothing |
| `TaskKeys.ActionIsStable` | src/apme_engine/formatter.py:709-713 | the action key found after reordering is the one found before |
| `TaskTree.FindActionKey` | src/apme_engine/formatter.py:709-713 | the loop finds the first key that is not a known keyword |
| `TaskTree.DesiredKeys` | src/apme_engine/formatter.py:690-736 | the loops that build the key list compute the desired order |
| `TaskTree.CommentedMap.ReorderSingleTask` | src/apme_engine/formatter.py:690-743 | reading the values off for the computed keys, clearing and refilling leaves the desired order with every key's value |
| `TaskTree.ReorderKeepsMeaning` | src/apme_engine/formatter.py:660-743 | at every level of any document the reordered mapping equals the old one up to key order |
| `TaskTree.ReorderTwice` | src/apme_engine/formatter.py:660-743 | reordering a reordered document changes nothing |
| `TaskTree.ReorderPutsNamesFirst` | src/apme_engine/formatter.py:660-743 | every mapping that the walk reaches and that has a `name` starts with it |
| `TaskTree.ReorderReaches` | src/apme_engine/formatter.py:660-687 | below the eight keys that hold tasks or roles, and only there, the documents of a mapping are reordered |
| `KvString.FindClosingQuote` | src/apme_engine/formatter.py:816-834 | the scan that skips escaped characters finds the first quote with an even run of backslashes before it |
| `KvString.ParseKvString` | src/apme_engine/formatter.py:837-884 | the loop terminates, since every round consumes input, and computes the parse |
| `KvString.ParsePrint` | src/apme_engine/formatter.py:837-884 | parsing what was printed gives the arguments back, for distinct word keys and bare, quoted or `{{ }}` values |
| `KvString.ParsesExactlyWhen` | src/apme_engine/formatter.py:837-884 | the parser gives these pairs if and only if the trimmed text is complete arguments that spell them, the last one winning for a repeated key |
| `KvString.PutIs` | src/apme_engine/formatter.py:882 | a repeated key keeps its place and takes the later value |
| `KvString.CharactersAre` | src/apme_engine/formatter.py:797 | the characters of keys and the two quotes, written out |
| `KvString.RaisesExactlyWhen` | src/apme_engine/formatter.py:837-884 | the parser raises if and only if the trimmed text is complete arguments (quoted, `{{ }}` or bare values) followed by a key and an equals sign |
| `KvString.KeyWithoutValueRaises` | src/apme_engine/formatter.py:877-879 | a single key without a value raises |
| `ProjectLock.LockTable.Enter` | src/apme_gateway/operation_registry.py:91-95 | entering reuses the project's lock or makes a free one, and counts the user |
| `ProjectLock.LockTable.Exit` | src/apme_gateway/operation_registry.py:101-110 | leaving releases what was acquired, drops the count, and reclaims an unused lock |
| `ProjectLock.RunKeepsInv` | src/apme_gateway/operation_registry.py:81-110 | every interleaving of enter, acquire, leave and cancel keeps the lock invariant |
| `ProjectLock.LockIsExclusive` | src/apme_gateway/operation_registry.py:81-110 | in every run at most one task per project is inside, tasks of a project share one lock object, the count is the number of tasks, and idle projects have no entry |
| `ProjectLock.ShutdownBreaks` | src/apme_gateway/operation_registry.py:119-136 | from any state with a task, clearing the tables leads to two tasks inside |
| `ProjectLock.ShutdownIsSafeWhenIdle` | src/apme_gateway/operation_registry.py:119-136 | exclusion survives shutdown if and only if no task is in or waiting |
| `OperationTypes.TerminalMustDeliver` | src/apme_gateway/operation_types.py:361-408 | every message that closes a stream must be delivered |
| `OperationTypes.MustDeliverIs` | src/apme_gateway/operation_types.py:358-408 | the terminal statuses and the messages that must be delivered, written out |
| `SseQueue.EvictOldest` | src/apme_gateway/operation_registry.py:587-593 | the nested scan removes the oldest droppable messages, or the oldest of all, until there is room |
| `SseQueue.Queue.Deliver` | src/apme_gateway/operation_registry.py:571-596 | a message that finds room is put last; a droppable one that finds none is refused and the queue stays; one that must be delivered drops just enough of the oldest and is put last |
| `SseQueue.OfferAll` | src/apme_gateway/operation_registry.py:571-599 | every queue gets its offer, and exactly the subscribers that took it stay, in order |
| `SseQueue.Broadcast` | src/apme_gateway/operation_registry.py:553-599 | the same as a function of the subscribers and the contents of all watched queues |
| `SseQueue.SentAllIsRun` | src/apme_gateway/operation_registry.py:553-599 | broadcasts of a whole operation reach each queue as the steps of its subscriber's run, so the run theorems below speak of them |
| `SseQueue.RunIsInOrder` | src/apme_gateway/operation_registry.py:553-599 | in every run what a subscriber has read and has queued is a subsequence of the broadcasts, and the queue stays within its bound |
| `SseQueue.RunDeliversMust` | src/apme_gateway/operation_registry.py:553-599 | no must-deliver message is lost while no more of them than the bound were issued |
| `SseQueue.RoomDelivers` | src/apme_gateway/operation_registry.py:571-596 | a registered subscriber gets a message behind all it has if and only if its queue has room |
| `SseQueue.RoomyRunDeliversAll` | src/apme_gateway/operation_registry.py:553-599 | a subscriber that has room at every broadcast of a run reads or holds every message, in order |
| `SseQueue.FullQueueLosesOne` | src/apme_gateway/operation_registry.py:583-596 | a must-deliver message costs a full queue exactly one message, the oldest droppable one or else the oldest |
| `SseQueue.LosesExactlyWhen` | src/apme_gateway/operation_registry.py:583-596 | a must-deliver message is lost exactly when another one finds the queue full of must-deliver messages |
| `SseQueue.DroppedExactlyWhen` | src/apme_gateway/operation_registry.py:571-599 | a subscriber is dropped exactly when a droppable message finds its queue full; a must-deliver one always gets in last |
| `SseQueue.VictimIsDroppable` | src/apme_gateway/operation_registry.py:587-593 | the message that makes room is the oldest droppable one unless all must be delivered |
| `ApprovalGates.Operation.Tell` | src/apme_gateway/operation_registry.py:553-599 | the message is offered to every subscriber; those that take it have it and stay in order, the others are dropped, and no other queue changes |
| `ApprovalGates.Operation.MoveTo` | src/apme_gateway/operation_registry.py:251-290 | the status is set and the change is broadcast to the subscribers |
| `ApprovalGates.Operation.Announce` | src/apme_gateway/operation_registry.py:363-364 | the status change, if any, and the payload are broadcast in this order |
| `ApprovalGates.Operation.Close` | src/apme_gateway/operation_registry.py:244-247 | every queue with room gets the close marker, and the operation forgets them all |
| `ApprovalGates.Operation.StoreFindings` | src/apme_gateway/operation_registry.py:339-364 | stores findings, opens the begin pause once and broadcasts; a status that does not allow it leaves operation and queues unchanged |
| `ApprovalGates.Operation.StoreAiTriage` | src/apme_gateway/operation_registry.py:366-398 | releases the begin pause, opens the escalation pause once and broadcasts; late replays leave operation, futures and queues unchanged |
| `ApprovalGates.Operation.StoreProposals` | src/apme_gateway/operation_registry.py:400-462 | releases every pause and broadcasts; the new gate is the only pending future |
| `ApprovalGates.FindingsSet` | src/apme_gateway/operation_registry.py:339-364 | which statuses let findings in, and every field and message they set |
| `ApprovalGates.AiTriageSet` | src/apme_gateway/operation_registry.py:366-398 | when a triage is stored, and every field, future and message it sets; otherwise nothing changes |
| `ApprovalGates.ProposalsSet` | src/apme_gateway/operation_registry.py:416-462 | every field, future and message new proposals set: exactly the three old pauses are resolved |
| `ApprovalGates.RunSettlesFutures` | src/apme_gateway/operation_registry.py:339-433 | in every run no future is resolved twice and every future but the current one of its pause is resolved |
| `ApprovalGates.PausesAreKept` | src/apme_gateway/operation_registry.py:339-433 | no registry step replaces a begin or escalation future that exists |
| `ApprovalGates.ProposalsLeaveOneGate` | src/apme_gateway/operation_registry.py:416-433 | right after new proposals the new gate is the only pending future, in every run |
| `ApprovalGates.ReplayIsHarmless` | src/apme_gateway/operation_registry.py:339-398 | replays of any length change nothing exactly when the operation is past both pauses |
| `ApprovalGates.TerminalIsPast` | src/apme_gateway/operation_registry.py:39-58 | terminal operations and operations awaiting approval are past both pauses |
| `OperationRegistry.Registry.Remove` | src/apme_gateway/operation_registry.py:230-247 | the operation, its time and its project entry go, its queues are closed, and all else stays |
| `OperationRegistry.Registry.Create` | src/apme_gateway/operation_registry.py:140-179 | fails, changing nothing, exactly when the project has an operation that is not completed, submitted, failed, expired or cancelled; otherwise the finished one goes, a new queued one is filed for the project, and every other operation stays |
| `OperationRegistry.Registry.RemoveProject` | src/apme_gateway/operation_registry.py:206-220 | fails, changing nothing, exactly on an operation that is in none of the five terminal statuses; otherwise the project's operation goes, if there is one, and no other |
| `OperationRegistry.Registry.Transition` | src/apme_gateway/operation_registry.py:251-290 | sets the status of one operation and broadcasts it to its subscribers; a terminal one notes the time, and no time is dropped |
| `OperationRegistry.Registry.Evict` | src/apme_gateway/operation_registry.py:601-609 | one removal of a sweep, seen from any watched operation |
| `OperationRegistry.Registry.Reap` | src/apme_gateway/operation_registry.py:601-609 | one sweep, in whatever order, leaves exactly the tables without the expired operations; whichever operation is observed is closed if expired and otherwise keeps its subscribers and their queues |
| `OperationRegistry.Registry.Subscribe` | src/apme_gateway/operation_registry.py:521-536 | a new empty queue bounded by 256 joins the operation's subscribers; none for an unknown operation |
| `OperationRegistry.Registry.Unsubscribe` | src/apme_gateway/operation_registry.py:538-549 | the queue, and only it, leaves the subscribers, whose order stays |
| `OperationRegistry.WithoutOneMore` | src/apme_gateway/operation_registry.py:601-609 | removing one operation after others equals removing them together, so a sweep's order does not matter |
| `OperationRegistry.CreatedAgrees` | src/apme_gateway/operation_registry.py:140-179 | creating keeps the indexes in agreement if and only if the id is not empty and not another project's |
| `OperationRegistry.CreateRefusedExactlyWhen` | src/apme_gateway/operation_registry.py:162-168 | in every run a new operation is refused if and only if the project has one in none of the five terminal statuses |
| `OperationRegistry.OnlySweepsEvictActive` | src/apme_gateway/operation_registry.py:140-276 | in every run only a sweep takes out an operation that is in none of those statuses |
| `OperationRegistry.SweepEvictsExactly` | src/apme_gateway/operation_registry.py:601-609 | in every run a sweep takes out exactly the operations whose noted time is at least the time to live ago |
| `OperationRegistry.MovedIs` | src/apme_gateway/operation_registry.py:267-276 | a status change sets the status of its operation alone and notes the time exactly for the five terminal statuses |
| `OperationRegistry.SweptEvicts` | src/apme_gateway/operation_registry.py:601-609 | a sweep evicts exactly the operations whose time ran out, none that was never terminal, and keeps the indexes in agreement |
| `OperationRegistry.RunAgrees` | src/apme_gateway/operation_registry.py:140-276 | in every run the operation table and the project index are inverse, a project has at most one operation, terminal operations have a time, and times belong to live operations that have been terminal |
| `OperationRegistry.SweepCanEvictActive` | src/apme_gateway/operation_registry.py:270-276 | a run in which an active operation is evicted because of an old terminal time |
| `OpaBreaker.CircuitBreaker.ClaimTrial` | src/apme_engine/opa_client.py:76-112 | the trial is lent exactly when the breaker is latched, its latch time is at least a cooldown ago and no trial is in flight; then the flag goes up, otherwise nothing changes |
| `OpaBreaker.CircuitBreaker.SettleTrial` | src/apme_engine/opa_client.py:115-130 | success closes the breaker, failure latches it again at this time; either way the slot is free |
| `OpaBreaker.CircuitBreaker.OnTimeout` | src/apme_engine/opa_client.py:419-435 | a timeout counts, and latches the breaker at the limit |
| `OpaBreaker.CircuitBreaker.Reset` | src/apme_engine/opa_client.py:53-60 | everything is cleared |
| `OpaBreaker.CircuitBreaker.RunOpa` | src/apme_engine/opa_client.py:386-499 | a call run alone, with the clock as it reads it, equals the step machine; it is rejected exactly when open and not claimable, and a trial settles exactly once whatever the outcome |
| `OpaBreaker.NextKeepsInv` | src/apme_engine/opa_client.py:386-499 | every step of every call keeps the breaker invariant |
| `OpaBreaker.RunKeepsInv` | src/apme_engine/opa_client.py:386-499 | every run from a good state keeps the breaker invariant |
| `OpaBreaker.TrialIsExclusive` | src/apme_engine/opa_client.py:76-130 | in every interleaving at most one trial is unsettled, the flag is up exactly then, a trial implies a latched breaker, and latched means a latch time |
| `OpaBreaker.TrialsSettleOnce` | src/apme_engine/opa_client.py:402-499 | a finished call has settled its trial exactly once, other calls never |
| `OpaBreaker.GatedCallClaims` | src/apme_engine/opa_client.py:76-112 | in every run a gated call is lent a trial if and only if the cooldown since the latch time is over and no trial is unsettled; otherwise it finishes without one |
| `OpaBreaker.TimeoutLatches` | src/apme_engine/opa_client.py:419-435 | in every run a timeout latches the breaker, now, if and only if the timeouts since the last clearing event reach the limit |
| `OpaBreaker.ClaimsAreSpaced` | src/apme_engine/opa_client.py:76-112 | any two claims are at least a cooldown apart |
| `OpaBreaker.OpensOnlyAtLimit` | src/apme_engine/opa_client.py:419-435 | the breaker opens only at a timeout that completes the configured number with no clearing event among them |
| `OpaBreaker.SinceClearMeans` | src/apme_engine/opa_client.py:450-474 | the counter is the number of timeouts since the last clearing event |
| `OpaBreaker.ResetBreaks` | src/apme_engine/opa_client.py:53-60 | from any good state with a trial in flight, a reset and later calls end with two unsettled trials |
| `OpaBreaker.ResetIsSafeWhenIdle` | src/apme_engine/opa_client.py:53-60 | trials stay exclusive in every run after a reset if and only if no trial is in flight |
| `UnifiedDiff.FindSync` | frontend/src/components/ViolationDetailModal.tsx:34-41 | the window scan finds the nearest distance at which deleting or inserting lines lets the texts meet |
| `UnifiedDiff.Resync` | frontend/src/components/ViolationDetailModal.tsx:33-50 | where the texts differ, the counts of deleted and inserted lines: the nearest meeting, deletion first, or one of each |
| `UnifiedDiff.MakeUnifiedDiff` | frontend/src/components/ViolationDetailModal.tsx:21-53 | the loop terminates and its text is the greedy diff of both texts' lines under the three header lines, written out |
| `UnifiedDiff.DiffSpells` | frontend/src/components/ViolationDetailModal.tsx:28-51 | context and deleted lines spell the original, context and inserted lines the fix |
| `UnifiedDiff.DiffOfEqual` | frontend/src/components/ViolationDetailModal.tsx:29-32 | equal texts give context lines only |
| `UnifiedDiff.DiffKeepsEqual` | frontend/src/components/ViolationDetailModal.tsx:29-32 | equal lines become one context line |
| `UnifiedDiff.DiffBridges` | frontend/src/components/ViolationDetailModal.tsx:33-46 | where the texts differ and meet again within 20 lines, exactly the lines up to the nearest meeting are deleted or inserted |
| `UnifiedDiff.DiffReplaces` | frontend/src/components/ViolationDetailModal.tsx:47-50 | where they do not, one line is deleted and one inserted |
| `UnifiedDiff.DiffInsertsRest` | frontend/src/components/ViolationDetailModal.tsx:28-51 | after the end of the original the rest of the fix is inserted |
| `UnifiedDiff.DiffDeletesRest` | frontend/src/components/ViolationDetailModal.tsx:28-51 | after the end of the fix the rest of the original is deleted |
| `UnifiedDiff.PatchIsExact` | frontend/src/components/ViolationDetailModal.tsx:28-51 | a hunk applies to exactly the text it calls old and gives the text it calls new |
| `UnifiedDiff.DiffReplays` | frontend/src/components/ViolationDetailModal.tsx:21-53 | the lines of the diff text after its header patch the original into the fix and apply to no other text |
| `UnifiedDiff.DecimalReads` | frontend/src/components/ViolationDetailModal.tsx:24 | the printed line counts read back as the counts |
| `Naming.NormalizeIsProjection` | src/galaxy_proxy/naming.py:82-94 | normalizing gives a normal form and fixes exactly the normal forms (PEP 503, section Normalized Names) |
| `Naming.NormalizeStep` | src/galaxy_proxy/naming.py:82-94 | normalizing, character by character: a separator behind a separator goes, any other becomes a hyphen, capital letters become small |
| `Naming.PrintOf` | src/galaxy_proxy/naming.py:18-33 | a name is cut at its first dot and printed behind the fixed prefix; a name without a dot is refused |
| `Naming.ParseOf` | src/galaxy_proxy/naming.py:36-67 | a package name is accepted exactly when its normal form is the fixed prefix and two parts around a hyphen, and the parts are the pair |
| `Naming.ParseThenPrint` | src/galaxy_proxy/naming.py:18-67 | parsing an accepted package name and printing the pair gives its normal form |
| `Naming.PrintThenParse` | src/galaxy_proxy/naming.py:18-67 | for Galaxy names, printing and parsing gives the pair back if and only if the namespace is not empty and has no underscore and the name has no leading or doubled underscore |
| `Naming.ParseGivesParsed` | src/galaxy_proxy/naming.py:36-67 | parsed namespaces have no separator and are not empty; parsed names have single inner underscores only |
| `Naming.NamesCollide` | src/galaxy_proxy/naming.py:3-33 | moving the dot to an underscore of the namespace gives another collection with the same package name |
| `VersionRanges.VersionSatisfies` | scripts/security_scan_npm.py:74-93 | the loop with its early exits decides whether every comparator is met |
| `VersionRanges.MergeMeans` | scripts/security_scan_npm.py:96-145 | a merged bound admits exactly what both bounds admit |
| `VersionRanges.RangeOverlaps` | scripts/security_scan_npm.py:167-192 | the fold answers yes exactly when every lower bound goes with every upper bound, advisory included |
| `VersionRanges.OverlapIsComplete` | scripts/security_scan_npm.py:167-192 | the answer is yes whenever an affected version meets all comparators |
| `VersionRanges.OverlapIsExact` | scripts/security_scan_npm.py:148-192 | in every total order an affected version meets the range if and only if the answer is yes and some version lies between every `>` and every `<` bound |
| `VersionRanges.OverlapIsExactWhen` | scripts/security_scan_npm.py:148-192 | so the answer is exact in dense orders, and in every order for a range without `>` |
| `VersionRanges.OverlapCanOverstate` | scripts/security_scan_npm.py:148-164 | for neighbours a and b of any total order, `>a <b` is answered yes although no version is in it |
| `VersionRanges.NumbersHaveNeighbours` | scripts/security_scan_npm.py:148-164 | such orders exist: every whole number has a neighbour |
| `VersionRanges.OverlapIgnoresOrder` | scripts/security_scan_npm.py:178-186 | the order of comparators does not change the answer |
| `VersionRanges.SingleAgrees` | scripts/security_scan_npm.py:343-410 | the branches for a single comparator give the fold's answer |
| `Suppressions.FingerprintMeans` | src/apme_engine/fingerprint.py:128-165 | with a hash without collisions and ids without NUL, equal fingerprints of a mode mean equal canonical ids and equal covered text, and conversely |
| `Suppressions.FingerprintIs` | src/apme_engine/fingerprint.py:128-165 | what is hashed, for every mode and every legacy prefix, and which modes are refused |
| `Suppressions.CanonicalTwice` | src/apme_engine/fingerprint.py:17-30 | canonicalizing again changes nothing if and only if the raw id, without white space around it, is not a prefix followed by white space or by another prefix |
| `Suppressions.PrefixesStack` | src/apme_engine/fingerprint.py:17-30 | an id with two prefixes needs two rounds |
| `Suppressions.PrefixesAre` | src/apme_engine/fingerprint.py:17-30 | each of the four prefixes is stripped, and an id that starts with none stays |
| `Suppressions.NulCollides` | src/apme_engine/fingerprint.py:151-160 | different canonical ids share a payload if and only if one is the other, a NUL and the start of the other's text |
| `Suppressions.LookupIsSearch` | src/apme_engine/cli/_suppressions.py:177-224 | the three lookups find an entry exactly when a direct search over the entries by mode does |
| `Suppressions.ApplySuppressions` | src/apme_engine/cli/_suppressions.py:152-231 | the loops select the suppressed and the other violations of the direct search |
| `Suppressions.SelectIsOrdered` | src/apme_engine/cli/_suppressions.py:189-231 | both lists keep the order of the violations |
| `Suppressions.SelectPartitions` | src/apme_engine/cli/_suppressions.py:189-231 | no violation is lost, doubled or made up |
| `Suppressions.EnforcedStaysActive` | src/apme_engine/cli/_suppressions.py:195-197 | a violation of an enforced rule is active and not suppressed |
| `Suppressions.SuppressedExactlyWhen` | src/apme_engine/cli/_suppressions.py:189-229 | a violation of a rule that is not enforced is suppressed if and only if some entry matches it |
| `Suppressions.EntryMatches` | src/apme_engine/cli/_suppressions.py:204-224 | an entry made from a rule and a task matches exactly the violations that agree in canonical id and in what its mode covers |
| `RuleConfigMerge.MergeRuleConfigs` | src/apme_gateway/session_client.py:145-177 | fails exactly when two rows give a bare id different flags and names exactly those ids; otherwise one configuration per bare id, in order of first appearance, with its rows' flags |
| `RuleConfigMerge.FailsOnConflict` | src/apme_gateway/session_client.py:164-168 | the merge fails if and only if some id is in conflict |
| `RuleConfigMerge.FirstIdsInOrder` | src/apme_gateway/session_client.py:145-177 | configurations stand in the order in which their ids first appear among the rows |
| `RuleConfigMerge.BareIdIs` | src/apme_engine/rule_ids.py:11-26 | one `native:` goes, and every other id stays |
| `RuleConfigMerge.MergeIgnoresOrder` | src/apme_gateway/session_client.py:145-177 | any order of the same rows gives the same conflicts or the same configurations, one per id |

## Left out

- Naming.NormalizeIsProjection: lower case is modelled for ASCII letters; other letters stay as they are.
- VersionRanges.SingleAgrees: versions are any totally ordered type with a major number; PEP 440 parsing is not modelled, and that a major above 8 is not below the advisory's end is a precondition.
- OpaBreaker.CircuitBreaker.RunOpa: an evaluation is an outcome (timeout, missing binary, output, crash); subprocesses, environment and JSON are not modelled.
- TaskTree.ReorderKeepsMeaning: documents are trees with string keys; YAML anchors, aliases shared between places and comment tokens are not modelled.
- ApprovalGates.RunSettlesFutures: routes and the approval bridge are modelled by what they do to an operation: resolve a pending future and drop a resolved one; the approval-gate lock is the atomicity of the step that replaces a gate.
- OperationRegistry.Registry.Remove: cancelling the background task of an operation is not modelled; payload fields beside status and pauses are not modelled.
- LayoutGrammar.FormatsFile: the written files have plain keys and values, lists of tasks one level deep and no comments; deeper nesting, comments and scalars are covered by the theorems about all texts only.
- The formatter around the layout passes: loading and dumping YAML, Jinja spacing, tab and quoting fixes, name capitalization and version normalization are library behaviour or text substitutions.
- `\d` and `\w` in the formatter's patterns are modelled for ASCII characters.
- SHA-256 and YAML normalization are function parameters of the suppression model; the suppressions file (reading, validating entries, writing) is not modelled.
- Wildcard, caret, tilde and hyphen npm ranges are string heuristics rather than interval reasoning.
- `shutdown` and the breaker reset are not steps of the runs; the exact cost of each is proved separately.
- The rest of the gateway, engine, proxy and frontend is plumbing around network, archives, database and rendering.
