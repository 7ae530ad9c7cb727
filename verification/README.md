# Verified models of Ray's tooling, dashboard and worker protocols

A Dafny model of the parts of this repository whose correctness rests on an argument rather than on
reading one function: searches over the import graph, a one-bit streaming translator, bookkeeping behind
truncated queries, a binary file format, caches and change logs, two export protocols, serialization with
an object table, and two loops that race against limits. Each part is proved for all inputs, all runs or
all interleavings. `dafny verify dfyconfig.toml` checks the whole project.

| file | what it models |
|---|---|
| `Graphs.dfy`, `DepGraph.dfy` | ci/travis/py_dep_analysis.py: building the import graph, the dependency search, the search for circular imports |
| `Json.dfy`, `Textproto.dfy` | ci/travis/bazel.py: the line-by-line rewriter from textproto to JSON, and reading its output back, on characters |
| `Alerts.dfy` | release/alert.py: the two limited queries and the insert-or-update run over two tables |
| `Decimals.dfy`, `SpillUrl.dfy`, `Spill.dfy` | python/ray/external_storage.py: URLs with offset, the fused file, spilling and restoring |
| `Recency.dfy`, `ResponseCache.dfy` | dashboard/utils.py: the response cache |
| `ObservableDict.dfy` | dashboard/utils.py: `ImmutableDict`, `Dict` and the change queue |
| `MemoryTable.dfy` | dashboard/memory_utils.py: sorting, grouping and summarizing object references |
| `FunctionExport.dfy` | python/ray/worker.py: `run_function_on_all_workers` among many workers |
| `SessionExport.dfy` | python/ray/remote_function.py, actor.py, worker.py: lazy export per session and job |
| `Serialization.dfy`, `OuterRefStack.dfy` | python/ray/serialization.py: the object table and the stack of outer references |
| `Rollout.dfy` | rllib/evaluate.py: the step-by-step rollout and its saver |
| `TestRunner.dfy` | release/e2e.py: the child and parent processes of a release test |
| `Base.dfy` | definitions shared by the models |

Where the code does not do what its documentation promises, the model follows the code and states
exactly when the promise holds:

- `_depends` says it tells whether a dependency path exists, but it never reports a module that imports
  nothing itself (`AnswerIsRightIff`, `LeafQueryIsMissed`).
- The textproto rewriter leaves one bracket open for every block with nothing in it and copies bare words as
  they are, so a chunk loads as JSON exactly when it has no empty block and no bare word that JSON does not
  know, such as the name of an enumeration value (`ChunkLoadsIff`, `EmptyBlockDoesNotLoad`,
  `EnumValueDoesNotLoad`).
- An updating run with a start date can write a second alert row for a key that lies past the limit
  (`RunKeepsOneRowIff`, `StartDateCanDuplicate`); the program's entry point never combines the two.
- A URL with offset does not read back for every base. It does exactly when the base has no `?` or `#`, a scheme
  in lower case if any (`C:/tmp/f` comes back as `c:/tmp/f`), no authority that urllib refuses, no final empty
  parameter list, and no authority that is lost (`///tmp/f` comes back as `/tmp/f`) or made up (`file:/tmp/f` comes
  back as `file:///tmp/f`) (`SpillUrl.RoundTripIff`, `LeadingSlashesAreLost`).
- A second spill with the same directory, first reference and count overwrites the file of the first. Any key of the
  first then restores its object exactly when the new file holds the object's payload at the same offset, or the
  object is empty in all its parts and the new file ends there or in zero bytes shorter than a header
  (`OverwrittenKeyIff`). The second case is a defect of its own: past the end of any file the size check lets an
  empty object through (`EmptyObjectPastEnd`).
- The observable dictionary does not report storing None under a new key or deleting a key that holds None. A run of
  writes can be replayed to the dictionary after every write exactly when it has no such write
  (`AlwaysReplayedIff`); up to that, replaying the log always answers lookups right (`RunTracks`).
- A call that raises or a worker that stops between taking the lock and pushing the key blocks that key for good
  (`AbandonedForever`, `LockedCanBeExportedIff`). An oversized function always does so, because its size is
  checked only after the lock is taken (`OversizedBlocksKey`).
- A definition is recorded as exported before the export is attempted, so a failed export is never
  repeated in that session and job (`UnbackedIff`, `FailedExportIsNotRepeated`).
- If the child dies after reporting a phase and before reporting the end, the parent takes None as its
  result and fails on it (`ParentFailsIff`, `ChildDeathCanFailParent`).

## Model

| member | source | states |
|---|---|---|
| `Graphs.RepetitionIsReachableCycle` | ci/travis/py_dep_analysis.py:294-306 | a walk that meets a node twice exists exactly when a cycle can be reached; the bridge between what the search finds and what a circular import is |
| `DepGraph.Graph.Register` | ci/travis/py_dep_analysis.py:174-175 | a new module gets the next free number, known modules keep theirs, and no edge appears or disappears |
| `DepGraph.Graph.NewDep` | ci/travis/py_dep_analysis.py:75-86 | exactly one edge between the two modules is added and none is lost; fails exactly when the importing module has no id and does not import itself |
| `DepGraph.Graph.ProcessFile` | ci/travis/py_dep_analysis.py:129-151 | a graph that records the imports of some files records one file more |
| `DepGraph.Graph.Build` | ci/travis/py_dep_analysis.py:154-183 | the edges are exactly the imports found in the files, ids number the modules, and the reverse index is the inverse of the id table both ways |
| `DepGraph.Depends` | ci/travis/py_dep_analysis.py:233-253 | a path is returned exactly when the queried module has outgoing edges and some path avoids the visited nodes; it is such a path, its inner nodes are pairwise distinct and never the queried one; the search terminates |
| `DepGraph.ExhaustedHasNoPath` | ci/travis/py_dep_analysis.py:244-253 | once a search came back empty, no path avoiding the earlier marks exists |
| `DepGraph.AnswerIsRightIff` | ci/travis/py_dep_analysis.py:235-240 | the documented answer is given from every start exactly when the queried module imports something or nobody imports it |
| `DepGraph.LeafQueryIsMissed` | ci/travis/py_dep_analysis.py:239-240 | a two-module graph where the documented answer is not given |
| `DepGraph.TestDependsOnFile` | ci/travis/py_dep_analysis.py:256-291 | a branch is returned exactly when the test is no example and some source before any regression-test source leads to the file; it belongs to the first such source |
| `DepGraph.FindCircularDepImpl` | ci/travis/py_dep_analysis.py:294-306 | on success the branch continues as a walk whose last node occurs earlier in it; on failure the branch is restored and no walk from the node meets the branch or itself |
| `DepGraph.CircleIffCycleReachable` | ci/travis/py_dep_analysis.py:294-306 | from an empty branch, success means exactly that a cycle is reachable |
| `DepGraph.FindCircularDep` | ci/travis/py_dep_analysis.py:309-327 | no circle is recorded exactly for an acyclic graph; every recorded one is a circle; no circle closes on an earlier one; every module that reaches a cycle has a walk that closes on a recorded circle |
| `Textproto.TextprotoSplit` | ci/travis/bazel.py:23-69 | the loop yields the chunks of the step-by-step specification, for any input lines |
| `Textproto.RewrittenText` | ci/travis/bazel.py:44-46 | what the three substitutions, matched character by character, make of a well-formed opening, field or closing line; opening keys may contain colons |
| `Textproto.StepOnLine` | ci/travis/bazel.py:50-66 | the tests on the last character of a line tell its kind, so one step appends the separator owed and the rewritten line |
| `Textproto.SplitsIntoBlocks` | ci/travis/bazel.py:23-69 | every list of printed top-level blocks is cut into one chunk per block, each the text of what that block's own lines emit |
| `Textproto.EmitsCompact` | ci/travis/bazel.py:53-66 | up to whitespace, the lines of a node inside a block emit its recursive rendering as nested JSON arrays after the comma owed |
| `Json.LexText` | ci/travis/bazel.py:72-74 | a text made from JSON tokens lexes, character by character, to those tokens without the whitespace |
| `Json.ValueIsSound` | ci/travis/bazel.py:72-74 | only tokens with matching brackets and no word that is neither string nor literal make a value |
| `Textproto.ParsesCompact` | ci/travis/bazel.py:72-74 | the recursive rendering of a tree without empty blocks and unknown words parses back as the tree |
| `Textproto.ChunkLoadsIff` | ci/travis/bazel.py:23-74 | the chunk yielded for a printed block loads, from its characters, as the tree it was printed from exactly when that tree has no empty block and no bare word that JSON does not know |
| `Textproto.ChunkParsesIff` | ci/travis/bazel.py:54-66 | a chunk has one bracket open per empty block and one rejected word per unknown bare word; without empty blocks it is the recursive rendering up to whitespace |
| `Textproto.EnumValueDoesNotLoad` | ci/travis/bazel.py:57-59 | three input lines with an enumeration value whose chunk does not load |
| `Textproto.EmptyBlockDoesNotLoad` | ci/travis/bazel.py:53-66 | two input lines, an empty block, whose chunk does not load |
| `Textproto.WrittenIsEmitted` | ci/travis/bazel.py:50-66 | after any well-formed lines, whole blocks or not, the chunks yielded and the outputs held are the text of what the lines emit |
| `Textproto.BracketLaw` | ci/travis/bazel.py:53-66 | for any neat lines, everything written after them has two brackets open per open block, plus one per closing line at which no separator was owed |
| `Textproto.PrefixBrackets` | ci/travis/bazel.py:53-66 | after every prefix of the lines of trees without empty blocks, the brackets open in everything written number twice the nesting depth |
| `Alerts.Fetch` | release/alert.py:68-75 | one row per key, in ascending key order and within the limit |
| `Alerts.Latest` | release/alert.py:102-121 | the row chosen for a key is one of its rows and none is newer |
| `Alerts.FetchedIffRank` | release/alert.py:68-75 | a key is returned exactly when fewer keys than the limit come before it |
| `Alerts.SubsetIsNotCutOff` | release/alert.py:97-121 | if the alert keys are result keys, a key returned by the result query is not cut off by the alert query |
| `Alerts.AlertState.LastNotifications` | release/alert.py:317-323 | the map of last notifications built from the fetched alerts |
| `Alerts.AlertState.HandleResultsAndGetAlerts` | release/alert.py:312-375 | the new alert table, the alerts raised and the counts per category, as functions of both tables |
| `Alerts.DecisionIsRight` | release/alert.py:332-345 | a full run tries a result exactly when the whole alert table lacks its hash, and updates exactly when the table has a row for it, although it read only part of the table |
| `Alerts.RunWritesExactly` | release/alert.py:152-172 | after a full updating run the table holds the hash of every fetched result and the rows of other keys are unchanged |
| `Alerts.RaisedIff` | release/alert.py:347-368 | alerts are raised for exactly the results that are tried and judged worth one |
| `Alerts.RunKeepsOneRowIff` | release/alert.py:370-373 | an updating run keeps one row per key exactly when no fetched key has as many alert keys before it as the limit |
| `Alerts.StartDateCanDuplicate` | release/alert.py:312-316 | with a start date a second row for a key can be written |
| `Alerts.EventKeepsInv` | release/alert.py:312-375 | arriving results, reading runs, full updating runs and runs that raise an error after any number of rows keep alert keys among result keys and one row per key |
| `Alerts.EveryRunKeepsInv` | release/alert.py:312-375 | from empty tables this holds after every sequence of events, and no later full run is cut off |
| `Alerts.RepeatedRunIsSilent` | release/alert.py:317-375 | repeating a run with unchanged results raises no alert, counts none and changes no row |
| `Alerts.AlertsAndCountsAddUp` | release/alert.py:358-368 | every tried result is either an alert or counted once under its category |
| `Decimals.ReadShow` | python/ray/external_storage.py:66-67 | decimal numerals read back as the number |
| `SpillUrl.RoundTripIff` | python/ray/external_storage.py:19-68 | for every base, with or without a scheme, a created URL parses to its base, offset and size exactly when the base has no query or fragment mark, a scheme in lower case, an authority that is not refused (unmatched kind of bracket, or a character whose compatibility form holds a delimiter), not lost and not made up, and no empty parameters |
| `SpillUrl.UnmarkedParse` | python/ray/external_storage.py:60-68 | for every base without marks, parsing fails exactly when the authority is refused; otherwise offset and size come back, and the base as urllib puts it together again |
| `SpillUrl.LeadingSlashesAreLost` | python/ray/external_storage.py:60-63 | two slashes in front of an absolute path are lost |
| `SpillUrl.PathReadsBack` | python/ray/external_storage.py:257-282 | a path, relative or absolute, without a scheme, two leading slashes, marks and a final semicolon reads back |
| `Spill.BytesRoundTrip` | python/ray/external_storage.py:136-138 | an 8-byte little-endian length below 2^64 reads back |
| `Spill.BytesBack` | python/ray/external_storage.py:299-301 | the other way round: any bytes are those of the number read from them |
| `Spill.RangesTileFile` | python/ray/external_storage.py:143-147 | the ranges of the keys start at 0, follow one another without gap or overlap and end with the file |
| `Spill.WriteMultipleObjects` | python/ray/external_storage.py:104-148 | the file is the payloads of all objects up to the first that is gone or too long; the keys name them in order; the error says which object failed and whether its owner died |
| `Spill.FileSystemStorage.SpillObjects` | python/ray/external_storage.py:271-285 | directories take turns, one file is written under a name made from the first reference and the count, nothing else changes |
| `Spill.ReadFrom` | python/ray/external_storage.py:297-308 | seeking and reading an object through the file position, with the size check before the body |
| `Spill.ReadPayload` | python/ray/external_storage.py:299-310 | reading where a payload lies passes the size check and gives back the object |
| `Spill.ReadsObjectIff` | python/ray/external_storage.py:150-171 | in any data at any offset, reading with an object's size gives back that object exactly when its payload lies there, or the object is empty in all its parts and fewer bytes than a header are left, all zero |
| `Spill.EmptyObjectPastEnd` | python/ray/external_storage.py:299-308 | past the end of any file an empty object passes the size check and is restored |
| `Spill.FileSystemStorage.RestoreSpilledObjects` | python/ray/external_storage.py:287-311 | objects are restored in order up to the first failure, and the total is the sum of their buffer lengths |
| `Spill.KeyRestores` | python/ray/external_storage.py:104-171 | the key of an object in a fused file restores exactly that object |
| `Spill.SelectionRestores` | python/ray/external_storage.py:287-311 | any selection of keys, in any order and with repetitions, restores those objects and counts their bytes |
| `Spill.SameUrlIff` | python/ray/external_storage.py:275-282 | in any directories, two spills write the same file exactly when directory, first reference and count agree |
| `Spill.FileUrlReadsBack` | python/ray/external_storage.py:275-282 | keys read back in every directory, relative or absolute, without marks, a scheme and two leading slashes |
| `Spill.KeyReadsLastWriter` | python/ray/external_storage.py:271-311 | whatever was spilled, a key under a file URL that reads back is answered from the file of the last spill that wrote its URL |
| `Spill.LaterSpillsKeepObjects` | python/ray/external_storage.py:271-311 | however many spills follow, a key under a file URL that reads back restores its object as long as no later spill has the same directory, first reference and count |
| `Spill.OverwrittenKeyIff` | python/ray/external_storage.py:279-311 | after spills under the same name, each key of each of them restores its object exactly when the last one's file holds that payload at that offset, or the object is empty in all its parts and that file ends there or in zero bytes shorter than a header |
| `Spill.ReplacedObjectIff` | python/ray/external_storage.py:279-311 | behind the objects two such spills share, the next key restores its object exactly when the last spill wrote the same one there; spilling A, B and then A, C loses B |
| `Recency.ByLastUseIsSorted` | dashboard/utils.py:342-343 | the keys by last use are in the order of their last occurrence in the history |
| `Recency.TouchNewest` | dashboard/utils.py:360-365 | touching a key and keeping the newest ones can be done on the newest ones alone |
| `ResponseCache.Cache.HandleRequest` | dashboard/utils.py:329-373 | the new cache and the reply to a request |
| `ResponseCache.Cache.UpdateCache` | dashboard/utils.py:349-366 | the new cache when a task ends, an exception having become an error response |
| `ResponseCache.EveryInterleaving` | dashboard/utils.py:317-387 | in every interleaving the cached keys in order are the newest distinct keys touched, and each entry is the response of the latest finished run for its key |
| `ResponseCache.NeverTooMany` | dashboard/utils.py:364-365 | never more entries than the size, never two for a key |
| `ResponseCache.TaskIsStartedIff` | dashboard/utils.py:368-373 | a request starts one task for its own key exactly when it is not answered from the cache alone |
| `ResponseCache.CachedReplyIsFresh` | dashboard/utils.py:341-347 | a reply comes from the cache alone exactly when the latest finished run for the key is cached and within its lifetime; any cached reply is that run's response |
| `ObservableDict.Dict.GetItem` | dashboard/utils.py:589-593 | reading through the proxy gives the view of the current value and keeps the proxy coherent |
| `ObservableDict.Dict.Iterate` | dashboard/utils.py:598-602 | iteration yields exactly the dictionary's keys; comparing lengths suffices to find missing views |
| `ObservableDict.EqualSizeIsComplete` | dashboard/utils.py:599-601 | views exist only for present keys, so equally many means all |
| `ObservableDict.Dict.SetItem` | dashboard/utils.py:620-634 | the new mapping, the dropped view, the record queued, and the log still in step |
| `ObservableDict.Dict.DelItem` | dashboard/utils.py:636-642 | the same for a deletion, a missing key being no error |
| `ObservableDict.Dict.Reset` | dashboard/utils.py:644-649 | the dictionary equals the argument, each key whose lookup differs is reported once and no other |
| `ObservableDict.RunTracks` | dashboard/utils.py:620-649 | for any run of writes over any values, replaying the records answers every lookup like the dictionary, and each record's old side is what the replica holds there |
| `ObservableDict.AlwaysReplayedIff` | dashboard/utils.py:620-642 | for any run of writes, replaying the records gives the dictionary after every write exactly when no write stores None under a key that is new then or deletes a key that holds None then |
| `ObservableDict.ReplayIsDictionary` | dashboard/utils.py:620-642 | when None is never stored, the replay is the dictionary after every write |
| `ObservableDict.ReproducedIff` | dashboard/utils.py:620-642 | a write is reproduced by its records exactly unless it stores None under a new key or deletes a key holding None |
| `MemoryTable.AlphabeticalIsNameOrder` | dashboard/memory_utils.py:259-260 | reference types are sorted by their names |
| `MemoryTable.SortIsSorted` | dashboard/memory_utils.py:254-263 | the sorted table is in order and a permutation |
| `MemoryTable.SortIsStable` | dashboard/memory_utils.py:254-263 | entries with equal keys keep their order |
| `MemoryTable.StableSortIsUnique` | dashboard/memory_utils.py:254-263 | being sorted and keeping equal keys in order leaves one possible result |
| `MemoryTable.SortThenGroup` | dashboard/memory_utils.py:206-212 | picking a group from the sorted table gives the stable sort of the group's original entries |
| `MemoryTable.CollectEntries` | dashboard/memory_utils.py:274-276 | one list per occurring key, holding its entries in table order |
| `MemoryTable.Table.constructor` | dashboard/memory_utils.py:189-204 | which of sorting, grouping and summarizing is done for which arguments |
| `MemoryTable.Table.GroupBy` | dashboard/memory_utils.py:265-284 | one summarized group per occurring key |
| `MemoryTable.Summarize` | dashboard/memory_utils.py:221-252 | each field is the sum over the entries of what they contribute to it |
| `MemoryTable.GroupsConserve` | dashboard/memory_utils.py:265-284 | the groups together are a permutation of the table and every summary field adds up over them |
| `MemoryTable.GroupedTableConserves` | dashboard/memory_utils.py:206-216 | the same for the groups a table object holds |
| `MemoryTable.CountersCount` | dashboard/memory_utils.py:233-242 | the five counters together count every entry that has a reference type |
| `MemoryTable.ValidEntriesAreCounted` | dashboard/memory_utils.py:113-145 | with counts that are not negative, the counters of valid entries add up to their number |
| `MemoryTable.TrackReferenceSize` | dashboard/memory_utils.py:331-344 | the sizes per reference type; fails exactly when an entry has none |
| `MemoryTable.TrackedTotal` | dashboard/memory_utils.py:331-344 | the tracked sizes are the summary's total less one for every entry of unknown size |
| `MemoryTable.ConstructMemoryTable` | dashboard/memory_utils.py:308-328 | the table holds the stable sort of all valid entries of all workers, grouped and summarized |
| `MemoryTable.GroupLaws` | dashboard/memory_utils.py:308-328 | for any worker statistics, groups are stable sorts of their own entries, permute the table and add up to its summary |
| `MemoryTable.SoundEntriesAddUp` | dashboard/memory_utils.py:113-145 | for entries without negative counts and with sizes of at least -1, the counters count every entry and the tracked sizes make up the total less the entries of unknown size |
| `MemoryTable.TableLaws` | dashboard/memory_utils.py:308-344 | all of these laws together, for the table and for each of its groups |
| `FunctionExport.StepKeepsInv` | python/ray/worker.py:382-416 | every step of any worker keeps: one holder per lock, no repeated export, no export without lock and value, and the stored function hashes to its key |
| `FunctionExport.EveryInterleaving` | python/ray/worker.py:366-416 | in every interleaving each key is exported at most once, never before its value, and its function first ran where it was called |
| `FunctionExport.WorkerProcess.RunFunctionOnAllWorkers` | python/ray/worker.py:382-416 | without interruption, a call does what its steps do in a row; it raises exactly when it took the lock for an oversized function; an unconnected worker only remembers the function |
| `FunctionExport.UninterruptedExports` | python/ray/worker.py:396-416 | a call that is not interrupted exports its key and value unless the lock was taken before or the function is oversized, in which cases it changes neither |
| `FunctionExport.OversizedBlocksKey` | python/ray/worker.py:396-415 | an oversized function takes the lock for nothing: its worker lives on, and whatever any worker does later the key is never exported |
| `FunctionExport.AbandonedForever` | python/ray/worker.py:396-421 | once a call on the key has raised or its worker has stopped, no continuation exports the key |
| `FunctionExport.AlwaysAccounted` | python/ray/worker.py:396-416 | in every interleaving a locked key is exported, held by a call in progress, or was abandoned by one that raised or stopped, and only one of these |
| `FunctionExport.LockedCanBeExportedIff` | python/ray/worker.py:396-421 | a locked key that is not exported can still be exported exactly when a call on it is in progress whose function is not refused |
| `SessionExport.Driver.ConnectTo` | python/ray/worker.py:1348-1403 | connecting fails exactly when already connected, and else sets cluster and job |
| `SessionExport.Driver.DisconnectWorker` | python/ray/worker.py:1566-1592 | the session index grows exactly when a connected worker disconnects |
| `SessionExport.Driver.CallRemote` | python/ray/remote_function.py:243-273 | a call exports under the current pair if its recorded pair differs, and submits unless pickling or exporting failed |
| `SessionExport.EveryRunKeepsInv` | python/ray/actor.py:703-716 | in every run a pair recorded in this session means that this cluster got the definition or that its export failed |
| `SessionExport.PairsNeverRecur` | python/ray/worker.py:1573-1587 | after a connected worker disconnects, no recorded pair is ever current again |
| `SessionExport.SubmissionsAreBacked` | python/ray/remote_function.py:246-273 | if no export fails, every submission ever made had its definition in the cluster it went to |
| `SessionExport.UnbackedIff` | python/ray/remote_function.py:248-273 | a call submits an unbacked definition exactly when its export failed in this session and job and no other reached the cluster |
| `SessionExport.FailedExportIsNotRepeated` | python/ray/remote_function.py:272-273 | one failed export and a second call are enough |
| `Serialization.PackUnpack` | python/ray/serialization.py:329-336 | the table only grows, and every table that extends it resolves the message back to the value |
| `Serialization.DumpsLoads` | python/ray/includes/serialization.pxi:150-182 | every value comes back at every nesting depth, also through the fallback for values nested too deeply |
| `Serialization.EmptyTableIff` | python/ray/serialization.py:331-338 | the table stays empty exactly for native values within the nesting limit |
| `Serialization.SerializeToMsgpack` | python/ray/serialization.py:309-347 | message, table and metadata of a value |
| `Serialization.MetadataIff` | python/ray/serialization.py:338-343 | for ordinary values the metadata says PYTHON exactly when the table is not empty |
| `Serialization.RoundTrip` | python/ray/serialization.py:168-204 | every value comes back as it was, except that an actor handle whose state needs the table comes back as that state |
| `Serialization.ConnectedHandleSurvives` | python/ray/actor.py:1004-1007 | every actor handle serialized with a core worker, which connecting always makes, survives with its own metadata and an empty table |
| `OuterRefStack.Context.GetOuterObjectRef` | python/ray/serialization.py:127-129 | the innermost reference, or none |
| `OuterRefStack.Context.DeserializeObjects` | python/ray/serialization.py:269-290 | for arbitrarily nested calls that may raise: the stack is restored on every way out, results align with inputs unless something that is no `Exception` leaves through the call, and every question is answered as if no stack existed |
| `OuterRefStack.OwnReferenceOnly` | python/ray/serialization.py:275-288 | an object's reference is answered exactly as often as the object itself asks |
| `Rollout.Saver.EndRollout` | rllib/evaluate.py:239-252 | the rollout is added to the list or put on the shelf under its number, earlier ones untouched |
| `Rollout.Saver.AppendStep` | rllib/evaluate.py:254-263 | the step is recorded if there is a file, with its info only on request, and always counted |
| `Rollout.RunOne` | rllib/evaluate.py:463-520 | one rollout is the environment's steps cut off by its end or a limit and by nothing earlier |
| `Rollout.RunAll` | rllib/evaluate.py:460-523 | the loops terminate; no limit is overrun and one is reached; every rollout but possibly the last ends in done; steps and episodes add up; the saver holds exactly these rollouts, in which each step starts from the observation the step before it led to |
| `Rollout.SavedLengths` | rllib/evaluate.py:517-520 | the lengths of the saved rollouts add up to the steps |
| `Rollout.OneRunOnly` | rllib/evaluate.py:460-523 | environment and limits leave one possible sequence of rollout lengths |
| `Rollout.ShelfHoldsWhatListHolds` | rllib/evaluate.py:213-252 | a list saver and a shelf saver, each after a whole run on the same environment with the same limits, hold the same: the shelf under each number what the list has there, and as many |
| `TestRunner.StepKeepsChildInv` | release/e2e.py:1488-1749 | prepare, run and end are reported at most once each and in this order, nothing after END |
| `TestRunner.StepKeepsTimeoutInv` | release/e2e.py:490-503 | a timeout is handled or reported only after the stop event, and not reported by a long-running test |
| `TestRunner.StepKeepsParentInv` | release/e2e.py:1895-1945 | the deadline is that of the latest phase read, and the result is what the reads so far make of it |
| `TestRunner.EveryInterleaving` | release/e2e.py:1870-1945 | all of this at every moment of every interleaving, the child dying anywhere |
| `TestRunner.FinalResult` | release/e2e.py:1899-1945 | if END was posted before the last look at the queue, the result is its payload; otherwise None after a drained phase report, or empty |
| `TestRunner.ParentFailsIff` | release/e2e.py:1943-1951 | the parent fails on its own result exactly when it drained phase reports without END |
| `TestRunner.ChildDeathCanFailParent` | release/e2e.py:1899-1949 | a run in which it does |
| `TestRunner.StopOnlyAfterOverrun` | release/e2e.py:1900-1906 | the stop event is set only after the phase that was the latest report when get gave up had overrun its own budget |
| `TestRunner.TimeoutMeansStopped` | release/e2e.py:1674-1742 | a result that reports a timeout implies that the stop event was set |
| `TestRunner.StatusIsTruthful` | release/e2e.py:1654-1742 | a test run that ends with status timeout was stopped and is not long-running, kickoff means it was only kicked off, finished means no exception is reported |
| `TestRunner.DrainQueue` | release/e2e.py:1943-1945 | the last report left in the queue decides |

## Left out

- Process startup, sockets, Redis, GCS, gRPC and HTTP servers, Slack, S3, git, bazel and docker calls: wrappers around foreign processes; only the decisions around them are modelled.
- Parsing Python sources, walking directories and the name tests on them in ci/travis/py_dep_analysis.py: the model starts from the imports found in each file and from the file system's answer to "is there such a file".
- Evaluating and re-encoding a quoted textproto value: a parameter that is taken to give a JSON string for one string literal, whose escapes are one character or two hexadecimal digits behind an x. JSON strings and literals are compared as written, and JSON objects, which the rewriter never makes, are not read.
- Keys of the alert tables that are NULL, which the alert writer stores as empty strings: keys are triples of strings.
- The database's collation and its free choice between rows with equal key and time: keys are ordered by code points and the first such row wins.
- Percent-decoding, `;` as a separator and signs, blanks or underscores in numbers inside a query. URLs are split and joined as urllib of Python 3.6 to 3.9 does; the removal of control characters and the keeping of empty authorities by later releases are not modelled. The characters that NFKC turns into a delimiter are listed one by one, not derived from the Unicode tables.
- Smart-open storage, deletion of spilled files and the storages made for testing: library calls and randomness.
- Writing through `.mutable()` to a dictionary and nested read-only views: outside the promise that only first-level changes are reported.
- The change queue is kept per dictionary: the order of records of different dictionaries in the shared queue is not modelled.
- Equality of Python values across types (1 and True) when a value is compared with the one it replaces: values are compared structurally.
- The lists inside a memory table are values: that sorting also reorders the caller's list is not captured. Text output of the memory summary is cosmetic.
- Contained object references and pickle and msgpack byte formats in serialization: abstract; the msgpack callback is applied to every object that is not native.
- The evaluation-worker branch of `rollout`, multi-agent action and reward bookkeeping, rendering and the progress file: agent and environment are an arbitrary sequence of outcomes.
- The contents of results, logs and artifacts in release/e2e.py, and the multiprocessing queue's feeder thread: a report is visible as soon as it is put.
