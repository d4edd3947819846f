# Verified models of the PoPS scheduling, selection, packaging and evidence logic

This project models seven connected parts of the PoPS repository in Dafny and proves what they are
for. Every result holds for all inputs of the model, not for samples.

1. **Greedy scheduling and the task migration built on it.** `Greedy` defines longest-first packing
   onto the least-loaded bin and proves Graham's bound of 4/3 - 1/(3m) against every other packing;
   `GrahamTight` proves that it is reached for every m. `ShardBinpack` instantiates it for CI shards
   and `MeasuredShards` carries the bound to the seconds of the duration table; `TaskBalance`,
   `Migration` and `MigrationSafety` do so for the MPI benchmark, where the makespan bound is what
   keeps unchecked prefix sums inside `int`. The exchange is modelled over all ranks at once, and
   `MigrationPayloads` reads the arrived tasks off the received bytes; `TaskLaws` spells out the plan.
2. **Impact-based test selection.** `Reachability` holds the two work-list loops; `ImportClosure`
   proves the Python selection exact; `CppSelection` proves the C++ selection sound and
   compositional; `PlanGrowth` says exactly when a longer change list keeps every planned target;
   `ChangedPaths` says, path by path and label by label, what each kind of changed file selects;
   `Catalogs` and `CppShards` carry the plan through to the shard jobs.
3. **The C++ comment and literal masker.** `Masker` proves the jump-ahead scanner equal to a
   one-character-at-a-time automaton (`Automaton`) and its output free of anything left to mask;
   `RawOpener` proves the hand-written opener matcher equal to the regular expression; `MaskedText`
   says token by token what comes out blank and where code resumes.
4. **The native-variant manifest as a state machine.** `VariantManifest`, `NativeTree` and
   `ManifestRuns` prove authentication over whole runs of builds and package replacements.
5. **Fat-wheel assembly against the release preflight.** `WheelNames`, `WheelRecord`, `FatWheel` and
   `ReleasePreflight` prove that producer and verifier agree under the RECORD rules of PEP 427;
   `DataSchemes` shows what both of them let through. Agreement alone would not notice a test that
   both sides get wrong, so `WheelLaws` and `ReleasedRows` give every such test its own meaning.
6. **Robust statistics** (`RobustStats`, with the meaning of each reported number in `StatsLaws`).
7. **The ABBA assembler and its verifier.** `AbbaReport`, `AbbaVerifier` and `AbbaAgreement` prove
   that the verifier can refuse an assembled report only for its machine or its performance;
   `AbbaLaws` says what both accept, field by field and number by number;
   `Drift` proves why the runs are ordered A, B, B, A.

`Sorting` holds the order, permutation and median facts they share; `Strings`, `Numbers` and
`Wrappers` hold small shared definitions. Run
`dafny verify dfyconfig.toml` in this directory to check everything.

Code that updates state in the source is imperative here: `MigrationPlan` and `NativeRoot` are
classes, the loops are loops with invariants, and each method is tied to a specification function
about which the lemmas speak. Durations, loads and samples are reals; integer widths are explicit
where a property is about them.

Two properties one would expect turn out false of the code. The model follows the code:

- The wheel member check compares whole path components with `.data`, so `pops-1.0.data/x` passes
  although the message says that `.data` schemes are unsupported. `WheelNames.PathCheckIsExact`
  says exactly which names pass, `WheelNames.DataSuffixIsNoObstacle` and
  `WheelNames.DataMemberIsSafe` that every real data scheme is among them, and
  `DataSchemes.DataSchemeIsAccepted` that it reaches an accepted wheel. The check also accepts the
  one-character name `.`, which no published wheel can hold, because it cannot be extracted
  (`ReleasePreflight.LoneDotIsNeverPublished`).
- Header selection is sound, but a plan is not monotone in the change list: `PlanGrowth.TargetIsLost`
  is an input on which a target is lost, and `PlanGrowth.PlanGrowsExactly` says for all change lists
  when that happens.

## Model

| member | source | states |
|---|---|---|
| `Greedy.GrahamBound` | scripts/ci_shard_binpack.py:147-163 | For every list of non-negative weights in descending order, every bin count m and every other assignment whose bins stay within t, no greedy bin exceeds (4/3 - 1/(3m)) t |
| `GrahamTight.GrahamBoundIsTight` | scripts/ci_shard_binpack.py:157-163 | For every bin count m there are descending jobs on which greedy needs 4m - 1 where another packing needs 3m, which is the bound with equality |
| `GrahamTight.RunIsGreedy` | scripts/ci_shard_binpack.py:159-163 | The run on those jobs, given in closed form, is the greedy one for every m |
| `Greedy.GrahamPrefix` | scripts/ci_shard_binpack.py:157-163 | The bound at every step of the loop; while all jobs so far are longer than a third of the optimum, greedy is itself optimal |
| `Greedy.LongJobFits` | scripts/ci_shard_binpack.py:157-163 | A job longer than a third of a feasible makespan always fits under that makespan, by a counting argument over bins holding one and two jobs |
| `Greedy.ShortJobFits` | scripts/ci_shard_binpack.py:157-163 | A job of at most a third of a feasible makespan lands within the 4/3 - 1/(3m) bound |
| `Greedy.GreedyBalance` | scripts/ci_shard_binpack.py:157-163 | At every step any two loads differ by at most the longest job placed so far |
| `Greedy.GreedyMakespan` | scripts/ci_shard_binpack.py:157-163 | At every step m times any load is at most the total plus (m - 1) times the longest job |
| `Greedy.GreedyIsDeterministic` | scripts/ci_shard_binpack.py:159-161 | Least load with the lowest index on ties leaves one possible run |
| `Greedy.FirstLeast` | scripts/ci_shard_binpack.py:161 | The scan returns the lowest index among the least loads |
| `ShardBinpack.DefaultDurationIsRepresentative` | scripts/ci_shard_binpack.py:104-121 | The fallback weight lies between any bounds of the known positive durations |
| `ShardBinpack.SecondsIsPositive` | scripts/ci_shard_binpack.py:116-129 | Every file gets a positive weight, whatever the duration table holds |
| `ShardBinpack.PackOrderIsStrictTotal` | scripts/ci_shard_binpack.py:149-155 | Descending duration, then ascending path, is a strict total order |
| `ShardBinpack.AssignShards` | scripts/ci_shard_binpack.py:132-166 | Refuses a non-positive shard count; otherwise the loop yields the greedy shards over the sorted deduplicated files |
| `ShardBinpack.ShardsCover` | scripts/ci_shard_binpack.py:137-166 | The shards cover the input set exactly, each file in one shard and once |
| `ShardBinpack.ShardsDependOnSet` | scripts/ci_shard_binpack.py:149-155 | Reordered or duplicated input gives the same shards |
| `ShardBinpack.PackingIsNearOptimal` | scripts/ci_shard_binpack.py:132-166 | The heaviest shard is at most (4/3 - 1/(3m)) times the heaviest shard of any other exact partition into m shards |
| `ShardBinpack.PackingIsBalanced` | scripts/ci_shard_binpack.py:157-163 | Any two finished shards differ by at most the longest duration |
| `ShardBinpack.PackingMakespan` | scripts/ci_shard_binpack.py:157-163 | m times any shard is at most the total plus (m - 1) times the longest duration |
| `ShardBinpack.VerifyPartition` | scripts/ci_shard_binpack.py:169-205 | Accepts exactly the disjoint exact covers of the input minus the excluded files, and names the duplicated, leaked, dropped or extra files otherwise, in that order |
| `ShardBinpack.ShardFiles` | scripts/ci_shard_binpack.py:208-228 | Refuses a bad index; otherwise returns the requested shard, and the partition check never rejects it |
| `ShardBinpack.IndependentJobsCover` | scripts/ci_shard_binpack.py:208-228 | m jobs given differently ordered or duplicated lists with one common set cover every non-excluded file exactly once between them |
| `MeasuredShards.MeasuredFile` | scripts/ci_shard_binpack.py:124-129 | In a table with distinct names, a file with a positive entry weighs exactly that entry |
| `MeasuredShards.UnmeasuredFile` | scripts/ci_shard_binpack.py:104-129 | A file without a positive entry weighs 30 seconds when the table has no positive entry, and otherwise the middle of the positive entries or the mean of the two middle ones |
| `MeasuredShards.LongestFirst` | scripts/ci_shard_binpack.py:149-155 | Files are dealt longest first and, among equals, smaller path first |
| `MeasuredShards.ShardsAreListedByPath` | scripts/ci_shard_binpack.py:165-166 | Within a shard the files are in strictly increasing path order |
| `MeasuredShards.MeasuredPackingIsNearOptimal` | scripts/ci_shard_binpack.py:116-166 | For a table that times every file, the heaviest shard in the table's own seconds is at most (4/3 - 1/(3m)) times the heaviest shard of any other exact partition into m shards |
| `Sorting.StringLessIsLexicographic` | scripts/ci_shard_binpack.py:149-155 | The path order puts a before b exactly when a is a proper prefix of b or has the smaller character where they first differ |
| `Sorting.MedianIsMiddle` | scripts/ci_shard_binpack.py:104-121 | The median is the middle one of any ascending arrangement of the values, or the mean of the two middle ones |
| `TaskBalance.MakeTasks` | benchmarks/adc757/heterogeneous_numerics.cpp:336-360 | The task list is the plan: weights, round-robin baseline owners, and greedy candidate owners in stable heaviest-first order |
| `TaskBalance.MinElement` | benchmarks/adc757/heterogeneous_numerics.cpp:354-355 | The first position of the least load |
| `TaskBalance.AssignOwners` | benchmarks/adc757/heterogeneous_numerics.cpp:352-358 | The owner loop performs a greedy run over the ordered weights and changes nothing but candidate owners |
| `TaskBalance.OrderIsPermutation` | benchmarks/adc757/heterogeneous_numerics.cpp:346-351 | The stable sort orders every task index once |
| `TaskBalance.RoundRobinIsMod` | benchmarks/adc757/heterogeneous_numerics.cpp:341 | The baseline owner is the task index modulo the rank count |
| `TaskBalance.OwnerLoads` | benchmarks/adc757/heterogeneous_numerics.cpp:362-369 | Each entry is the summed weight of the tasks that rank owns on the route |
| `TaskBalance.CandidateLoadIsGreedy` | benchmarks/adc757/heterogeneous_numerics.cpp:352-369 | A rank's candidate load is the load of its bin in the greedy run |
| `TaskBalance.EightPerRank` | benchmarks/adc757/heterogeneous_numerics.cpp:337-344 | Round-robin gives every rank exactly eight tasks |
| `TaskBalance.CandidateLoadBound` | benchmarks/adc757/heterogeneous_numerics.cpp:336-360 | For every rank count m of two or more no candidate load exceeds 42 + 102/m, hence 93 |
| `TaskBalance.BaselineLoadBounds` | benchmarks/adc757/heterogeneous_numerics.cpp:341-343 | No baseline load exceeds 144 and rank 0 carries at least 128 |
| `TaskBalance.LoadsSumToWeights` | benchmarks/adc757/heterogeneous_numerics.cpp:362-375 | On either route the loads add up to the weight of all tasks |
| `TaskBalance.CandidateReducesImbalance` | benchmarks/adc757/heterogeneous_numerics.cpp:336-375 | For every rank count of two or more the candidate route has a strictly smaller largest load and imbalance ratio than the baseline, with the same total |
| `TaskBalance.SplitCandidateLoad` | benchmarks/adc757/heterogeneous_numerics.cpp:479-491 | The two lanes are the greedy run over the rank's sorted weights, together its whole candidate load, and never negative when no weight is |
| `TaskBalance.LanesAreNearOptimal` | benchmarks/adc757/heterogeneous_numerics.cpp:479-491 | No other split of a rank's tasks over two lanes beats this one by more than 7/6 |
| `TaskBalance.SortDescendingPermutes` | benchmarks/adc757/heterogeneous_numerics.cpp:485 | The descending sort keeps every weight with its multiplicity |
| `TaskBalance.KernelWorkFits` | benchmarks/adc757/heterogeneous_numerics.cpp:493-497 | For every accepted configuration neither the baseline load of a rank nor any part of its candidate load overflows the kernel work |
| `TaskBalance.CandidateLaunches` | benchmarks/adc757/heterogeneous_numerics.cpp:513-519 | The two launches of a rank on the candidate route never overflow and together do exactly its candidate work |
| `TaskLaws.WeightIsSpelled` | benchmarks/adc757/heterogeneous_numerics.cpp:340-344 | A task weighs 16 on rank 0 and 1 elsewhere, plus its number modulo 3 |
| `TaskLaws.PlanIsSpelled` | benchmarks/adc757/heterogeneous_numerics.cpp:336-344 | A plan has eight tasks for each rank; each has its own number, that weight, and its number modulo the rank count as baseline owner |
| `TaskLaws.HeaviestFirst` | benchmarks/adc757/heterogeneous_numerics.cpp:346-351 | The candidate order is by falling weight and, among equals, by rising task number |
| `TaskLaws.RatioIsLargestOverAverage` | benchmarks/adc757/heterogeneous_numerics.cpp:371-375 | The imbalance ratio times the average load is the largest load |
| `TaskLaws.KernelWorkIsExact` | benchmarks/adc757/heterogeneous_numerics.cpp:493-497 | The kernel work is weight times iterations, granted exactly when the weight is not negative and the product is at most 2147483647 |
| `Migration.MigrationPlan.CountSends` | benchmarks/adc757/heterogeneous_numerics.cpp:384-393 | On success the counts are the sizes of the blocks to each rank; overflow is raised exactly when one of them, or one task's payload, leaves the `int` range |
| `Migration.ExchangeCounts` | benchmarks/adc757/heterogeneous_numerics.cpp:394-396 | Receive counts are the transpose of send counts over all ranks |
| `Migration.MigrationPlan.Place` | benchmarks/adc757/heterogeneous_numerics.cpp:397-408 | Displacements are the prefix sums of the counts and the receive buffer has their total size |
| `Migration.PackLoop` | benchmarks/adc757/heterogeneous_numerics.cpp:410-418 | The cursor loop keeps every destination's part inside its own interval, contiguous and in task order |
| `Migration.MigrationPlan.Pack` | benchmarks/adc757/heterogeneous_numerics.cpp:410-418 | The send buffer becomes exactly the concatenation of the blocks by destination: every byte written once, none left over |
| `Migration.OthersApart` | benchmarks/adc757/heterogeneous_numerics.cpp:397-418 | Writing at one destination's cursor touches no other destination's interval |
| `Migration.JoinSlice` | benchmarks/adc757/heterogeneous_numerics.cpp:397-408 | The slice of a joined buffer at a displacement is that block |
| `Migration.Migrate` | benchmarks/adc757/heterogeneous_numerics.cpp:426-434 | After the exchange every rank holds the blocks addressed to it, in order of source |
| `MigrationSafety.RanksHoldTheirTasks` | benchmarks/adc757/heterogeneous_numerics.cpp:410-434 | What a rank receives is exactly the payloads of the tasks it owns on the candidate route and not on the baseline, each once |
| `MigrationSafety.ChecksumIsConserved` | benchmarks/adc757/heterogeneous_numerics.cpp:438-442 | The byte sums of all packed and of all delivered blocks are equal |
| `MigrationSafety.ChecksumError` | benchmarks/adc757/heterogeneous_numerics.cpp:438-442 | The distance between the summed send buffers and the summed receive buffers of the plans themselves |
| `MigrationSafety.MigrateAndCheck` | benchmarks/adc757/heterogeneous_numerics.cpp:379-442 | Any exchange that runs to its end, for any task list, has a checksum error of zero on the plans' own buffers |
| `MigrationSafety.DisplacementsFitInt` | benchmarks/adc757/heterogeneous_numerics.cpp:397-408 | For every rank count of two or more and every accepted payload size, every unchecked send prefix sum is at most 64,000,000 and every receive one at most 744,000,000 |
| `MigrationSafety.SendsAtMostEight` | benchmarks/adc757/heterogeneous_numerics.cpp:387-393 | No rank sends more than its eight tasks |
| `MigrationSafety.ReceivesAtMostLoad` | benchmarks/adc757/heterogeneous_numerics.cpp:387-396 | A rank receives at most as many tasks as its candidate load |
| `MigrationSafety.CountsFitInt` | benchmarks/adc757/heterogeneous_numerics.cpp:384-393 | Both overflow throws are unreachable |
| `MigrationSafety.SomeTaskMoves` | benchmarks/adc757/heterogeneous_numerics.cpp:420-423 | Some task has different baseline and candidate owners |
| `MigrationSafety.SomeBytesMove` | benchmarks/adc757/heterogeneous_numerics.cpp:420-423 | Some rank has bytes to send, so the throw about migrating no data is unreachable |
| `MigrationSafety.MigrateTasks` | benchmarks/adc757/heterogeneous_numerics.cpp:379-434 | The whole exchange over all ranks: exactly when it overflows, exactly when it refuses for lack of data, and every send and receive buffer otherwise |
| `MigrationSafety.RunMigration` | benchmarks/adc757/heterogeneous_numerics.cpp:336-442 | For every rank count of two or more and every accepted payload size the run never throws, every rank ends with the payloads it should hold, and the checksum error is zero |
| `MigrationPayloads.PayloadNamesTask` | benchmarks/adc757/heterogeneous_numerics.cpp:410-418 | Every payload byte is 1 plus the task number modulo 251, so none is zero, and payloads are equal exactly for numbers equal modulo 251 |
| `MigrationPayloads.PackedSpells` | benchmarks/adc757/heterogeneous_numerics.cpp:410-418 | A packed buffer holds the payloads one after another, each byte of the k-th one naming the k-th task |
| `MigrationPayloads.BufferNamesTasks` | benchmarks/adc757/heterogeneous_numerics.cpp:384-442 | With at most 31 ranks, equal buffers come from the same tasks in the same order, so a receive buffer tells which tasks arrived |
| `MigrationPayloads.RunAndRead` | benchmarks/adc757/heterogeneous_numerics.cpp:384-442 | For every accepted configuration the whole run ends with checksum error zero and every rank's receive buffer spelling its incoming tasks byte by byte, eight bytes a value |
| `Masker.CppCodeOnly` | scripts/run_m3_gate.py:87-133 | The jump-ahead scanner returns what the one-character-at-a-time automaton returns, on every input, and ends |
| `Masker.SkipLineComment` | scripts/run_m3_gate.py:99-104 | Jumping to the newline agrees with the automaton's line-comment mode |
| `Masker.SkipBlockComment` | scripts/run_m3_gate.py:105-110 | Jumping past the terminator, or to the end, agrees with the block-comment mode |
| `Masker.SkipRaw` | scripts/run_m3_gate.py:111-118 | Jumping past the delimiter-specific terminator agrees with the raw-string mode |
| `Masker.SkipQuoted` | scripts/run_m3_gate.py:119-131 | Jumping past the closing quote agrees with the quoted mode |
| `Masker.FindClose` | scripts/run_m3_gate.py:121-128 | The inner escape loop stays in the literal up to its closing quote or the end of the text |
| `RawOpener.MatchRawIsExact` | scripts/run_m3_gate.py:53 | The matcher succeeds exactly on a match of the regular expression: an allowed prefix, a delimiter of at most sixteen allowed characters, and its own end and terminator |
| `Masker.Find` | scripts/run_m3_gate.py:100-114 | The first occurrence at or after a position, or none |
| `Masker.Mask` | scripts/run_m3_gate.py:92-95 | Blanks the range in place but for newlines and changes nothing else |
| `Masker.MaskingIsPositional` | scripts/run_m3_gate.py:87-133 | Length and every newline are kept; a changed character becomes a space and was masked by the automaton; every code character is unchanged |
| `Masker.SurvivorsAreCode` | scripts/run_m3_gate.py:87-133 | A character that survives was in code mode and opened nothing |
| `Masker.NothingLeftToMask` | scripts/run_m3_gate.py:97-133 | The output holds no quote character and no comment opener |
| `Masker.OutputNeverOpens` | scripts/run_m3_gate.py:97-133 | No position of the output opens a comment, raw string or literal |
| `Masker.MaskingIsIdempotent` | scripts/run_m3_gate.py:87-133 | Masking twice is masking once |
| `MaskedText.LineCommentIsBlank` | scripts/run_m3_gate.py:99-104 | In code, two slashes blank everything up to the newline, which stays, and code resumes behind it |
| `MaskedText.BlockCommentIsBlank` | scripts/run_m3_gate.py:105-110 | In code, a block comment is blank through the first closing pair behind its opener, and code resumes there |
| `MaskedText.UnclosedCommentIsBlank` | scripts/run_m3_gate.py:105-110 | A block comment that is never closed blanks the rest |
| `MaskedText.LiteralIsBlank` | scripts/run_m3_gate.py:119-131 | A double or single quote in code, a body of escapes and characters other than that quote, and the quote again come out blank, and code resumes right behind |
| `MaskedText.UnclosedLiteralIsBlank` | scripts/run_m3_gate.py:119-131 | A literal that is never closed blanks the rest, a trailing backslash included |
| `MaskedText.RawLiteralIsBlank` | scripts/run_m3_gate.py:53-118 | An optional prefix u8, u, U or L, then R, a double quote, at most sixteen delimiter characters (no white space, parenthesis or backslash) and a parenthesis blank everything through the first matching terminator, and code resumes there |
| `MaskedText.UnclosedRawIsBlank` | scripts/run_m3_gate.py:53-118 | A raw literal without its terminator blanks the rest |
| `MaskedText.SpacesAreListed` | scripts/run_m3_gate.py:53 | The white space that cannot stand in a delimiter is exactly the listed characters |
| `MaskedText.CodeIsKept` | scripts/run_m3_gate.py:99-133 | A character of code that is no quote and opens no comment or raw literal stays, and code goes on behind it |
| `MaskedText.NoQuoteSurvives` | scripts/run_m3_gate.py:119-131 | The output holds neither a double nor a single quote |
| `Reachability.TransitiveClosure` | scripts/ci_include_graph.py:79-94 | On any graph, cyclic or not, and with duplicate stack entries, the loop ends with exactly the nodes reachable from the roots |
| `Reachability.ClosureLaws` | scripts/ci_include_graph.py:79-94 | The closure contains its roots, is its own closure, and is unique |
| `Reachability.ClosureDistributes` | scripts/ci_include_graph.py:79-107 | The closure of a union is the union of closures, and it is monotone |
| `Reachability.MarkOnPush` | scripts/ci_import_closure.py:286-296 | The mark-on-push loop ends with exactly the reachable nodes |
| `Reachability.BuildReverse` | scripts/ci_import_closure.py:282-285 | The loop inverts the adjacency exactly |
| `ImportClosure.TargetWithAncestors` | scripts/ci_import_closure.py:113-131 | A dotted target yields itself and exactly its ancestor packages that are real modules |
| `ImportClosure.AncestorsAreSpelled` | scripts/ci_import_closure.py:113-131 | For parts without dots, the names tried are exactly the target itself and every name that a dot and more turn into it |
| `ImportClosure.DottedJoins` | scripts/ci_import_closure.py:113-131 | A dotted name is its first parts, a dot and its other parts, wherever it is cut |
| `ImportClosure.ReverseModuleClosure` | scripts/ci_import_closure.py:274-296 | Exactly the modules from which a seed on the graph is reachable |
| `ImportClosure.CloseCrossTest` | scripts/ci_import_closure.py:348-368 | Exactly the tests connected to the selection by cross-test edges in either direction |
| `ImportClosure.ImpactedTests` | scripts/ci_import_closure.py:299-345 | Refuses exactly when a changed source is off the graph, naming the first; otherwise selects a test if and only if it is connected to a test importing a module from which a changed module is reachable |
| `ImportClosure.ImpactDistributes` | scripts/ci_import_closure.py:299-345 | A test is impacted by two change lists together exactly when it is by one of them |
| `ImportClosure.PopsSourcesAreSpelled` | scripts/ci_import_closure.py:323-330 | The changed paths that seed the closure are exactly those of the form python/pops/...py |
| `CppSelection.SourceClosure` | scripts/ci_include_graph.py:97-107 | Exactly the headers reachable from the source's own includes |
| `CppSelection.SuiteHit` | scripts/ci_select_tests.py:1239-1247 | Reports a missing source, or whether some source of the suite transitively includes the header |
| `CppSelection.ComputeHeader` | scripts/ci_select_tests.py:1225-1254 | The header branch computes the impact defined by reachability |
| `CppSelection.ClassifyCppImpact` | scripts/ci_select_tests.py:1175-1327 | Selected targets, areas, escalations and the impact table are those of the per-file classification |
| `CppSelection.ClassificationComposes` | scripts/ci_select_tests.py:1211-1327 | Selection, areas and escalation of a concatenation are the unions of those of the parts |
| `CppSelection.ClassificationIgnoresOrder` | scripts/ci_select_tests.py:1211-1327 | They depend on the set of changed paths only |
| `CppSelection.PlanCpp` | scripts/ci_select_tests.py:1330-1388 | Refuses a manifest without suites and unauthenticated catalogues; otherwise the step-by-step plan is the declarative one: forced and broad changes, escalations, smoke targets, the fail-safe and the 75 percent rule |
| `Catalogs.ValidateCatalogs` | scripts/ci_select_tests.py:830-890 | No failure is collected exactly when every catalogue loads, covers exactly the targets and has agreeing metadata |
| `Catalogs.LoadedIsPositive` | scripts/ci_shard_binpack.py:80-101 | A catalogue that loads holds positive durations only, so the planner's own test for others never fires |
| `Catalogs.LoadIsExact` | scripts/ci_shard_binpack.py:80-101 | A catalogue is read exactly when every entry without a leading underscore is finite and positive, and then holds exactly those entries |
| `Catalogs.CoversIsExact` | scripts/ci_select_tests.py:830-890 | A catalogue is authentic exactly when it times the targets and nothing else, counts them, and lists its estimated ones without repetition, in order and all timed |
| `CppSelection.PlanKeepsSelections` | scripts/ci_select_tests.py:1347-1388 | Whatever a changed file selects is among the final targets, and all targets are suites |
| `CppSelection.HeaderSelectionIsSound` | scripts/ci_select_tests.py:1224-1254 | For every change list, manifest and include graph, a suite with a source that transitively includes a changed header is in the final targets |
| `CppSelection.RuntimeSelectionIsSound` | scripts/ci_select_tests.py:719-739 | Every consumer of a library holding a changed runtime source is in the final targets |
| `CppSelection.MetaHasNoTargets` | scripts/ci_select_tests.py:773-778 | A meta path classifies as no impact or escalates; it never selects a subset |
| `CppSelection.EmptyPlanMeansHarmless` | scripts/ci_select_tests.py:1347-1388 | The plan runs nothing exactly when nothing is forced, no path is broad and every path classifies as zero impact |
| `CppSelection.LonelyHeaderRunsAll` | scripts/ci_select_tests.py:1366-1377 | A header no suite includes runs every suite when it is the only change |
| `ChangedPaths.HeaderFile` | scripts/ci_select_tests.py:1225-1254 | A project header runs everything exactly when the graph is unreadable, a global includer reaches it, it is not in the tree or some suite source is missing; otherwise it selects exactly the suites that transitively include it |
| `ChangedPaths.RuntimeFile` | scripts/ci_select_tests.py:1256-1277 | A runtime source selects exactly the known consumers of the libraries that list it or privately include it; one in no library, and any other runtime file, runs everything |
| `ChangedPaths.BindingFile` | scripts/ci_select_tests.py:1279-1293 | A core binding source selects exactly the suites that carry a runtime, physics, amr or codegen label or one of their aliases; other binding sources select nothing and binding build inputs run everything |
| `ChangedPaths.CodegenFile` | scripts/ci_select_tests.py:1307-1316 | A code generator selects exactly the suites that carry a codegen, native_loader, compiler or bindings label |
| `ChangedPaths.LabelSelectionIsSound` | scripts/ci_select_tests.py:742-752 | Every suite that carries such a label is in the plan of every change list with such a file |
| `ChangedPaths.TestFile` | scripts/ci_select_tests.py:1295-1305 | An edited test source selects the suite named by its stem if there is one, and nothing otherwise |
| `ChangedPaths.RemainingFile` | scripts/ci_select_tests.py:1318-1325 | Of all other paths exactly the listed documents and directories are harmless; every other one runs everything |
| `ChangedPaths.HeadersAreSpelled` | scripts/ci_select_tests.py:609-611 | Project headers are the files below include/pops/ with one of seven suffixes, and their graph node is the path below include/ |
| `ChangedPaths.SharedInputRunsAll` | scripts/ci_select_tests.py:46-69 | One changed file among the listed shared build and support inputs makes the plan run every suite |
| `ChangedPaths.SmokeSuitesRun` | scripts/ci_select_tests.py:1366-1370 | Every plan that runs anything runs the three smoke suites the manifest has |
| `ChangedPaths.ThresholdIsThreeQuarters` | scripts/ci_select_tests.py:1379 | A selection is too large exactly above three quarters of the suites |
| `CppSelection.HeaderAddsNothingBeside` | scripts/ci_select_tests.py:1366-1377 | Beside a file that selects something the same header changes nothing in the plan |
| `PlanGrowth.PlanGrowsExactly` | scripts/ci_select_tests.py:1341-1388 | For all change lists, adding files keeps every planned target exactly when the fail-safe of the shorter list is not lost, a condition on the paths alone |
| `PlanGrowth.TargetIsLost` | scripts/ci_select_tests.py:1366-1377 | A concrete repository and change list on which adding a file loses a target |
| `CppShards.CppTargetShards` | scripts/ci_select_tests.py:893-905 | Refuses a bad total, repeated targets and missing weights, each exactly when due; otherwise an exact partition of the targets |
| `CppShards.PlannedTargetsHaveWeights` | scripts/ci_select_tests.py:804-827 | A plan made from authenticated catalogues is never refused for a missing weight |
| `CppShards.AffectedSuiteRunsOnce` | scripts/ci_select_tests.py:893-905 | A suite that transitively includes a changed header runs in exactly one shard, once |
| `CppShards.TargetShardsAreNearOptimal` | scripts/ci_select_tests.py:804-905 | In build seconds plus a quarter of the test seconds, the heaviest shard is at most (4/3 - 1/(3m)) times the heaviest of any other exact partition into m shards |
| `RobustStats.QuantileMonotone` | benchmarks/src/benchmark_support.cpp:70-78 | On sorted samples the quantile is monotone in q and stays between the least and greatest sample |
| `RobustStats.PositionIsProduct` | benchmarks/src/benchmark_support.cpp:73 | The interpolation position is q times the last index |
| `RobustStats.Summarize` | benchmarks/src/benchmark_support.cpp:183-214 | Refuses the empty and the non-finite sample; otherwise the sorting and summing loops compute the defined statistics |
| `RobustStats.SummaryIsOrdered` | benchmarks/src/benchmark_support.cpp:192-197 | minimum <= p10 <= median <= p90 <= maximum |
| `RobustStats.SummaryEnclosesSamples` | benchmarks/src/benchmark_support.cpp:192-212 | Minimum and maximum are samples enclosing every sample and the trimmed mean |
| `RobustStats.SummaryIgnoresOrder` | benchmarks/src/benchmark_support.cpp:183-214 | Permuted samples have the same summary |
| `RobustStats.MadIsNotNegative` | benchmarks/src/benchmark_support.cpp:199-204 | The median absolute deviation is not negative |
| `RobustStats.OrderStatisticWithin` | benchmarks/src/benchmark_support.cpp:208-212 | With at most t samples replaced by arbitrary values, every order statistic away from the t extremes stays within the untouched samples |
| `RobustStats.TrimmedMeanIsRobust` | benchmarks/src/benchmark_support.cpp:208-212 | With at most the trim count of samples replaced by arbitrary values, the trimmed mean stays between the least and greatest untouched sample |
| `StatsLaws.MedianIsMedian` | benchmarks/src/benchmark_support.cpp:183-198 | The reported median is the middle sample, or the mean of the two middle ones |
| `StatsLaws.PercentilesAreTenths` | benchmarks/src/benchmark_support.cpp:70-196 | The reported percentiles lie one tenth and nine tenths of the way through the ascending samples, linearly between the two neighbours where that falls between indices |
| `StatsLaws.InterpolationIsLinear` | benchmarks/src/benchmark_support.cpp:70-78 | Between two neighbouring indices the quantile lies on the line through their samples |
| `StatsLaws.MadIsMedianDistance` | benchmarks/src/benchmark_support.cpp:200-205 | The reported deviation is the median of the distances of the samples from their median |
| `StatsLaws.TrimIsATenth` | benchmarks/src/benchmark_support.cpp:209 | Nothing is trimmed below five samples, one sample at each end below twenty, and a tenth from there on |
| `StatsLaws.TrimmedMeanIsTheRest` | benchmarks/src/benchmark_support.cpp:207-214 | The trimmed mean times the number of samples kept is the sum of all samples without the trimmed ones |
| `AbbaReport.Assemble` | benchmarks/adc757/assemble.py:224-337 | Exactly which refusal is raised, for the minimum, the first bad or moved measurement, incomplete or misordered blocks; otherwise the report with its medians, worst errors and blocks |
| `AbbaReport.GroupBlocks` | benchmarks/adc757/assemble.py:272-278 | The block loop stops at the first block out of order, or yields all blocks |
| `AbbaLaws.AcceptableIsExact` | benchmarks/adc757/assemble.py:119-214 | Which measurements are accepted, field by field: identities, digests of 64 hexadecimal digits, two ranks or more, one device per rank, proven streams, every metric finite and not negative, time and throughput positive, and every error at most 1e-11 |
| `AbbaLaws.AssemblyIsExact` | benchmarks/adc757/assemble.py:224-279 | A report is assembled exactly when the threshold is at least 1, there are runs, all are accepted and bound alike, and each scenario has at least five complete blocks in A, B, B, A order |
| `AbbaLaws.ReportSays` | benchmarks/adc757/assemble.py:288-336 | The report carries the asked revision, the common binding and both scenarios in order |
| `AbbaLaws.SummarySays` | benchmarks/adc757/assemble.py:217-297 | A scenario's summary holds all its blocks and, for each route and metric, the median over that route's runs |
| `AbbaLaws.SummaryErrors` | benchmarks/adc757/assemble.py:281-287 | A scenario's reported errors are the largest over its runs |
| `AbbaLaws.OrderIsSpelled` | benchmarks/adc757/assemble.py:273-277 | No block is refused exactly when the runs 4b to 4b + 3 are baseline, candidate, candidate, baseline for every b |
| `AbbaLaws.BlockIsSpelled` | benchmarks/adc757/assemble.py:272-278 | Block b holds the times of the runs 4b to 4b + 3 |
| `AbbaVerifier.ValidateScenario` | benchmarks/adc757/verify.py:358-423 | Exactly which refusal of a scenario is raised, in order |
| `AbbaVerifier.Validate` | benchmarks/adc757/verify.py:426-502 | Exactly which refusal of a report is raised: provenance, devices, streams, then the first faulty scenario |
| `AbbaVerifier.Collect` | benchmarks/adc757/verify.py:385-397 | The two sample lists and the per-block ratios, or the first faulty block |
| `AbbaVerifier.Compare` | benchmarks/adc757/verify.py:409-423 | The scenario-specific comparison, refusal by refusal |
| `AbbaLaws.ComparisonIsExact` | benchmarks/adc757/verify.py:409-423 | Nothing is refused exactly when throughput grows and, for local time stepping, useful work shrinks without fallback, or, for load balancing, the imbalance shrinks and migration costs bytes and seconds |
| `AbbaLaws.CloseIsNear` | benchmarks/adc757/verify.py:398-403 | A summary matches a median exactly when they differ by at most 1e-12 of either |
| `AbbaLaws.BlockIsRead` | benchmarks/adc757/verify.py:388-397 | Of a block a1, b1, b2, a2 the baseline samples are a1 and a2, the candidate samples b1 and b2, and the squared speedup times b1 b2 is a1 a2 |
| `AbbaLaws.ScenarioPasses` | benchmarks/adc757/verify.py:328-423 | A scenario passes exactly when its metrics, errors, threshold and blocks are well-formed, its summaries match the rebuilt medians, the median speedup reaches the threshold and the comparison holds |
| `AbbaLaws.ReportPasses` | benchmarks/adc757/verify.py:426-502 | A report passes exactly when its origin holds and both scenarios pass |
| `AbbaLaws.ProvenancePasses` | benchmarks/adc757/verify.py:279-325 | The origin holds exactly when revision, digests and build identity agree, there are two ranks or more on an accelerator, one named device per rank, and proven streams |
| `AbbaAgreement.BlocksRebuildRoutes` | benchmarks/adc757/assemble.py:269-280 | Splitting ABBA blocks into routes gives, in order, the times selected by route from the measurements |
| `AbbaAgreement.MediansAreGood` | benchmarks/adc757/assemble.py:217-221 | Medians of valid metrics pass the verifier's metric checks |
| `AbbaAgreement.WorstIsGood` | benchmarks/adc757/assemble.py:281-287 | The worst of the accepted errors passes the verifier's correctness checks |
| `AbbaAgreement.ScenarioIsConsistent` | benchmarks/adc757/verify.py:358-403 | An assembled scenario is never refused for its identity, schema, correctness, blocks or summaries |
| `AbbaAgreement.VerifierAgrees` | benchmarks/adc757/verify.py:358-502 | For every report the assembler emits, the verdict is decided by the accelerator test, the device names and the measured performance alone; every other refusal cannot fire |
| `Drift.DriftCancels` | benchmarks/adc757/verify.py:391-397 | The squared per-block speedup is unchanged by any geometric drift over the four runs |
| `Drift.SpeedupIgnoresDrift` | benchmarks/adc757/verify.py:388-404 | The speedup list is unchanged when every block drifts at its own rate |
| `VariantManifest.LeavesDiffer` | scripts/write_native_variant_manifest.py:76-87 | Valid leaf paths of different dimensions are different |
| `VariantManifest.PathsAreUnique` | scripts/write_native_variant_manifest.py:111-119 | Sorted valid rows have distinct paths, so the duplicate-path refusal is unreachable |
| `VariantManifest.ValidateIsExact` | scripts/write_native_variant_manifest.py:98-127 | Validation succeeds exactly on the supported schema with valid rows in strictly climbing dimensions |
| `VariantManifest.LoadIsExact` | scripts/write_native_variant_manifest.py:130-165 | Loading succeeds exactly when every row is valid and its leaf is present with the recorded digest |
| `WheelLaws.ValidRowIsExact` | scripts/write_native_variant_manifest.py:69-95 | A row is valid exactly when its path is dimN/_pops and an extension suffix for its own dimension 1, 2 or 3, its digest is 64 lowercase hexadecimal digits, and version and ABI key are not empty |
| `WheelLaws.ManifestIsExact` | scripts/write_native_variant_manifest.py:98-165 | A manifest loads exactly with schema 1, at least one row, dimensions strictly rising, and every leaf there with the row's digest |
| `VariantManifest.SortIsCanon` | scripts/write_native_variant_manifest.py:168-173 | Sorting rows of distinct dimensions gives the canonical list of their table |
| `NativeTree.NativeRoot.Update` | scripts/write_native_variant_manifest.py:297-320 | The tree and result after an update, for every tree and request; only the manifest changes |
| `NativeTree.NativeRoot.Snapshot` | scripts/preserve_native_variants.py:37-58 | The destination after a snapshot: the manifest and every leaf it names |
| `NativeTree.NativeRoot.Restore` | scripts/preserve_native_variants.py:61-107 | The tree after a restore, on success and on every refusal |
| `ManifestRuns.UpdateIsExact` | scripts/write_native_variant_manifest.py:229-320 | On a healthy tree an update succeeds exactly when the request is sound; it replaces its own row, keeps every other row and file, and leaves an authenticated tree in canonical order |
| `ManifestRuns.UpdateFailsClosed` | scripts/write_native_variant_manifest.py:297-320 | From any tree at all, an update that fails leaves the tree as it was, one that succeeds leaves it authenticated, and neither touches a leaf |
| `ManifestRuns.BuildsCommute` | scripts/write_native_variant_manifest.py:297-320 | Builds of different dimensions in either order leave the same manifest and files |
| `ManifestRuns.SnapshotIsFaithful` | scripts/preserve_native_variants.py:37-58 | A snapshot is authenticated and publishes the same dimensions with the same bytes |
| `ManifestRuns.RestoreIsExact` | scripts/preserve_native_variants.py:61-107 | For every pair of trees: a restore with a snapshot succeeds exactly when both trees are authenticated and the expected dimension was installed; installed dimensions keep their bytes, all others get the snapshot's, the result is authenticated, and a failure leaves the tree as it was |
| `ManifestRuns.ReplaceIsExact` | scripts/preserve_native_variants.py:37-107 | Snapshot, replacement by any authenticated package and restore, as one step on what is published |
| `ManifestRuns.RunIsExact` | scripts/preserve_native_variants.py:37-107 | Over every run of builds and replacements the tree stays authenticated, succeeds exactly when the abstract run does and publishes exactly its bytes: new ones for replaced dimensions, old ones for all others |
| `ManifestRuns.RowsPinBytes` | scripts/write_native_variant_manifest.py:130-165 | Where no two different leaves in play share a digest, authenticated trees with one manifest publish the same bytes |
| `WheelNames.PathCheckIsExact` | scripts/assemble_native_variant_wheel.py:54-60 | The member check accepts exactly the names with only ordinary components, and the lone dot |
| `WheelNames.DataSuffixIsNoObstacle` | scripts/assemble_native_variant_wheel.py:59-60 | A name with a component that merely ends in `.data` is accepted exactly when it is plain |
| `WheelNames.DataMemberIsSafe` | scripts/assemble_native_variant_wheel.py:59-60 | The data scheme of every named distribution passes the member check |
| `DataSchemes.DataMemberExists` | scripts/assemble_native_variant_wheel.py:59-60 | The member `pops-1.0.data/x` passes |
| `DataSchemes.AddedMembersAreAccepted` | scripts/release_preflight.py:306-389 | Any safely named file can be added to an accepted wheel, which is accepted again with a RECORD written for it |
| `DataSchemes.DataSchemeIsAccepted` | scripts/release_preflight.py:289-295 | So a wheel with a data scheme of any distribution is accepted |
| `WheelNames.RecordIsNotNative` | scripts/assemble_native_variant_wheel.py:67-69 | A RECORD member is never a native leaf |
| `WheelLaws.CommonAbiIsExact` | scripts/assemble_native_variant_wheel.py:132-138 | An ABI key has the prefix p exactly when p is not empty, has no newline, and the key is p followed by ;dim=1, ;dim=2 or ;dim=3 for the row's own dimension |
| `WheelLaws.NativeIsExact` | scripts/assemble_native_variant_wheel.py:67-69 | A plain member is native exactly when it is, or ends behind a slash in, _pops and an extension suffix |
| `WheelLaws.StripIsExact` | scripts/assemble_native_variant_wheel.py:156 | Stripping a directory marker removes all trailing slashes and nothing else |
| `WheelLaws.FilesAreExact` | scripts/assemble_native_variant_wheel.py:151-161 | The files of an archive with distinct names are its members without a trailing slash, with their bytes |
| `WheelRecord.CheckEntries` | scripts/assemble_native_variant_wheel.py:151-160 | True exactly for distinct, safe, symlink-free members |
| `WheelLaws.DecimalReadsBack` | scripts/assemble_native_variant_wheel.py:110-117 | Sizes are written as decimal digits without leading zeros that read back as the size |
| `WheelLaws.CoveringIsExact` | scripts/assemble_native_variant_wheel.py:72-101 | A RECORD covers the files exactly when it decodes to safe, distinct names, one for each file, each with digest and decimal size, and its own row blank |
| `WheelRecord.ReadRecord` | scripts/assemble_native_variant_wheel.py:72-101 | True exactly when the RECORD lists each file once with its digest and size and leaves its own row blank |
| `WheelRecord.RecordBytes` | scripts/assemble_native_variant_wheel.py:110-117 | The RECORD of a payload: sorted rows, then the blank one |
| `WheelRecord.RecordIsDeterministic` | scripts/assemble_native_variant_wheel.py:110-117 | A payload has one RECORD |
| `WheelRecord.WrittenRecordCovers` | scripts/assemble_native_variant_wheel.py:72-117 | What the RECORD writer produces, the RECORD reader accepts |
| `WheelRecord.RecordPinsFiles` | scripts/release_preflight.py:363-388 | Where no member changed to bytes of the same digest, file sets that pass with the same RECORD bytes are equal |
| `FatWheel.OpenWheel` | scripts/assemble_native_variant_wheel.py:141-194 | Returns the input's files, row and RECORD exactly when the wheel meets every input condition |
| `FatWheel.CheckHomogeneous` | scripts/assemble_native_variant_wheel.py:330-363 | True exactly when the inputs share RECORD location, common files and bytes, version, ABI prefix, suffix and the requested backend |
| `ReleasedRows.HomogeneousIsExact` | scripts/assemble_native_variant_wheel.py:326-363 | Opened inputs are taken together exactly when one toolchain prefix and one extension suffix fit all three, version, RECORD name and backend agree, and all files agree outside the manifest, the RECORD and the three leaves |
| `FatWheel.ProofStep` | scripts/assemble_native_variant_wheel.py:222-261 | Re-proving a row of an authenticated tree returns that row exactly when the loaded facts are the row's own, and then changes nothing |
| `FatWheel.ExtractAll` | scripts/assemble_native_variant_wheel.py:274-280 | Extraction succeeds exactly when no member is the directory itself and none is a directory of another |
| `WheelLaws.ExtractableIsExact` | scripts/assemble_native_variant_wheel.py:272-280 | Members can be extracted exactly when none is the lone dot and none is another one followed by a slash and more |
| `FatWheel.ProveFinalWheel` | scripts/assemble_native_variant_wheel.py:281-290 | True exactly when every leaf is signed if required and loads with its row's facts |
| `FatWheel.AssembledIsAuthentic` | scripts/assemble_native_variant_wheel.py:365-374 | The extracted native root of the payload is authenticated by its own manifest |
| `FatWheel.Assemble` | scripts/assemble_native_variant_wheel.py:293-391 | Publishes exactly when the three inputs open, agree, extract and prove their leaves; what it publishes is the common files, three leaves, manifest and RECORD in sorted order |
| `ReleasedRows.PublishedRows` | scripts/assemble_native_variant_wheel.py:357-363 | The rows of a published wheel have one prefix p with ABI keys p;dim=1, p;dim=2 and p;dim=3, one extension suffix, one version and the asked backend |
| `ReleasePreflight.NativeContract` | scripts/release_preflight.py:306-389 | Accepts exactly the conforming wheels and returns their manifest bytes and rows |
| `ReleasedRows.AcceptedRows` | scripts/release_preflight.py:326-388 | The rows of an accepted wheel have one prefix p with ABI keys p;dim=1, p;dim=2 and p;dim=3; each leaf is there with its digest, the release version, no MPI and Kokkos |
| `ReleasedRows.LaneIsExact` | scripts/release_preflight.py:326-388 | Rows of the three dimensions fit the lane exactly under those conditions |
| `ReleasePreflight.CheckLane` | scripts/release_preflight.py:340-361 | True exactly when every leaf has its digest, the version, no MPI, Kokkos and its dimension's ABI key, under one common ABI prefix |
| `ReleasePreflight.PublishedIsAccepted` | scripts/release_preflight.py:306-389 | Every wheel the assembler publishes conforms exactly when it was assembled with the package version, without MPI and with Kokkos |
| `ReleasePreflight.AcceptanceIsExact` | scripts/release_preflight.py:306-389 | No other reading of such a wheel is accepted either |
| `ReleasePreflight.Release` | scripts/release_preflight.py:306-389 | Assembling and then checking: a published wheel is accepted if and only if it is for the release lane |
| `ReleasePreflight.MembersAreConserved` | scripts/assemble_native_variant_wheel.py:341-375 | Every input member but manifests and RECORDs is published with its bytes, and nothing else is added but the new manifest and RECORD |
| `ReleasePreflight.TamperingIsRefused` | scripts/release_preflight.py:363-388 | Where no member changed to bytes of the same digest, accepted wheels with the same RECORD have the same files |
| `ReleasePreflight.LoneDotIsNeverPublished` | scripts/assemble_native_variant_wheel.py:274-280 | No input of a published wheel holds the file named by a lone dot, although the member check lets it through |
| `ReleasePreflight.AcceptedIsAuthentic` | scripts/release_preflight.py:326-361 | An accepted wheel installs an authenticated native tree |

## Left out

- Floating-point rounding: durations, loads, samples and times are reals; a non-finite input is a separate value that every reader here refuses.
- Regex, TOML, JSON, CSV, AST and CMake parsing: graphs, rows and manifests are inputs, and so are the key sets and field types of JSON objects. Manifest and RECORD text are codecs assumed to read back what they wrote; a carriage return inside a member name, which some versions of the CSV writer leave unquoted, is therefore not covered.
- SHA-256: an arbitrary function; where a lemma needs it, into 64 hexadecimal digits, and collision-free on the bytes in play.
- Files, zip archives, subprocesses, git, codesign and MPI transport: trees and wheels are maps and entry lists, collectives are one step over all ranks, symlinks in a native root count as absent leaves, and case-insensitive or length-limited file systems are not modelled.
- Loading an extension: its self-reported facts and its signature are parameters of the operation.
- Square root and the accelerator test of an execution space's name: parameters of the ABBA verdict; the drift result is about the argument of the root.
- The range of 8 times the rank count: rank counts are unbounded naturals.
- `Migration.MigrationPlan.Pack`: the send buffer is filled in an array and then stored as a value; aliasing between ranks' buffers is not modelled.
- Clocks, timing, Kokkos kernels, stream overlap, device identities and the restart and rollback self-check: hardware behaviour or copies of a buffer onto itself.
- Validation of the installed runtime evidence, and the schema, protocol, topology and timestamp fields of the ABBA report: constants and texts, each settled by reading one branch.
- Conformance of the masker to full C++ lexing: a digit separator opens a character literal, as in the code; the claim is refinement of its own automaton. The identical copy in `scripts/run_m4_gate.py` has no second model.
- The Python plan (`compute_python_selection`), MPI and label plans, changed-path normalisation and reason texts of the selectors: they add easy members, and the final Python selection is not claimed to stay inside the known tests.
- Wheel filename, WHEEL tag and interpreter checks of the release lane, and the evidence report of the assembler.
- Error message texts: refusals carry a kind where the source distinguishes them by more than wording.
- Gate validators, catalogue generators, route-mode selection, the DSL examples and documentation scripts of the repository.
