# JMAN: the algorithms of the build tool, modelled and proved

JMAN builds Java workspaces. This project models the algorithms its results depend on and proves
what they promise, for all inputs, all reachable states and all runs:

- **Build graph and scheduler.** Scope-filtered reachability, layering and cycle extraction
  (`ModuleGraph.dfy`), and the layer-by-layer compilation whose outcome does not depend on the order
  in which modules finish (`Scheduler.dfy`).
- **Generators.** The dependency-closed plan (`GeneratorPlan.dfy`), the locked, crash-prone cache
  protocol as a transition system (`GeneratorCache.dfy`), which files its commands run on
  (`GeneratorCacheInputs.dfy`), what a single call may answer and leaves behind
  (`GeneratorCacheCalls.dfy`), and runs that show what it does reach (`GeneratorCacheRuns.dfy`).
- **Globs.** The greedy matcher and the row-by-row matcher, both against one relation (`Glob.dfy`).
- **Fat JARs.** Reading and printing property files (`Text.dfy`, `PropertyText.dfy`), what is read off
  their text: properties on several lines (`PropertyLines.dfy`), the forms of one line
  (`PropertyForms.dfy`), the lines of a service registry (`RegistryLines.dfy`); merging entries
  (`FatArchive.dfy`), and what merging many registries amounts to, although each merge reads its own
  printed text back (`RegistryUnions.dfy`).
- **Front end.** The wire decoders (`WireFormat.dfy`, `WireLayouts.dfy`, `Wire.dfy`), their payloads byte
  by byte (`WireBytes.dfy`, `Utf8.dfy`) and what they refuse (`WireErrors.dfy`), the batcher
  (`Batching.dfy`), the invalidation graph (`DependencyGraph.dfy`) and the symbol index
  (`SymbolIndex.dfy`).
- **Command line.** All shortest dependency paths (`ShortestPaths.dfy`), the calendar conversion
  (`CivilDate.dfy`), script execution (`Scripts.dfy`, and `ScriptPlaces.dfy` on the tree of steps) and cache pruning (`Prune.dfy`).
- **Audit.** The pagination loop (`OsvPagination.dfy`) over chains of pages (`OsvChains.dfy`).

`Wrappers.dfy`, `Bytes.dfy`, `Order.dfy`, `Digraph.dfy` and `Semantic.dfy` hold what these share.
Code that works step by step is a method or a class that changes its fields, proved against a
specification function or relation; the lemmas are about that specification.

Some promises do not hold on every input. Each is stated with the exact condition and, where the code can
meet it, with an input that fails:

- The greedy class-name matcher agrees with the wildcard relation on every pattern if and only if the
  value contains no `*` byte (`Glob.GreedyExactIffStarFree`), because literal equality is tried before
  the star.
- A printed property map reads back if and only if no key and no value in it ends in an odd run of
  backslashes (`PropertyText.PropertiesRoundTrip`, and `PropertyText.ListsRoundTrip` for lists, where
  only the greatest item of a list counts). Reading does produce such maps
  (`PropertyText.UnreadableAfterPrinting`). Hence merging property files is the union of what they say,
  whatever comes last, if and only if the files before the last are free of such keys and values
  (`RegistryUnions.UnionExactlyWhenStable`; `RegistryUnions.JoinExactlyWhenStable` for lists), and
  otherwise the order of the files can matter (`RegistryUnions.OrderMatters`).
- The outputs recorded and handed out under a key come from a command that ended with exactly the files of
  that key if and only if, when the command ended, every file of the key had its keyed content and no other
  matching file was there (`GeneratorCacheInputs.CommandEndsOnKey`, and
  `GeneratorCacheInputs.CachedOutputsWereMade` for a cached return). It is so whenever no file changes from
  before the call's listing until its command ends (`GeneratorCacheInputs.QuietCommandRunsOnKey`); what other
  calls, crashes and alterations of outputs do makes no difference. Checking the key again afterwards does
  not see to it: it compares the files listed before the command, after the command. A matching file that is
  there only while the command runs goes unnoticed, and so does a listed file that is edited and restored
  (`GeneratorCacheRuns.AppearedFileIsMissed`, `GeneratorCacheRuns.RestoredFileIsMissed`). What confirming a
  key does tell is `GeneratorCache.ConfirmedKeyIsCurrent`.
- Related symbols have the same relatives if and only if their family's name is filed under no other
  family, or the two families consist of each other's names (`SymbolIndexing.RelativesAgreeExactly`,
  `SymbolIndexing.NestedFamiliesDisagree`).

The calendar conversion stays inside 64-bit arithmetic if and only if the day number is at most
2^63 - 1 - 719468 (`CivilDate.OverflowCondition`). The program never meets the others: the clock's
seconds cannot reach them (`CivilDate.ClockStaysInRange`).

## Model

| member | source | states |
|---|---|---|
| ModuleGraph.TransitiveDependencies | crates/jman-build/src/lib.rs:2958-2982 | the worklist returns exactly the modules reachable by one or more edges whose scope the usage includes, on cyclic graphs too |
| ModuleGraph.ScopesFollowed | crates/jman-build/src/lib.rs:455-469 | compiling follows compile and provided dependencies, running compile and runtime ones, testing all |
| ModuleGraph.ReadyLayer | crates/jman-build/src/lib.rs:3107-3116 | a layer is exactly the remaining modules all of whose dependencies are complete, in ascending order |
| ModuleGraph.TopologicalLayers | crates/jman-build/src/lib.rs:3102-3134 | succeeds exactly when the module graph is acyclic; the layers partition the modules and a module's layer is the length of its longest dependency chain; a failure carries a real closed chain of dependency edges |
| ModuleGraph.LayerCountMinimal | crates/jman-build/src/lib.rs:3102-3134 | no other layering that puts dependencies in earlier layers has fewer layers |
| ModuleGraph.WalkClimbsDown | crates/jman-build/src/lib.rs:3102-3134 | in any layering that respects dependencies a chain descends one layer per edge at least, so it is no longer than its start's layer allows |
| ModuleGraph.Visit | crates/jman-build/src/lib.rs:3137-3163 | the depth-first search finds a real cycle among the candidates or finishes the node with everything below it in topological order |
| ModuleGraph.ModuleDependencyCycle | crates/jman-build/src/lib.rs:3136-3172 | on candidates that contain a cycle the result is a closed chain of edges between candidates; the fallback listing is returned only for acyclic candidates |
| Scheduler.LookUpUpstream | crates/jman-build/src/lib.rs:700-714 | once all transitive compile dependencies have fingerprints the lookup cannot lose a predecessor: it gives one entry for each module that is reached along compile-scope dependencies, ascending, with the fingerprint recorded for that module |
| Scheduler.NothingLost | crates/jman-build/src/lib.rs:700-714 | a lookup succeeds exactly when every listed module has a fingerprint, the only error is a lost predecessor, and the entries are the listed modules in order, each with its own fingerprint |
| Scheduler.SupplyUnique | crates/jman-build/src/lib.rs:700-714 | what a module has to receive is determined by what it reaches and the fingerprints recorded for that |
| Scheduler.FinishKeepsProgress | crates/jman-build/src/lib.rs:715-734 | any module in flight may finish next: its entry is what compiling the looked-up inputs gives, and a failure is a failure on exactly those inputs |
| Scheduler.CompileLayer | crates/jman-build/src/lib.rs:693-734 | for every completion order and job limit a successful layer has entries for exactly its modules, each compiled with one pair for each module it reaches, ascending, with the fingerprint recorded for it |
| Scheduler.RecordLayer | crates/jman-build/src/lib.rs:735-738 | results and fingerprints are extended by the completed entries, in completion order |
| Scheduler.RecordingExtends | crates/jman-build/src/lib.rs:735-738 | recording a layer in any completion order keeps the build consistent: every recorded module was compiled with the recorded fingerprints of all it reaches |
| Scheduler.CompileWorkspace | crates/jman-build/src/lib.rs:684-745 | the lost-predecessor error is unreachable; success covers every module index, each compiled with the fingerprints of exactly what it reaches; a cycle error carries a real cycle; a compile failure is one on the inputs every schedule gives |
| Scheduler.BuildsAgree | crates/jman-build/src/lib.rs:693-739 | two builds agree on every module they share, whatever schedules made them |
| Scheduler.FailureIsSticky | crates/jman-build/src/lib.rs:693-739 | a module that fails on its determined inputs is in no complete build |
| Scheduler.ScheduleIndependent | crates/jman-build/src/lib.rs:693-745 | if one run succeeds every run succeeds, with the same results and fingerprints |
| GeneratorPlan.RequiredGenerators | crates/jman-build/src/lib.rs:2213-2237 | the worklist gives exactly the least dependency-closed superset of the selection, or names an undeclared generator every closed superset would contain |
| GeneratorPlan.ClosureIsNeeded | crates/jman-build/src/lib.rs:2213-2237 | what runs is what is wanted, a declared and selected generator with an output in one of the source sets, and everything a wanted one depends on along any number of dependencies |
| GeneratorPlan.RunModuleGenerators | crates/jman-build/src/lib.rs:2213-2273 | runs exactly what the wanted generators need, each generator once and after all its dependencies; reports a cycle only when the closure has one and never on success; both loops terminate |
| GeneratorPlan.RunRound | crates/jman-build/src/lib.rs:2259-2272 | running the ready generators keeps the run order duplicate-free and dependency-respecting, and stops at the first that fails |
| GeneratorPlan.StuckIsCyclic | crates/jman-build/src/lib.rs:2253-2258 | when generators are left and none is ready, the closed set contains a cycle |
| GeneratorCache.StepKeepsInv | crates/jman-build/src/lib.rs:2292-2515 | every step of the protocol, every crash, every alteration of the outputs and every change of input files keeps the invariant that each record comes from a completed run |
| GeneratorCache.RunKeepsInv | crates/jman-build/src/lib.rs:2292-2515 | so does every run of any number of lock-contending callers |
| GeneratorCache.CachedReturnIsSound | crates/jman-build/src/lib.rs:2319-2356 | a cached return for key K has read every file of K with its keyed digest in this call; it rests on a record of a completed run that read each of these files with that digest before and again after its command; all recorded output digests were seen during the call, and without tampering during the call the tree on disk has exactly them |
| GeneratorCache.ConfirmedKeyIsCurrent | crates/jman-build/src/lib.rs:2460-2473 | a confirmed key is the key a new call would compute if and only if the listed files are unchanged and no matching file has appeared since the listing |
| GeneratorCacheInputs.CommandEndsOnKey | crates/jman-build/src/lib.rs:2410-2440 | when a command ends, the files there have its key as their key if and only if the listed files have their keyed content and no other matching file is there |
| GeneratorCacheInputs.CommandsRunOnKeys | crates/jman-build/src/lib.rs:2319-2440 | the same of every command that ever ended; and a command ended on its key whenever no file changed between its call's listing and its end, whatever else happened |
| GeneratorCacheInputs.CachedOutputsWereMade | crates/jman-build/src/lib.rs:2319-2356 | a cached return for key K hands out the outputs of one call from its listing to its confirmation, whose command ended with exactly the files of K if and only if those files had their keyed content then and no other matching file was there, and always when no file changed between that listing and that end |
| GeneratorCacheInputs.QuietCommandRunsOnKey | crates/jman-build/src/lib.rs:2319-2440 | along any run from taking the lock in which nobody changes a file, the command ends with exactly the files of its key |
| GeneratorCacheCalls.RebuildNeverAnswersFromCache | crates/jman-build/src/lib.rs:2344 | along every run after a caller has taken the lock with a forced rebuild, its call never returns from the cache |
| GeneratorCacheCalls.FreshReturnRanItsCommand | crates/jman-build/src/lib.rs:2410-2515 | a call that returns fresh outputs has ended a command of its own after it took the lock |
| GeneratorCacheCalls.CallLeaves | crates/jman-build/src/lib.rs:2434-2515 | when nobody else touches the outputs or the record between the end of a command and the end of its call, a fresh return leaves exactly the tree the command wrote and a record of its key with the digests of exactly the declared outputs; a failed directory swap that could be undone leaves outputs and record as they were before; a failed record swap that could be undone leaves the old record |
| GeneratorCacheCalls.RejectedExactly | crates/jman-build/src/lib.rs:2460-2473 | a call fails its confirmation exactly when a listed file was read with another digest after the command; outputs and record stay as they are and nothing temporary is left |
| GeneratorCacheCalls.HolderActsAlone | crates/jman-build/src/lib.rs:2304-2318 | while a call holds the lock every step of the protocol is its own |
| GeneratorCacheRuns.KeyIsCurrentKey | crates/jman-build/src/lib.rs:2319-2341 | listing and hashing the files without interference gives exactly the key of the files there are |
| GeneratorCacheRuns.AppearedFileIsMissed | crates/jman-build/src/lib.rs:2319-2473 | a run in which a second input is there while the command runs, the key of the first alone is confirmed, and after the second has gone the outputs are returned from the cache although no command ran with the first alone |
| GeneratorCacheRuns.RestoredFileIsMissed | crates/jman-build/src/lib.rs:2460-2473 | a run in which the only input is edited while the command runs and restored before the key is checked again: the outputs are returned from the cache although the only command ended with the edited file |
| GeneratorCache.FreshReturnIsRecorded | crates/jman-build/src/lib.rs:2456-2515 | a fresh return leaves the record of this very run, unless deleted, and untampered outputs with the recorded digests |
| GeneratorCache.TornSwapIsHarmless | crates/jman-build/src/lib.rs:2497-2506 | after a crash between the directory swap and the record swap, at the end of any untampered run of further callers, a cached return is true of the tree on disk; while nobody has replaced the torn outputs, the trusted record has the digests the dead caller was about to record, and equals its outputs when the command left exactly the declared ones |
| GeneratorCacheRuns.ComparisonSucceeds | crates/jman-build/src/lib.rs:2917-2952 | comparing outputs that match the record one by one reaches the end of the comparison |
| GeneratorCacheRuns.FreshReturnSettles | crates/jman-build/src/lib.rs:2456-2515 | after an undisturbed fresh return record, current key and outputs agree |
| GeneratorCacheRuns.SettledHits | crates/jman-build/src/lib.rs:2319-2356 | in such a state any caller with that request that does not force a rebuild can return the cached result: the cache is not vacuous |
| Order.LessAtFirstDifference | crates/jman-build/src/lib.rs:4180-4186 | names are ordered by the first character in which they differ, a prefix before what it is a prefix of |
| Glob.WildcardMatches | crates/jman-build/src/lib.rs:1563-1591 | the loop over pattern index, value index, last star and retry position computes the greedy search and terminates by a lexicographic measure on star, retry and value index |
| Glob.GreedyDecides | crates/jman-build/src/lib.rs:1569-1586 | from every loop state on a star-free value, keeping only the last star loses no match |
| Glob.GreedyIsExact | crates/jman-build/src/lib.rs:1563-1591 | on every value without a star byte the loop answers exactly the declarative relation of class patterns, in which `?` is one character, `*` any run, and a slash or backslash stands for a dot |
| Glob.ClassMatchesIs | crates/jman-build/src/lib.rs:1563-1564 | normalising a class pattern makes slashes and backslashes in it stand for dots, and nothing else |
| Glob.LiteralStarDefeats | crates/jman-build/src/lib.rs:1570-1575 | for every value with a star byte there is a matching pattern the loop rejects |
| Glob.GreedyExactIffStarFree | crates/jman-build/src/lib.rs:1563-1591 | the loop is exact on all patterns if and only if the value has no star byte |
| Glob.TrailingStar | crates/jman-build/src/lib.rs:2857-2862 | the recurrence behind the star row: a final star matches if the rest matches some prefix |
| Glob.TrailingToken | crates/jman-build/src/lib.rs:2863-2872 | the recurrence behind the other rows: a final token takes exactly the last byte |
| Glob.AdvanceRow | crates/jman-build/src/lib.rs:2855-2875 | one token turns the row of matched prefixes for the tokens so far into the row for one token more |
| Glob.ComponentMatches | crates/jman-build/src/lib.rs:2850-2878 | the row-by-row matcher equals the relation the greedy loop is held to, on all bytes |
| Glob.MatchComponents | crates/jman-build/src/lib.rs:2880-2893 | the recursion over components equals the relation in which `**` spans zero or more components |
| Glob.SplitExact | crates/jman-build/src/lib.rs:2895-2898 | splitting at slashes loses nothing: joining gives the path back and no component has a slash |
| Glob.PathGlobMatches | crates/jman-build/src/lib.rs:2849-2899 | path globs equal the declarative path relation on the split pattern and path |
| Glob.EnginesAgree | crates/jman-build/src/lib.rs:1563-1591 | once the pattern's separators are normalised the two engines give the same answer, for every pattern and every star-free value of one component |
| PropertyText.PropertyEntries | crates/jman-build/src/lib.rs:4265-4299 | the loop over physical lines computes the logical-line reading, with its three errors; what that reading is, is stated on texts by the rows on PropertyLines and PropertyForms |
| PropertyLines.ContinuationJoins | crates/jman-build/src/lib.rs:4273-4291 | whatever stands before and after, a line that ends in a continuing backslash and the line after it are read as the one line they spell: same properties or same error |
| PropertyLines.ContinuationsJoin | crates/jman-build/src/lib.rs:4273-4291 | the same for any number of continued lines |
| PropertyLines.ContinuedProperty | crates/jman-build/src/lib.rs:4273-4291 | a property whose value is written over several lines is read with the parts put together |
| PropertyForms.EntryExact | crates/jman-build/src/lib.rs:4301-4341 | a logical line gives a property exactly when it is key, blanks, perhaps one `=` or `:`, blanks, value; nothing exactly when it is blank or a comment; an empty key exactly when it begins with `=` or `:`; unsupported syntax exactly when no separator in it is unescaped |
| PropertyText.FirstUnescaped | crates/jman-build/src/lib.rs:4310-4321 | the escape-tracking search finds the first `=`, `:` or blank that no odd run of backslashes precedes |
| PropertyText.ReaderShapes | crates/jman-build/src/lib.rs:4265-4341 | everything read has a trimmed key without unescaped separator or comment mark and a trimmed value, on one line |
| PropertyText.EveryShapeArises | crates/jman-build/src/lib.rs:4265-4341 | every property of that shape is read from some file, dangling backslashes included |
| PropertyText.RowReadsBack | crates/jman-build/src/lib.rs:4181-4186 | a printed row is read as the property it was printed from, except that a dangling key grows |
| PropertyText.Print | crates/jman-build/src/lib.rs:4180-4186 | the printing loop writes the header and one row per key in ascending order |
| PropertyText.PrintedMapLines | crates/jman-build/src/lib.rs:4180-4186 | the lines of a printed map are the header and one `key=value` row for each key, ascending |
| PropertyText.ParseProperties | crates/jman-build/src/lib.rs:4243-4262 | the loop adds the entries to the map and stops at the first conflict or reading error |
| PropertyText.AddingIsUnion | crates/jman-build/src/lib.rs:4249-4261 | adding entries succeeds exactly when they agree with the map and each other, and then the map holds the union |
| PropertyText.PropertiesRoundTrip | crates/jman-build/src/lib.rs:4169-4195 | parsing a printed map gives the map back if and only if no key or value ends in an odd run of backslashes |
| PropertyText.UnreadableAfterPrinting | crates/jman-build/src/lib.rs:4279-4287 | a concrete file whose map does not survive printing and reading |
| PropertyText.ParsePropertyLists | crates/jman-build/src/lib.rs:4225-4241 | the loop extends the item set of each key by the trimmed, non-empty comma-separated items |
| PropertyText.AddingLists | crates/jman-build/src/lib.rs:4225-4241 | each key ends up with the items it had and those of every entry with that key |
| PropertyText.ListsRoundTrip | crates/jman-build/src/lib.rs:4197-4223 | parsing printed lists gives the lists back if and only if no key and no greatest item ends in an odd run of backslashes |
| FatArchives.LineRegistryRoundTrip | crates/jman-build/src/lib.rs:4143-4167 | a printed line registry declares exactly the lines it was printed from |
| RegistryLines.DeclaredLines | crates/jman-build/src/lib.rs:4149-4155 | a registry declares exactly the non-empty texts, no comments, that stand between blanks on a line of it |
| RegistryLines.ServiceEntriesUnite | crates/jman-build/src/lib.rs:4124-4167 | for a name below META-INF/services/, and for imports and includes below META-INF/spring/, merging never fails and the entry declares what it had declared and what the new text does |
| RegistryLines.RegisteredInOrder | crates/jman-build/src/lib.rs:4155-4159 | a printed line registry has exactly its lines, ascending, one to a line |
| FatArchives.StrategyNames | crates/jman-build/src/lib.rs:4097-4122 | which names are merged by lines, as lists and as properties, each exactly |
| FatArchives.ClassNames | crates/jman-build/src/lib.rs:4353-4356 | class files are exactly the names with a stem and the extension `class` in any case, in any directory |
| FatArchives.LineMergesAreUnion | crates/jman-build/src/lib.rs:4143-4167 | merging line registries one at a time never fails and gives the union of their lines |
| RegistryUnions.PropertyMergesAreUnion | crates/jman-build/src/lib.rs:4169-4195 | merging property files one at a time gives the union of what they say and fails exactly when a file is unreadable or two statements on one key differ, when no file but the last has keys or values that end in an odd run of backslashes |
| RegistryUnions.UnionExactlyWhenStable | crates/jman-build/src/lib.rs:4169-4195 | for readable files that agree, every merge of some first files with any one more is the union if and only if none of the first has such a key or value |
| RegistryUnions.ListMergesAreUnion | crates/jman-build/src/lib.rs:4197-4223 | merging list files one at a time gives the union per key and fails only when a file is unreadable, when the joined lists of every proper beginning have no dangling key and no dangling greatest item |
| RegistryUnions.JoinExactlyWhenStable | crates/jman-build/src/lib.rs:4197-4223 | for readable files, every merge of some first files with any one more is that union if and only if the joined lists of every beginning are of that kind |
| FatArchives.FirstContentsAreKept | crates/jman-build/src/lib.rs:4343-4376 | over any number of sources the first contents stay; for a class file it fails exactly when some source differs from the first |
| RegistryUnions.OrderAndRepetitionDoNotMatter | crates/jman-build/src/lib.rs:4124-4223 | two sequences with the same files give the same verdict and the same text: for line registries always, for properties when in both sequences all files but the last are free of dangling keys and values, for lists when in both the joined lists of every proper beginning read back |
| RegistryUnions.OrderMatters | crates/jman-build/src/lib.rs:4169-4195 | without the condition order matters: a file whose value ends in a backslash merges when it comes second and makes the merge fail when it comes first |
| FatArchives.MergeProperties | crates/jman-build/src/lib.rs:4175-4186 | the stored text is parsed, then the new one into the same map, then the map is printed |
| FatArchives.MergePropertyLists | crates/jman-build/src/lib.rs:4203-4214 | the same for lists |
| FatArchives.FatArchive.MergeFatEntry | crates/jman-build/src/lib.rs:4124-4141 | the strategy chosen by the name decides the new entry; other entries stay, a failure changes nothing, and only an ignored resource adds a warning |
| FatArchives.FatArchive.MergeLineEntry | crates/jman-build/src/lib.rs:4143-4167 | the entry becomes the sorted union of the declared lines |
| FatArchives.FatArchive.MergePropertiesEntry | crates/jman-build/src/lib.rs:4169-4195 | the entry becomes the merged property text or the archive stays as it was |
| FatArchives.FatArchive.MergePropertyListEntry | crates/jman-build/src/lib.rs:4197-4223 | the entry becomes the merged list text or the archive stays as it was |
| FatArchives.FatArchive.InsertFatEntry | crates/jman-build/src/lib.rs:4343-4376 | the first contents are kept; a class with other contents is a conflict and any other resource a warning |
| FatArchives.FatArchive.MergeDependencyJar | crates/jman-build/src/lib.rs:4011-4013 | a whole jar merges exactly when each name merges on its own, and then every name holds what its own inputs merge to, whatever lies between them |
| DocumentDependencies.FactsOf | crates/javac-frontend/src/semantic.rs:131-153 | the loop collects exactly the identities of declarations and of references |
| DocumentDependencies.IdentitiesAre | crates/javac-frontend/src/semantic.rs:131-153 | an identity is collected for a role exactly when a symbol plays that role under it: its identifier, or its qualified name when it has none, never empty |
| DocumentDependencies.ChangedAre | crates/javac-frontend/src/semantic.rs:53-66 | a declaration counts as changed exactly when it is declared before or after the update and not both |
| DocumentDependencies.DependencyGraph.UpdateDocument | crates/javac-frontend/src/semantic.rs:48-76 | replaces the document's facts, keeps the reverse index the exact inverse without empty entries; its facts are those its symbols state, every document that references a declaration only the former or only the new facts have is affected; returns the least affected set of the changed declarations |
| DocumentDependencies.DependencyGraph.RemoveDocument | crates/javac-frontend/src/semantic.rs:78-88 | the same for a removal, where all declarations of the document change |
| DocumentDependencies.DependencyGraph.RemoveEdges | crates/javac-frontend/src/semantic.rs:116-128 | the reverse index becomes the exact inverse of the other documents |
| DocumentDependencies.DependencyGraph.AffectedDocuments | crates/javac-frontend/src/semantic.rs:90-114 | the worklist returns exactly the least set with the changed document that is closed under referencing a changed declaration or one of another affected document |
| DocumentDependencies.AffectedIsInfluenced | crates/javac-frontend/src/semantic.rs:90-114 | the affected set is exactly what the change reaches along chains of references that do not pass through the changed document |
| DocumentDependencies.InverseUnique | crates/javac-frontend/src/semantic.rs:66-74 | the reverse index is determined by the documents, so no history of updates matters |
| SymbolIndexing.SymbolIndex.UpdateDocument | crates/javac-frontend/src/symbol_index.rs:46-92 | replaces the document's locations and relations; both indexes list, per identifier and document, exactly what the document says, in order, without empty entries |
| SymbolIndexing.LocationsAre | crates/javac-frontend/src/symbol_index.rs:55-73 | a document lists a location exactly for each symbol of its result that is no override relation and has a qualified name, which stands in for a missing identifier |
| SymbolIndexing.DeclarationsReported | crates/javac-frontend/src/symbol_index.rs:46-91 | an identifier has a definition exactly when the last result of a document declares it, and several exactly when two symbols of the last results do |
| SymbolIndexing.FamiliesAreReported | crates/javac-frontend/src/symbol_index.rs:49-54 | an identifier has a family exactly when the last result of a document relates it to one, and then it is such a one |
| SymbolIndexing.SymbolIndex.RemoveDocument | crates/javac-frontend/src/symbol_index.rs:94-114 | the same with the document gone |
| SymbolIndexing.SymbolIndex.RebuildOverrideFamilies | crates/javac-frontend/src/symbol_index.rs:208-216 | whatever order the documents are visited in, every related identifier has a family and every family comes from a relation |
| SymbolIndexing.AdditionKeepsIndex | crates/javac-frontend/src/symbol_index.rs:74-84 | the pushes of an update turn an index of the documents into one of the documents with the new one |
| SymbolIndexing.RemovalKeepsIndex | crates/javac-frontend/src/symbol_index.rs:100-112 | the retains of a removal turn it into one of the documents without that one |
| SymbolIndexing.IndexCounts | crates/javac-frontend/src/symbol_index.rs:74-112 | as a multiset an entry holds each location of the documents with that identifier and role as often as its document does, and nothing else |
| SymbolIndexing.EntryIffMentioned | crates/javac-frontend/src/symbol_index.rs:74-112 | an identifier has an entry exactly when some document mentions it in that role |
| SymbolIndexing.FamiliesAreRelations | crates/javac-frontend/src/symbol_index.rs:208-216 | the families are exactly the union of all relations if and only if no two relations conflict |
| SymbolIndexing.SymbolIndex.RelatedSymbolIds | crates/javac-frontend/src/symbol_index.rs:139-156 | the members of the symbol's family and the family's own name, strictly ascending |
| SymbolIndexing.RelativesAgreeExactly | crates/javac-frontend/src/symbol_index.rs:139-156 | all related identifiers have the same relatives if and only if the family's name is filed under no other family or the two families consist of each other's names |
| SymbolIndexing.NestedFamiliesDisagree | crates/javac-frontend/src/symbol_index.rs:139-156 | a table of two relations in which one identifier is related to another but not the other way about |
| SymbolIndexing.SortedOrders | crates/javac-frontend/src/symbol_index.rs:248-253 | sorting by document, start and end keeps the multiset of locations |
| SymbolIndexing.DedupedIsStrict | crates/javac-frontend/src/symbol_index.rs:254-256 | after deduplication the ranges strictly ascend and none is lost |
| SymbolIndexing.RangesAreMentions | crates/javac-frontend/src/symbol_index.rs:226-232 | definitions and references together cover exactly the ranges at which a document mentions the symbol |
| SymbolIndexing.SymbolIndex.PrepareRename | crates/javac-frontend/src/symbol_index.rs:234-266 | each error exactly in its case, by the declarations in the last results of the documents; otherwise edits strictly ascending, all with the new name, covering exactly the ranges at which a symbol of the last results mentions the identifier |
| Batching.NextBatch | crates/javac-frontend/src/native.rs:342-351 | a batch is non-empty, within both limits unless it is a single file, and cannot take one file more |
| Batching.BatchBytesCaps | crates/javac-frontend/src/native.rs:346-349 | the saturating sum is the true sum capped at the largest machine word |
| Batching.GreedyStaysAhead | crates/javac-frontend/src/native.rs:341-355 | no contiguous partition within the limits has fewer batches than the greedy one |
| Batching.ParseWorkspaceBatched | crates/javac-frontend/src/native.rs:326-357 | zero limits are refused; the batches partition the sources in order within the limits, are as few as possible, and their results are concatenated in order |
| Batching.BatchingTransparent | crates/javac-frontend/src/native.rs:352-353 | for a parser that works file by file batching does not show in the result |
| WireFormat.BigEndianInverse | crates/javac-frontend/src/native.rs:822-836 | every byte string is the big-endian form of the number read from it |
| WireFormat.FromBigEndianInverse | crates/javac-frontend/src/native.rs:822-836 | every number in range is read back from its big-endian form |
| WireBytes.BigEndianDigit | crates/javac-frontend/src/native.rs:822-836 | the byte at each place is that digit of the number to base 256, the most significant first |
| WireBytes.FourBytesRead | crates/javac-frontend/src/native.rs:822-828 | four bytes a, b, c, d are read as a * 2^24 + b * 2^16 + c * 2^8 + d |
| WireBytes.EightBytesRead | crates/javac-frontend/src/native.rs:830-836 | eight bytes are read as the first four times 2^32 plus the last four |
| Utf8.ValidExactly | crates/javac-frontend/src/native.rs:846-850 | the bytes of a wire string are valid exactly when they are the UTF-8 encoding of some sequence of scalar values |
| WireFormat.CountLawful | crates/javac-frontend/src/native.rs:838-844 | counts are accepted exactly when canonical and at most 1,000,000 |
| WireFormat.TextLawful | crates/javac-frontend/src/native.rs:846-850 | strings are accepted exactly when length-prefixed, at most 1,000,000 bytes and UTF-8 |
| WireFormat.ListLawful | crates/javac-frontend/src/native.rs:589-600 | a counted list of canonical items is canonical |
| WireFormat.PairLawful | crates/javac-frontend/src/native.rs:591-599 | reading one canonical value after another is canonical |
| WireFormat.RecordLawful | crates/javac-frontend/src/native.rs:591-599 | a record built from its fields and taken apart into them is canonical when they are |
| WireFormat.DecodeExact | crates/javac-frontend/src/native.rs:580-622 | a payload decodes to a value if and only if the value is valid and the payload is its encoding |
| WireFormat.ExtensionRejected | crates/javac-frontend/src/native.rs:614-616 | no accepted payload can be extended |
| WireFormat.TruncationRejected | crates/javac-frontend/src/native.rs:813-820 | no accepted payload can be cut short |
| WireLayouts.SymbolLayoutLawful | crates/javac-frontend/src/native.rs:591-599 | a symbol is read exactly from its canonical encoding |
| WireLayouts.DiagnosticLayoutLawful | crates/javac-frontend/src/native.rs:604-612 | so is a diagnostic |
| WireLayouts.ResultsLawful | crates/javac-frontend/src/native.rs:580-798 | the semantic, format and workspace layouts are all canonical |
| WireBytes.SymbolWrites | crates/javac-frontend/src/native.rs:591-599 | the bytes of a symbol are its seven fields in the order of the source |
| WireBytes.DiagnosticWrites | crates/javac-frontend/src/native.rs:604-612 | those of a diagnostic are its seven fields in the order of the source |
| WireErrors.RefusedExactly | crates/javac-frontend/src/native.rs:580-622 | a version mismatch is reported exactly for other first four bytes, trailing data exactly for an accepted payload with more bytes after it, and every proper prefix of an accepted payload is reported as truncated |
| WireErrors.TextRead | crates/javac-frontend/src/native.rs:838-850 | a text is refused as too large, truncated or not UTF-8 exactly in these cases of its length and bytes, and taken off the front otherwise |
| Wire.WireReader.Take | crates/javac-frontend/src/native.rs:813-820 | takes exactly the first bytes and leaves the rest, or fails and leaves all |
| Wire.WireReader.ReadString | crates/javac-frontend/src/native.rs:846-850 | advances over one length-prefixed string as the grammar says, with the same errors |
| Wire.WireReader.ReadSymbols | crates/javac-frontend/src/native.rs:589-600 | the counted loop advances over exactly the list the grammar describes |
| Wire.DecodeSemanticResult | crates/javac-frontend/src/native.rs:580-622 | accepts a payload if and only if it is, byte for byte, the version mark, the package name behind its length, the counted symbols and the counted diagnostics, field by field in the order of the source, of the result it returns |
| Wire.DecodeFormatResult | crates/javac-frontend/src/native.rs:713-741 | the same for formatter results: version mark, source, counted diagnostics |
| Wire.DecodeWorkspaceResult | crates/javac-frontend/src/native.rs:743-798 | the same for workspace results: version mark and counted files, each with name, package, imports, symbols and diagnostics |
| ShortestPaths.ShortestDependencyPaths | crates/jman-cli/src/main.rs:6069-6107 | for every coordinate exactly the set of all minimum-length walks through the lockfile from a coordinate locked without a selected parent, and an entry exactly for the reachable ones, on cyclic graphs too |
| ShortestPaths.RootWalksAreLocked | crates/jman-cli/src/main.rs:6069-6104 | the walks are read off the lockfile: they start at a coordinate locked without a selected parent, and each step is a dependency in the last entry of a coordinate |
| ShortestPaths.HeadIsShortest | crates/jman-cli/src/main.rs:6081-6093 | a dequeued path that is not skipped is a shortest walk to its end |
| ShortestPaths.ExpandingLosesNothing | crates/jman-cli/src/main.rs:6094-6104 | every shortest walk stays recorded or has a prefix in the queue, although repeated coordinates are not expanded |
| ShortestPaths.PrefixShortest | crates/jman-cli/src/main.rs:6081-6104 | prefixes of shortest walks are shortest |
| ShortestPaths.ShortestSimple | crates/jman-cli/src/main.rs:6098-6100 | shortest walks repeat no coordinate, so skipping repeats loses none |
| ShortestPaths.StepLightens | crates/jman-cli/src/main.rs:6081-6105 | each step lightens the queue, weighing each simple path by the expansions its remaining length allows: the search terminates |
| CivilDate.DaysRoundTrip | crates/jman-cli/src/main.rs:6286-6303 | every day number becomes a calendar date whose own day count is that number, with truncating division on negative numbers |
| CivilDate.DateRoundTrip | crates/jman-cli/src/main.rs:6286-6303 | every calendar date is the conversion of its day count |
| CivilDate.DayNumberInjective | crates/jman-cli/src/main.rs:6286-6303 | different calendar dates have different day numbers |
| CivilDate.Successor | crates/jman-cli/src/main.rs:6286-6303 | the date of day n + 1 is the calendar day after that of day n |
| CivilDate.Epoch | crates/jman-cli/src/main.rs:6286-6303 | day 0 is 1970-01-01 |
| CivilDate.StepsEndInDate | crates/jman-cli/src/main.rs:6286-6303 | the listed intermediate results are those of the conversion: its year, month, day and year of the era are among them |
| CivilDate.OverflowCondition | crates/jman-cli/src/main.rs:6287-6301 | all intermediate results of the conversion stay in 64 bits if and only if adding 719468 to the day number does |
| CivilDate.ClockStaysInRange | crates/jman-cli/src/main.rs:6276-6282 | for every number of seconds the clock can show the day number is in that range |
| Scripts.ScriptExecutor.Execute | crates/jman-cli/src/main.rs:1052-1088 | what is launched, and the error, are those of the script's plan cut off at the first process that fails; terminates on every script table; the stack is restored on success |
| Scripts.ScriptExecutor.ExecuteSteps | crates/jman-cli/src/main.rs:1076-1078 | the steps are launched left to right and the first failing one ends them |
| Scripts.StartedIsPrefix | crates/jman-cli/src/main.rs:1138-1192 | the launches are a prefix of the plan: all of it in a dry run or when every process succeeds, otherwise up to and with the first failure |
| Scripts.LaunchesAreLeaves | crates/jman-cli/src/main.rs:1069-1120 | every launch is the leaf at the end of a path of step edges, in the context layered along that path; only the script asked for gets the arguments |
| ScriptPlaces.PlanIsLeaves | crates/jman-cli/src/main.rs:1052-1088 | on the tree of step positions the launches of a plan are exactly the leaves before the first place where something is wrong, each once, from left to right, with invocation and context of the path there; the error is what is wrong at that place, and without an error nothing is wrong anywhere |
| ScriptPlaces.EveryWalkIsLaunched | crates/jman-cli/src/main.rs:1052-1137 | when the plan has no error every walk of step edges to a script without steps is launched: its shell text or command, in the context of the walk, the arguments only for the script asked for |
| Scripts.InnermostOverlayWins | crates/jman-cli/src/main.rs:1114-1115 | an environment variable has the value of the innermost script on the path that sets it |
| Scripts.InnermostDirectoryWins | crates/jman-cli/src/main.rs:1096-1113 | a leaf runs in the directory of the innermost script on the path that names one, inside the project, and in the inherited one when none does |
| Scripts.ReportedCycleIsReal | crates/jman-cli/src/main.rs:1059-1063 | a reported cycle is a closed walk of step edges that ends a walk from the script asked for |
| Scripts.NoErrorNoRepeat | crates/jman-cli/src/main.rs:1052-1088 | a plan without error has no repeated script on any walk of step edges |
| Scripts.PlansUnlessCyclic | crates/jman-cli/src/main.rs:1052-1088 | in a table where nothing else is wrong the plan is free of errors if and only if no cycle lies beneath the script |
| Scripts.StackIrrelevant | crates/jman-cli/src/main.rs:1052-1088 | a script run as a step has the plan it has on its own: the stack serves only to find cycles |
| OsvPagination.QueryIdentifiers | crates/jman-audit/src/osv.rs:70-119 | on success each package has exactly the identifiers of its whole page chain, which ends; no query is sent twice, every query sent asks for a page of its package's chain, and a successful run sends one for every page of every chain; a failure names a real repetition or blank identifier; terminates over any finite token set |
| OsvPagination.QueryBatch | crates/jman-audit/src/osv.rs:85-86 | one request sends the queries of its chunk and is answered page by page |
| OsvPagination.GatherPage | crates/jman-audit/src/osv.rs:95-102 | adds exactly the page's identifiers, or refuses a page with a blank one |
| OsvPagination.ReadBatch | crates/jman-audit/src/osv.rs:85-117 | a chunk advances every package in it by one page, wherever the chunks are cut |
| OsvPagination.RunRound | crates/jman-audit/src/osv.rs:83-118 | a round reads one page of every open chain, sends exactly the queries of the round, and leaves exactly the next round's |
| OsvChains.RevisitNeverEnds | crates/jman-audit/src/osv.rs:103-109 | a chain that repeats a token never ends, so reporting it loses no answer |
| OsvChains.WholeChain | crates/jman-audit/src/osv.rs:70-119 | the pages read of a chain that has ended hold exactly what lies on the chain |
| OsvChains.PagesBounded | crates/jman-audit/src/osv.rs:103-116 | without a repetition a chain has issued as many different tokens as pages were read, so rounds are bounded by the number of tokens |
| Prune.InspectPath | crates/jman-cli/src/storage.rs:525-555 | the statistics are the true bytes, files and directories of the tree, each capped at 64 bits |
| Prune.CountIsTally | crates/jman-cli/src/storage.rs:525-555 | the measure of a tree is the sum over its nodes: bytes of all files, number of files, number of directories |
| Prune.PruneNode | crates/jman-cli/src/storage.rs:579-637 | statistics and verdict do not depend on dry-run; a dry run changes nothing; a real run leaves exactly the kept tree, and directories are removed only when empty |
| Prune.PrunePath | crates/jman-cli/src/storage.rs:574-577 | a root directory survives, an expired root file does not, and a missing path counts nothing |
| Prune.Conservation | crates/jman-cli/src/storage.rs:579-637 | what was there equals what is left plus what was removed, for bytes, files and directories |
| Prune.SaturatedConservation | crates/jman-cli/src/storage.rs:134-139 | the same for the capped counters |
| Prune.FilesAfter | crates/jman-cli/src/storage.rs:594-610 | the files left, with their places, are exactly those newer than the cutoff: no newer one is lost and no older one stays |
| Prune.DoomedExactly | crates/jman-cli/src/storage.rs:590-636 | below the root a node goes exactly when it and everything below it has expired: one newer entry, however deep, keeps every directory above it |
| Prune.AllDoomedKeepsNothing | crates/jman-cli/src/storage.rs:622-630 | when every child was removed the directory is empty, so removing it cannot fail on contents |

## Left out

- Process spawning, HTTP, the native front end's foreign calls, ZIP reading and writing: foreign behaviour; compilers, generators, services and parsers are parameters.
- Digests: SHA-256 is represented by its input, so equal digests mean equal contents.
- Unicode decoding: registries are texts; replacing invalid UTF-8 is not modelled, and the alphabetic classes of identifiers are parameters. The wire strings do validate UTF-8.
- The lock of the generator cache is taken to be exclusive and to be released when its holder dies.
- The shortcut of `compile_module` over `check.sha256`, `module_fingerprint` and CVSS scoring: other claims, or finite arithmetic.
- The editor-query decoders: bytes other than one all mean absent or false there, so they have no canonical form.
- The encoders for workspace sources and path lists: their reader, the Java front end, is not part of this model.
- The names in cycle messages, warnings' wording and report printing.
- Prune.PruneNode: works on a tree value and returns the tree left, so I/O errors, files that appear or vanish during the walk, and the new modification times of directories that lost entries are not captured.
- Scripts.ScriptExecutor.Execute: the file system as far as working directories go is fixed during a run; the variables JMAN adds for every process, and PATH, are not modelled.
- OsvPagination.QueryIdentifiers: the service is a function of package and token with finitely many tokens, so a response of the wrong length and an answer that changes between requests are not captured.
- RegistryUnions.OrderAndRepetitionDoNotMatter: sufficient conditions for two given orders; merges that go wrong in the same way can still agree.
- GeneratorCache.CachedReturnIsSound: a file's digest is taken in one step, a command reads its files when it ends, and that the patterns are part of the settings a key covers is not used, so callers may ask with any patterns.
- Scheduler.CompileLayer: a failing compilation ends the layer; the compilations dropped in flight are not followed.
- Choosing which archive entries are ignored or relocated, and safe ZIP names.
- Searching, completion and call-hierarchy queries of the symbol index: single filters over the maps.
