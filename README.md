# JUCECompileEngine live-code builder, modelled in Dafny

JUCECompileEngine is the shared library that the Projucer loads to build a
JUCE project live. It compiles each source file with clang into an LLVM
module, keeps a cache folder of source copies and bitcode files, and reports
activity back to the host. This project models the incremental-build
bookkeeping of that builder (`LiveCodeBuilderImpl`), with the compiler
treated as an oracle. It covers:

- the decision in `compileFileIfNeeded` whether a file must be compiled;
- the job pool and how it removes duplicate jobs;
- the control thread's event loop and its activity list;
- resetting and cleaning the cache;
- registering compile units from a build-information message;
- the cache paths and the compiler argument vector;
- the thread-safe FIFO `SharedQueue`;
- the list join/split helpers of `Common.h`;
- the message dispatch of the library entry point `projucer_sendMessage`.

The model is organised as follows:

- **State.** The builder's state is a class, `Builder.LiveCodeBuilder`, whose
  fields are the ones the source updates in place:
  - the project settings;
  - the compile units and user files;
  - the job pool, as a sequence of jobs with the running one first;
  - the event queue, a `Queue.SharedQueue`;
  - the cache folder, as a map from cached-source path to text and a map
    from bitcode path to artifact;
  - the ordered module list;
  - the messages sent to the host.
- **Specification functions.** Each method is proved against a pure function
  of the old state in the modules `Compile`, `Schedule`, `Activity`,
  `Messages`, `Paths`, `Edits` and `Common`, and the properties of the builder
  are proved as lemmas about those functions.
- **Abstractions:**
  - The disk is a map from path to text, and an unreadable file reads as
    empty.
  - MD5 equality of two files is content equality.
  - The compiler is a parameter `fe`, which maps the argument vector and the
    text of the cached copy to `Some(ir)` or `None`.
  - A compiled module is tagged with the path of the cached copy, because the
    cached copy is the last argument handed to clang.

Behaviour of the source as written that the model keeps, with the lemma
that states it where there is one:

- Modules are appended and never replaced. A file whose copy matches the disk
  is therefore loaded again from its bitcode each time it is built. After one
  successful compile, the next build of the same file appends the same module
  a second time (`Compile.CompileTwiceDuplicates`).
- `buildProjectIfNeeded` compares each unit's own path with the modules'
  source names, but modules are tagged with the cached-copy path. When the
  cache folder differs from the units' folders, no unit ever matches, and
  every unit is scheduled again on every build
  (`Schedule.UnitsNeverMatchCachedModules`).
- A plain request (no override text, no edits) never refreshes a cached copy
  that already exists. Once the disk has moved on, the stale copy is the one
  compiled (`Compile.StaleCopyCompiled`).
- `fileReset` does not remove the module of the file. If a module for the
  cached copy still exists, the next build returns `NotNeeded` without
  compiling (`Compile.ResetThenCompile`).
- The cache is keyed by file name only. Two files with the same name in
  different folders share one cached copy. `a.c` and `a.cpp` share `a.bc`
  (`Paths.CacheIdentityIsFileName`, `Paths.SharedBitCode`).
- The bitcode name also loses everything after the first dot of a dotted stem.
  `a.b.cpp` has the stem `a.b`, but its bitcode file is `a.bc`, the same as
  for `a.cpp` (`Paths.DottedStemSharesBitCode`). So `fileReset` of `a.b.cpp`
  also deletes the bitcode of `a.cpp` (`Compile.ResetDottedStemDropsSibling`).
- `runApp`'s guard only counts modules against units. A list of copies of one
  module passes it (`Schedule.GuardCountsOnly`).
- `runApp` moves every module out of the list: each one after the first is
  moved into `linkModules`, and the first into the execution engine. This
  happens whether or not the engine is created. The list keeps its length,
  and every entry is then a null pointer (`Module.MovedOut`). The model
  shows three consequences (`Schedule.LaunchUsesUpModules`):
  - a second launch still passes the guard and dereferences a null entry;
  - the build's module scan (:689-696) has no null check, so a build after a
    launch dereferences a null entry;
  - compileFileIfNeeded's scan (:628-636) skips null entries, so after a
    launch no file counts as compiled. An unchanged file is skipped only
    when its bitcode loads, and its module is appended again
    (`Schedule.CompileAfterLaunch`).

  The model makes the launch methods require an intact list whenever the
  guard holds, and the build require that each unit's scan meets its match
  before any null entry (`Compile.ScanSafe`).
- The cached copy is written with `OutputStream::writeText(text, false,
  false)`. In JUCE 4 and 5, that call writes each line feed that does not
  follow a carriage return as a carriage return and a line feed
  (`Compile.WriteText`). So an override text or an edited text with a bare
  line feed is not stored as it is. The stored copy then never reads back as
  that text, and the next identical override deletes and rewrites it again
  (`Compile.OverrideWithBareLineFeed`). When the disk holds exactly that
  text, the copy never matches it, so the file is compiled on every request.
  A text without a bare line feed is stored exactly (`Compile.WriteTextKeeps`).
- `launchApp` does not queue a `RunAppJob`: that line is commented out in the
  source, and `runApp` is called directly. The model follows the code here.
- `CompilationStatus` (NotNeeded, Ok, Error), `MessageEvents` (NoEvent,
  ExitThread, CompileProject, UpdateActivities) and `LiveCodeChange` (start,
  end, text) are closed datatypes in `Types`. The cache-path queries are
  functions, so computing a path changes no builder state.

## Model

| member | source | states |
|---|---|---|
| Common.JoinEdgeCases | Source/Common.h:69-77 | joining `[]` gives `""`, joining `[x]` gives `x`, `[""]` joins to the same `""` as `[]`, and splitting `""` gives `[]` |
| Common.JoinSeparatorCount | Source/Common.h:69-72 | a join of n >= 1 separator-free elements contains exactly n - 1 separators |
| Common.SplitJoin | Source/Common.h:69-77 | separateJoinedStrings inverts concatenateListOfStrings on every separator-free list except `[""]` |
| Common.JoinSplit | Source/Common.h:69-77 | joining what separateJoinedStrings returns gives back the original string |
| Common.JoinPieces | Source/Common.h:74-77 | joining the pieces of any string between separators gives the string back |
| Queue.SharedQueue.constructor | Source/SharedQueue.h:48 | a new queue is empty |
| Queue.SharedQueue.Push | Source/SharedQueue.h:50-58 | the value is appended at the back and the size grows by one |
| Queue.SharedQueue.TryAndPop | Source/SharedQueue.h:60-73 | returns true iff the queue was non-empty; if empty, the queue and returnValue are unchanged; otherwise returns the old front and leaves exactly the old tail |
| Queue.SharedQueue.WaitAndPop | Source/SharedQueue.h:75-85 | on a non-empty queue, returns the front and removes only it |
| Queue.SharedQueue.Empty | Source/SharedQueue.h:87-92 | changes nothing, and is true exactly when the size is 0 |
| Queue.SharedQueue.Size | Source/SharedQueue.h:94-98 | changes nothing, and returns the number of queued values |
| Queue.FifoOrder | Source/SharedQueue.h:50-85 | over any history of pushes and pops, the values popped followed by those still queued are the initial contents followed by the values pushed, in order: values are popped in the order they were pushed |
| Paths.FileName | Source/LiveCodeBuilder.cpp:747-749 | the file name is a separator-free suffix of the path |
| Paths.CacheIdentityIsFileName | Source/LiveCodeBuilder.cpp:747-755 | two files with the same file name have the same cached copy; files with the same name without extension have the same bitcode file; the cached copy sits directly in the cache folder and keeps the file's name |
| Paths.SharedBitCode | Source/LiveCodeBuilder.cpp:752-755 | sources with the same stem and different extensions, in any folders, share one bitcode file |
| Paths.DottedStemSharesBitCode | Source/LiveCodeBuilder.cpp:752-755 | a file whose stem holds a dot ("a.b.cpp") keeps that stem, yet its bitcode file is the one of the stem's part before the dot ("a.bc"), shared with "a.cpp" |
| Paths.BitCodeOfChild | Source/LiveCodeBuilder.cpp:752-755 | the bitcode file of `stem.ext` is `<cache>/stem.bc` |
| Paths.NameSplitsAtExtension | Source/LiveCodeBuilder.cpp:752-755 | a file name is its name without extension followed by its extension, and a non-empty extension starts with a dot |
| Paths.FileNameOfChild | Source/LiveCodeBuilder.cpp:747-749 | the file name of a child of a folder is the name it was created with |
| Edits.ReplaceSection | Source/LiveCodeBuilder.cpp:608-609 | an in-range section is spliced out for the inserted text; an index at or past the end appends; the length stays within the removed and inserted amounts |
| Edits.SpliceInRange | Source/LiveCodeBuilder.cpp:607-609 | an edit with `0 <= start <= end <= length` replaces exactly `[start, end)` with its text |
| Edits.ApplyEditsStep | Source/LiveCodeBuilder.cpp:607-609 | applying one more edit of the list applies it to the text the earlier edits produced |
| Edits.ApplyEditsAppend | Source/LiveCodeBuilder.cpp:607-609 | applying a list of edits is applying its first part and then the rest |
| Edits.ApplyEditsInOrder | Source/LiveCodeBuilder.cpp:607-609 | the first edit applies to the original text, and each later edit to the text edited so far |
| Edits.ApplyEditsLength | Source/LiveCodeBuilder.cpp:607-609 | for edits that stay in range of the progressively edited text, the final length is the original length plus what the edits add minus what they replace |
| Activity.BuildActivityList | Source/LiveCodeBuilder.cpp:528-537 | the loop produces exactly the display list of the job names |
| Activity.DisplayListAppend | Source/LiveCodeBuilder.cpp:528-537 | the activity list preserves job order: the list of a concatenation is the concatenation of the lists |
| Activity.EntryShows | Source/LiveCodeBuilder.cpp:530-536 | each job's entry appears in the list of any pool that holds it |
| Activity.DisplayListShows | Source/LiveCodeBuilder.cpp:530-536 | a job ending `.cpp`, `.c` or `.mm` in any case shows as `"Compile " + name`; any other job not starting with `__` shows unchanged |
| Activity.DisplayListOnlyFromJobs | Source/LiveCodeBuilder.cpp:528-537 | every shown entry comes from a job of the pool, and the list is no longer than the pool |
| Activity.HousekeepingHidden | Source/LiveCodeBuilder.cpp:530-536 | a pool whose names all start with `__` and are not source jobs shows an empty list |
| Activity.HousekeepingNamesInternal | Source/LiveCodeBuilder.cpp:170-214 | the clean, run and activity jobs are named with `__` and are not source jobs |
| Activity.InternalDropped | Source/LiveCodeBuilder.cpp:530-536 | a `__`-prefixed non-source job, wherever it stands in the pool, contributes nothing: the list is that of the jobs before it followed by that of the jobs after it |
| Activity.NotSourceByLastChar | Source/LiveCodeBuilder.cpp:532 | a name whose last character is not p, c or m in any case is not a source job |
| Compile.DefineFlags | Source/LiveCodeBuilder.cpp:832-843 | one argument per define, in order, each with the `-D` prefix |
| Compile.LeadingArguments | Source/LiveCodeBuilder.cpp:800-827 | the fixed arguments have ten entries after the compiler prefix |
| Compile.ArgumentsHead | Source/LiveCodeBuilder.cpp:800-827 | the vector starts with `clang` for a `.c` file in any case, and with `clang++ -std=c++11` otherwise; `-c` ends the fixed part |
| Compile.ArgumentsFlagsAndDefines | Source/LiveCodeBuilder.cpp:827-843 | the extra compiler flags follow `-c` in order; after the three fixed defines, every define follows in order with `-D` prefixed |
| Compile.ArgumentsFlags | Source/LiveCodeBuilder.cpp:827-829 | each extra compiler flag sits at its own position right after `-c` |
| Compile.ArgumentsDefines | Source/LiveCodeBuilder.cpp:832-843 | each `-D` define sits at its own position after the fixed defines |
| Compile.ArgumentsTail | Source/LiveCodeBuilder.cpp:846-881 | after the defines come the file's folder, then the system path and the user path only when non-empty, and the cached copy of the file last |
| Compile.HeaderUntouched | Source/LiveCodeBuilder.cpp:567-572 | a `.h` file in any case gives NotNeeded and leaves cache and modules untouched |
| Compile.OverrideStaged | Source/LiveCodeBuilder.cpp:577-595 | with an override text and no edits, the cached copy becomes the text as writeText writes it, unless it already held exactly the text; no other cached source changes; a text with no bare line feed is held exactly |
| Compile.OverrideWithBareLineFeed | Source/LiveCodeBuilder.cpp:583-595 | an override with a bare line feed leaves a copy that differs from the text, and if the disk holds exactly that text the file is not NotNeeded |
| Compile.WriteTextKeeps | Source/LiveCodeBuilder.cpp:593 | writeText leaves a text unchanged iff it has no bare line feed |
| Compile.WriteTextNoBareLineFeed | Source/LiveCodeBuilder.cpp:593 | what writeText writes has no bare line feed |
| Compile.WriteTextIdempotent | Source/LiveCodeBuilder.cpp:593 | writing out already written text changes nothing |
| Compile.BareAfterCrLf | Source/LiveCodeBuilder.cpp:593 | a leading CR LF neither adds nor hides a bare line feed |
| Compile.BareAfterChar | Source/LiveCodeBuilder.cpp:593 | a leading character other than LF, and other than a CR in front of an LF, neither adds nor hides a bare line feed |
| Compile.EditsStaged | Source/LiveCodeBuilder.cpp:602-617 | with a non-empty edit list, the cached copy becomes the disk text with each edit applied in order, as writeText writes it, and exactly that text when it has no bare line feed; for in-range edits, the edited length is the disk length plus the growth of the edits |
| Compile.NotNeededExactly | Source/LiveCodeBuilder.cpp:567-674 | the result is NotNeeded iff the file is a header, or its staged copy exists and equals the disk text and either its bitcode loads or a module already has the cached path |
| Compile.StagingOnlyTouchesCachedCopy | Source/LiveCodeBuilder.cpp:574-617 | staging changes no cached-source entry other than the file's own |
| Compile.RecompileEffects | Source/LiveCodeBuilder.cpp:650-674 | on success, exactly one module tagged with the cached path is appended and the bitcode is rewritten with it; on failure, modules and bitcode are untouched |
| Compile.RebuildEffects | Source/LiveCodeBuilder.cpp:619-674 | after staging: unchanged and loadable bitcode appends the loaded module with NotNeeded; unchanged with an existing module changes nothing; otherwise it compiles as in RecompileEffects |
| Compile.SourcesAreStaged | Source/LiveCodeBuilder.cpp:574-617 | whatever the outcome of a non-header, the cached sources afterwards are the staged ones |
| Compile.OutcomeEffects | Source/LiveCodeBuilder.cpp:556-675 | Ok appends exactly one module and rewrites the bitcode; Error leaves modules and bitcode untouched; NotNeeded leaves the bitcode and appends at most the loaded module; only the file's own cached copy can change |
| Compile.ModulesTaggedWithCachePath | Source/LiveCodeBuilder.cpp:643-664 | the module list only grows, and every appended module is tagged with the cached-copy path |
| Compile.CompileTwiceDuplicates | Source/LiveCodeBuilder.cpp:638-648 | after an Ok for an unchanged plain request, the same request again gives NotNeeded and appends the same module a second time |
| Compile.StaleCopyCompiled | Source/LiveCodeBuilder.cpp:597-600 | a plain request with an existing cached copy that differs from the disk keeps the stale copy, is never NotNeeded, and compiles the stale text |
| Compile.ResetOnlyThatFile | Source/LiveCodeBuilder.cpp:395-406 | fileReset removes the file's cached copy and bitcode, keeps the modules, and keeps the entries of a file with a different name and a different stem, when both stems are dot-free |
| Compile.ResetDottedStemDropsSibling | Source/LiveCodeBuilder.cpp:395-406 | for dotted stems that guarantee fails: fileReset of "a.b.cpp" deletes the bitcode of "a.cpp" although the stems differ, and keeps that file's cached copy |
| Compile.ResetThenCompile | Source/LiveCodeBuilder.cpp:395-406 | after a reset, a plain request recopies the file from disk; the result is NotNeeded (with nothing appended) exactly when a module for the cached copy remains |
| Compile.CleanForcesCompile | Source/LiveCodeBuilder.cpp:716-731 | after cleanAllFiles, a plain request for a file on disk is always compiled, and leaves one module exactly on success |
| Compile.StemsKeepBitCodeApart | Source/LiveCodeBuilder.cpp:752-755 | different dot-free stems give different bitcode names |
| Compile.ChildInjective | Source/LiveCodeBuilder.cpp:747-755 | children of one folder with different names are different paths |
| Schedule.ScheduleDedup | Source/LiveCodeBuilder.cpp:345-392 | afterwards a job named after the file exists; the pool is unchanged iff a job with that name was queued or running; otherwise exactly one compile job is appended |
| Schedule.ScheduleKeepsNamesDistinct | Source/LiveCodeBuilder.cpp:345-392 | scheduling keeps the compile-job names of the pool distinct |
| Schedule.ScheduleGrows | Source/LiveCodeBuilder.cpp:345-392 | scheduling never removes a name from the pool |
| Schedule.MissingExactly | Source/LiveCodeBuilder.cpp:685-704 | the units the build scans for are exactly those with no module tagged with their own path |
| Schedule.BuildLoopStep | Source/LiveCodeBuilder.cpp:685-704 | one more unit of the scan either has a module or is handed to fileChanged and counted |
| Schedule.BuildLoopOnlyAdds | Source/LiveCodeBuilder.cpp:685-704 | the build's loop only appends to the pool, and each job it appends compiles a unit with no module |
| Schedule.BuildCovers | Source/LiveCodeBuilder.cpp:678-713 | after the build, every unit with no module has a job with its name in the pool |
| Schedule.BuildIdle | Source/LiveCodeBuilder.cpp:706-709 | when every unit has a module, the build adds exactly one activity job if there are units, and nothing otherwise |
| Schedule.UnitsNeverMatchCachedModules | Source/LiveCodeBuilder.cpp:692 | when modules are tagged inside the cache folder and no unit lives there, every unit is scheduled |
| Schedule.DrainFront | Source/LiveCodeBuilder.cpp:515-550 | a batch handles its front event and then the rest; only CompileProject queues more events, and the number of CompileProject events falls |
| Schedule.DrainWithoutCompile | Source/LiveCodeBuilder.cpp:525-550 | a batch empties the queue; without CompileProject it leaves the pool alone and sends that pool's activity list once per UpdateActivities |
| Schedule.DrainCompileProject | Source/LiveCodeBuilder.cpp:518-523 | a lone CompileProject leaves the pool as the build makes it, and sends its activity list once per unit without a module, plus twice |
| Schedule.GuardCountsOnly | Source/LiveCodeBuilder.cpp:436 | copies of one module, as many as there are units, pass the launch guard, though no other unit has a module |
| Schedule.LaunchUsesUpModules | Source/LiveCodeBuilder.cpp:436-448 | after a launch the list keeps its length and still passes the guard, but no entry is intact, no source counts as compiled, and no unit's build scan is free of moved-out entries |
| Schedule.CompileAfterLaunch | Source/LiveCodeBuilder.cpp:628-648 | after a launch, a non-header file is NotNeeded iff its staged copy matches the disk and its bitcode loads |
| Messages.IntRoundTrip | Source/main.cpp:134 | reading back an integer written as text gives the integer |
| Messages.VarIntThroughText | Source/main.cpp:134 | an integer or boolean property reads the same as an integer directly or through its text |
| Messages.TrimSpec | Source/LiveCodeBuilder.cpp:307-318 | the trimmed text is a slice of the original with no whitespace at either end, and only whitespace was dropped |
| Messages.TrimIdempotent | Source/LiveCodeBuilder.cpp:307-318 | trimming twice is trimming once |
| Messages.DefinesRoundTrip | Source/LiveCodeBuilder.cpp:307-318 | non-empty, whitespace-free defines joined with spaces come back from setBuildInfo as those defines |
| Messages.RegisterSpec | Source/LiveCodeBuilder.cpp:320-338 | registration keeps each existing file named by a child of the kind, never twice, only files on disk, in order of first mention |
| Messages.RegisterOnce | Source/LiveCodeBuilder.cpp:320-338 | no file is registered twice |
| Messages.RegisterMembers | Source/LiveCodeBuilder.cpp:320-338 | a file is registered iff a child of the kind names it and it exists |
| Messages.RegisterOrdered | Source/LiveCodeBuilder.cpp:320-338 | registered files keep the order of their first mention in the message |
| Messages.DispatchTable | Source/main.cpp:59-154 | each recognised message type reaches exactly the operation that answers it; OPEN_PREVIEW, QUIT_SERVER, child-only and unknown types reach none |
| Messages.ForwardedArguments | Source/main.cpp:66-95 | LIVE_FILE_UPDATE forwards the file and text properties unchanged; LIVE_FILE_CHANGES forwards the decoded edits |
| Messages.ForegroundFlag | Source/main.cpp:129-135 | FOREGROUND passes true exactly when parentActive reads as the integer 1; a missing property passes false |
| Messages.ForegroundOnOne | Source/main.cpp:129-135 | a parentActive of 1, true or "1" passes true to foregroundProcess |
| Messages.ChangesOfSpec | Source/main.cpp:79-91 | the edits are the CHANGE children, one each, in child order; decoding distributes over concatenation |
| Messages.ChangesOfCount | Source/main.cpp:79-91 | there are as many edits as CHANGE children, and each CHANGE child's edit is among them |
| Messages.ChangeDefaults | Source/main.cpp:86-88 | a CHANGE child with no start or end reads 0 there, and one with no text gives `""` |
| Builder.LiveCodeBuilder.constructor | Source/LiveCodeBuilder.cpp:230-290 | a builder over the cache folder, with no settings, units, jobs or modules, and an empty event queue |
| Builder.LiveCodeBuilder.Shutdown | Source/LiveCodeBuilder.cpp:292-298 | the pool is emptied and ExitThread is queued |
| Builder.LiveCodeBuilder.SendCompileProject | Source/LiveCodeBuilder.cpp:494-497 | CompileProject is queued |
| Builder.LiveCodeBuilder.SendActivityListUpdate | Source/LiveCodeBuilder.cpp:499-502 | UpdateActivities is queued |
| Builder.LiveCodeBuilder.SetBuildInfo | Source/LiveCodeBuilder.cpp:301-342 | settings read trimmed from the message; compile units and user files registered as Register states; CompileProject queued |
| Builder.LiveCodeBuilder.RegisterChildren | Source/LiveCodeBuilder.cpp:320-338 | the registration loop computes Register for both kinds |
| Builder.LiveCodeBuilder.FindJobNamed | Source/LiveCodeBuilder.cpp:347-357 | true iff a queued or running job has the name |
| Builder.LiveCodeBuilder.FileUpdated | Source/LiveCodeBuilder.cpp:345-367 | the pool becomes Schedule of the override request (see ScheduleDedup), and one UpdateActivities is queued |
| Builder.LiveCodeBuilder.FileChanged | Source/LiveCodeBuilder.cpp:370-392 | the pool becomes Schedule of the edit request, and one UpdateActivities is queued |
| Builder.LiveCodeBuilder.FileReset | Source/LiveCodeBuilder.cpp:395-406 | the cache becomes Reset of the file (see ResetOnlyThatFile), and one UpdateActivities is queued |
| Builder.LiveCodeBuilder.CleanAll | Source/LiveCodeBuilder.cpp:415-420 | the clean job is appended to the pool and one UpdateActivities is queued |
| Builder.LiveCodeBuilder.LaunchApp | Source/LiveCodeBuilder.cpp:423-430 | one UpdateActivities is queued; LAUNCHED is sent iff the launch guard held, and the module list becomes AfterLaunch (see LaunchUsesUpModules) |
| Builder.LiveCodeBuilder.RunApp | Source/LiveCodeBuilder.cpp:432-448 | LAUNCHED is sent iff there was at least one module and as many modules as compile units; then every entry of the list is moved out, the list keeping its length; requires no moved-out entry when the guard holds |
| Builder.LiveCodeBuilder.Pong | Source/LiveCodeBuilder.cpp:483-486 | a ping reply is sent |
| Builder.LiveCodeBuilder.ModuleIsCompiled | Source/LiveCodeBuilder.cpp:628-636 | skipping moved-out entries, true iff some module is tagged with the name |
| Builder.LiveCodeBuilder.UnitModuleFound | Source/LiveCodeBuilder.cpp:689-696 | on a list whose match, if any, comes before every moved-out entry, true iff some module is tagged with the name |
| Builder.LiveCodeBuilder.CompilerArguments | Source/LiveCodeBuilder.cpp:795-881 | the pushed arguments are the vector Arguments describes (see ArgumentsHead, ArgumentsFlagsAndDefines, ArgumentsTail) |
| Builder.LiveCodeBuilder.DefineArguments | Source/LiveCodeBuilder.cpp:832-843 | the `-D` arguments of the defines, in order |
| Builder.LiveCodeBuilder.PushAll | Source/LiveCodeBuilder.cpp:827-829 | the items are appended in order |
| Builder.LiveCodeBuilder.CompileFile | Source/LiveCodeBuilder.cpp:763-769 | the compiler is given the argument vector and the cached copy's text |
| Builder.LiveCodeBuilder.ApplyChanges | Source/LiveCodeBuilder.cpp:604-609 | the loop yields the disk text with the edits applied in order |
| Builder.LiveCodeBuilder.StageOverride | Source/LiveCodeBuilder.cpp:577-600 | a cached copy equal to the override text is kept, any other is replaced by the text as writeText writes it; without an override, a missing copy is copied from disk |
| Builder.LiveCodeBuilder.StageCachedSource | Source/LiveCodeBuilder.cpp:577-617 | the cached sources become StageSource of the request (see OverrideStaged, EditsStaged) |
| Builder.LiveCodeBuilder.WriteEditedCopy | Source/LiveCodeBuilder.cpp:602-617 | the cached copy becomes the disk text with the edits applied in order, as writeText writes it; no other cached source changes |
| Builder.LiveCodeBuilder.WriteCachedCopy | Source/LiveCodeBuilder.cpp:590-594 | a cached copy that did not exist holds the text as writeText writes it; no other cached source changes |
| Builder.LiveCodeBuilder.CompileFileIfNeeded | Source/LiveCodeBuilder.cpp:556-675 | the new cache, modules and status are Compile of the old ones (see OutcomeEffects, NotNeededExactly) |
| Builder.LiveCodeBuilder.RebuildIfNeeded | Source/LiveCodeBuilder.cpp:619-674 | the new bitcode, modules and status are Rebuild of the staged cache |
| Builder.LiveCodeBuilder.RecompileFile | Source/LiveCodeBuilder.cpp:650-674 | the new bitcode, modules and status are Recompile of the staged cache |
| Builder.LiveCodeBuilder.BuildProjectIfNeeded | Source/LiveCodeBuilder.cpp:678-713 | when no unit's scan meets a moved-out entry, the pool becomes Build of the units and modules; one UpdateActivities per missing unit, plus one, is queued |
| Builder.LiveCodeBuilder.ScanUnits | Source/LiveCodeBuilder.cpp:685-704 | the loop computes BuildLoop, and counts exactly the units with no module |
| Builder.LiveCodeBuilder.ScanUnit | Source/LiveCodeBuilder.cpp:687-703 | a unit is handed to fileChanged iff no module has its path |
| Builder.LiveCodeBuilder.CleanAllFiles | Source/LiveCodeBuilder.cpp:716-731 | the module list and the cache folder end empty |
| Builder.LiveCodeBuilder.RunNextJob | Source/LiveCodeBuilder.cpp:91-227 | the first job is run and removed. A compile job's status and cache are Compile's, and an Error reports BUILD_FAILED with the diagnostics. A clean job empties the cache. A run job launches under the guard and leaves the modules as AfterLaunch. Every job queues one UpdateActivities |
| Builder.LiveCodeBuilder.RunJob | Source/LiveCodeBuilder.cpp:110-220 | what each kind of job does before its activity update; a run job changes only the sent messages and the modules, as RunApp does |
| Builder.LiveCodeBuilder.HandleEvent | Source/LiveCodeBuilder.cpp:517-547 | the pool, queue and sent messages become Handle of the event |
| Builder.LiveCodeBuilder.HandleAndPop | Source/LiveCodeBuilder.cpp:515-549 | one event is handled, and the next is taken iff the queue is non-empty |
| Builder.LiveCodeBuilder.HandleBatch | Source/LiveCodeBuilder.cpp:515-549 | the batch loop ends with the state Drain gives (see DrainWithoutCompile, DrainCompileProject) |
| Builder.LiveCodeBuilder.RunOnce | Source/LiveCodeBuilder.cpp:507-550 | one wake-up of the control thread is RunStep: it takes the front event and stops if exiting, else drains the queue |
| Host.DecodeChanges | Source/main.cpp:79-91 | the loop collects exactly ChangesOf of the children |
| Host.DecodeMessage | Source/main.cpp:49-154 | the decoded call is Dispatch of the message |
| Host.Perform | Source/main.cpp:59-149 | each call has the effect of the builder operation it names, and every field that operation does not change keeps its value; RELOAD, FOREGROUND and unrecognised messages leave the builder unchanged |
| Host.SendMessage | Source/main.cpp:49-155 | on a non-null handle, the message reaches the operation Dispatch names, with that operation's effect and no change to any other field |
| Host.DeleteBuilder | Source/main.cpp:204-212 | a null handle is ignored; otherwise the builder is shut down |

## Left out

- clang and LLVM are not modelled. This covers the diagnostic reporter, the driver and invocation setup (LiveCodeBuilder.cpp:884-925), code generation, parsing IR, the execution engine, and linking and JIT in runApp (:440-478). The compiler is the parameter `fe`; a bitcode file carries its module and a "parses" flag.
- MD5 is not computed. Two files are equal when their contents are, and collisions are ignored.
- Threads are not modelled: the thread pool, the mutexes, the blocking of waitAndPop and the destructor's wait. The pool is a sequence of jobs whose first job the worker runs (`RunNextJob`). The control loop is one wake-up at a time (`RunOnce`), and `shouldExit` stands for `threadShouldExit()`.
- Queue.SharedQueue.WaitAndPop: requires a non-empty queue instead of blocking until one is.
- Builder.LiveCodeBuilder.constructor: the LLVM initialisation, the Xcode include search and the creation of the cache folder are not modelled. The clang include path and the cache folder's initial contents are parameters.
- Messages to the host are values (`HostMessage`), not serialised ValueTrees. The text of a diagnostic list and the LOG output are not modelled.
- Builder.LiveCodeBuilder.RunNextJob: a failed compilation sends BUILD_FAILED and a diagnostic list named after the file; the diagnostics themselves come from clang and are not modelled.
- ReloadComponents and ForegroundProcess have empty bodies in the source, and the model's methods are empty too.
- OPEN_PREVIEW and QUIT_SERVER only log in the source, so they reach no builder operation in the model.
- projucer_createBuilder, the logger, signal setup, the login and licence stubs, getExecutablePath and the terminfo stubs are left out: they are process plumbing with no builder state.
- Edits.ReplaceSection: positions are unbounded integers. The 32-bit `int` of LiveCodeChange is not modelled, and `end - start` does not wrap.
- Messages.VarIntThroughText: property values are integers, booleans or text. Floating-point values are not modelled.
- Failed file writes and unreadable files are not modelled. Every write succeeds, and an unreadable project file reads as empty.
- Removing the compiler's output files in cleanAllFiles (`clearOutputFiles`) is part of clang and is not modelled.
- `Compile.WriteText` follows `OutputStream::writeText` of JUCE 4 and 5 with the byte order mark and UTF-16 both off: a line feed not preceded by a carriage return becomes CR LF, and writing stops at a NUL character. JUCE strings hold no NUL, so the model does not stop at one.
- Paths.EqualsIgnoreCase and Paths.EndsWithIgnoreCase fold only the ASCII letters A-Z. JUCE folds case with `towlower`, which also folds other letters; those file names are out of scope.
- Messages.Register removes duplicates by exact path equality. JUCE's `File` comparison in `addIfNotAlreadyThere` ignores case on case-insensitive file systems (macOS, Windows), where two spellings of one file would be registered once; the model assumes a case-sensitive file system.
- Builder.LiveCodeBuilder.RunApp: a launch whose guard holds on a list with a moved-out entry dereferences a null pointer in the source; the model requires that it does not happen rather than modelling the crash.
- Builder.LiveCodeBuilder.BuildProjectIfNeeded: a build scan that meets a moved-out entry before its match dereferences a null pointer in the source; the model requires that it does not happen (`Schedule.BuildSafe`), and so do the control-thread methods that can run a build.
