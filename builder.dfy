// The live-code builder: its project settings, compile units, job pool,
// event queue, cache folder and compiled modules, and the operations that
// change them in place. Each operation is proved against the value-level
// definitions of the modules Compile, Schedule and Messages.

module Builder {
  import opened Paths
  import opened Types
  import opened Common
  import opened Edits
  import opened Activity
  import opened Compile
  import opened Schedule
  import opened Messages
  import opened Queue

  class LiveCodeBuilder {
    /** The cache folder, fixed at construction. */
    const cacheFolder: string
    /** The "-I" option for clang's own headers, found at construction. */
    const clangIncludePath: string
    /** The project files, by full path. The builder only reads them. */
    var disk: map<string, string>
    /** The settings of the last build information. */
    var info: BuildSettings
    var compileUnits: seq<string>
    var userFiles: seq<string>
    /** The job pool, queued and running jobs, the running one first. */
    var jobs: seq<Job>
    const messageQueue: SharedQueue<MessageEvents>
    /** The cache folder: cached copies of sources and bitcode files, by path. */
    var sources: map<string, string>
    var bitcode: map<string, Artifact>
    var modules: seq<Module>
    /** The messages sent to the host, oldest first. */
    var sent: seq<HostMessage>

    function Environment(): Env
      reads this
    {
      Env(cacheFolder, clangIncludePath, info, disk)
    }

    function Cache(): Store
      reads this
    {
      Store(sources, bitcode, modules)
    }

    function ControlState(): Control
      reads this, messageQueue
    {
      Control(jobs, messageQueue.items, sent)
    }

    /** A builder over a cache folder that may still hold the files of an
        earlier session. */
    constructor (cacheFolder: string, clangIncludePath: string, disk: map<string, string>,
                 sources: map<string, string>, bitcode: map<string, Artifact>)
      ensures this.cacheFolder == cacheFolder && this.clangIncludePath == clangIncludePath
      ensures this.disk == disk && this.sources == sources && this.bitcode == bitcode
      ensures info == NoSettings && compileUnits == [] && userFiles == []
      ensures jobs == [] && modules == [] && sent == []
      ensures fresh(messageQueue) && messageQueue.items == []
    {
      this.cacheFolder := cacheFolder;
      this.clangIncludePath := clangIncludePath;
      this.disk := disk;
      this.sources := sources;
      this.bitcode := bitcode;
      info := NoSettings;
      compileUnits := [];
      userFiles := [];
      jobs := [];
      modules := [];
      sent := [];
      messageQueue := new SharedQueue<MessageEvents>();
    }

    /** The destructor: removes every job, then wakes the control thread. */
    method Shutdown()
      modifies this`jobs, messageQueue
      ensures jobs == [] && messageQueue.items == old(messageQueue.items) + [ExitThread]
    {
      jobs := [];
      messageQueue.Push(ExitThread);
    }

    method SendCompileProject()
      modifies messageQueue
      ensures messageQueue.items == old(messageQueue.items) + [CompileProject]
    {
      messageQueue.Push(CompileProject);
    }

    method SendActivityListUpdate()
      modifies messageQueue
      ensures messageQueue.items == old(messageQueue.items) + [UpdateActivities]
    {
      messageQueue.Push(UpdateActivities);
    }

    /** setBuildInfo: reads the settings, registers the compile units and user
        files that exist, each once and in message order, and asks for a
        build. */
    method SetBuildInfo(data: Tree)
      modifies this`info, this`compileUnits, this`userFiles, messageQueue
      ensures info == SettingsOf(data)
      ensures compileUnits == Register(data.children, CompileUnit, disk)
      ensures userFiles == Register(data.children, UserFile, disk)
      ensures messageQueue.items == old(messageQueue.items) + [CompileProject]
    {
      info := SettingsOf(data);

      RegisterChildren(data.children);
      SendCompileProject();
    }

    /** The compile units and user files of a build information message: each
        existing file once, in message order. */
    method RegisterChildren(children: seq<Tree>)
      modifies this`compileUnits, this`userFiles
      ensures compileUnits == Register(children, CompileUnit, disk)
      ensures userFiles == Register(children, UserFile, disk)
    {
      compileUnits := [];
      userFiles := [];
      var i := 0;
      while i < |children|
        invariant 0 <= i <= |children|
        invariant compileUnits == Register(children[..i], CompileUnit, disk)
        invariant userFiles == Register(children[..i], UserFile, disk)
      {
        var child := children[i];
        var file := PropertyString(child, "file", "");
        if child.kind == CompileUnit {
          if file in disk && file !in compileUnits {
            compileUnits := compileUnits + [file];
          }
        } else if child.kind == UserFile {
          if file in disk && file !in userFiles {
            userFiles := userFiles + [file];
          }
        }
        assert children[..i + 1][..i] == children[..i];
        i := i + 1;
      }
      assert children[..i] == children;
    }

    /** Whether a queued or running job has this name. */
    method FindJobNamed(name: string) returns (found: bool)
      ensures found <==> HasJobNamed(jobs, name)
    {
      var i := 0;
      while i < |jobs|
        invariant 0 <= i <= |jobs|
        invariant forall k :: 0 <= k < i ==> JobName(jobs[k]) != name
      {
        if JobName(jobs[i]) == name {
          return true;
        }
        i := i + 1;
      }
      return false;
    }

    /** fileUpdated: queues a compile of the file with the given text unless
        a job with its name is queued or running; either way an activity
        update follows. */
    method FileUpdated(file: string, optionalText: string := "")
      modifies this`jobs, messageQueue
      ensures jobs == Schedule.Schedule(old(jobs), UpdatedRequest(file, optionalText))
      ensures messageQueue.items == old(messageQueue.items) + [UpdateActivities]
    {
      var found := FindJobNamed(FileName(file));
      if found {
        SendActivityListUpdate();
        return;
      }
      jobs := jobs + [CompileJob(UpdatedRequest(file, optionalText))];
      SendActivityListUpdate();
    }

    /** fileChanged: as fileUpdated, with the edit list instead of a text. */
    method FileChanged(file: string, changes: seq<LiveCodeChange> := [])
      modifies this`jobs, messageQueue
      ensures jobs == Schedule.Schedule(old(jobs), ChangedRequest(file, changes))
      ensures messageQueue.items == old(messageQueue.items) + [UpdateActivities]
    {
      var found := FindJobNamed(FileName(file));
      if found {
        SendActivityListUpdate();
        return;
      }
      jobs := jobs + [CompileJob(ChangedRequest(file, changes))];
      SendActivityListUpdate();
    }

    /** fileReset: deletes the file's cached copy and bitcode file. */
    method FileReset(file: string)
      modifies this`sources, this`bitcode, messageQueue
      ensures Cache() == Reset(Environment(), old(Cache()), file)
      ensures messageQueue.items == old(messageQueue.items) + [UpdateActivities]
    {
      var cached := CacheSourceFile(cacheFolder, file);
      if cached in sources {
        sources := sources - {cached};
      }
      var bc := CacheBitCodeFile(cacheFolder, file);
      if bc in bitcode {
        bitcode := bitcode - {bc};
      }
      SendActivityListUpdate();
    }

    /** cleanAll: queues the clean job. */
    method CleanAll()
      modifies this`jobs, messageQueue
      ensures jobs == old(jobs) + [CleanAllJob]
      ensures messageQueue.items == old(messageQueue.items) + [UpdateActivities]
    {
      jobs := jobs + [CleanAllJob];
      SendActivityListUpdate();
    }

    /** launchApp: an activity update, then runApp directly. */
    method LaunchApp()
      requires CanLaunch(modules, compileUnits) ==> Intact(modules)
      modifies this`sent, this`modules, messageQueue
      ensures sent == old(sent) + (if old(CanLaunch(modules, compileUnits)) then [Launched] else [])
      ensures modules == AfterLaunch(old(modules), compileUnits)
      ensures messageQueue.items == old(messageQueue.items) + [UpdateActivities]
    {
      SendActivityListUpdate();
      RunApp();
    }

    /** runApp: with at least one module and as many modules as units, tells
        the host the program is launched, links every other module into the
        first and hands the first to the execution engine. Each module is
        moved out of the list; the first one and every one linked is
        dereferenced, so none may have been moved out before. */
    method RunApp()
      requires CanLaunch(modules, compileUnits) ==> Intact(modules)
      modifies this`sent, this`modules
      ensures sent == old(sent) + (if old(CanLaunch(modules, compileUnits)) then [Launched] else [])
      ensures modules == AfterLaunch(old(modules), compileUnits)
    {
      if |modules| > 0 && |modules| == |compileUnits| {
        sent := sent + [Launched];
        var i := 1;
        while i < |modules|
          invariant 1 <= i <= |modules| == |old(modules)|
          invariant modules[0] == old(modules)[0]
          invariant sent == old(sent) + [Launched]
          invariant forall k :: 1 <= k < |modules| ==> modules[k] == if k < i then MovedOut else old(modules)[k]
        {
          modules := modules[i := MovedOut];
          i := i + 1;
        }
        modules := modules[0 := MovedOut];
        assert forall k :: 0 <= k < |modules| ==> modules[k] == Repeat(MovedOut, |modules|)[k];
        assert modules == Repeat(MovedOut, |old(modules)|);
      }
    }

    /** reloadComponents: has no effect. */
    method ReloadComponents()
    {
    }

    /** foregroundProcess: has no effect, whatever the flag. */
    method ForegroundProcess(parentActive: bool)
    {
    }

    /** pong: answers a ping. */
    method Pong()
      modifies this`sent
      ensures sent == old(sent) + [PingReply]
    {
      sent := sent + [PingReply];
    }

    /** Whether a module is tagged with this source name. */
    method ModuleIsCompiled(name: string) returns (found: bool)
      ensures found <==> HasModule(modules, name)
    {
      found := false;
      var i := 0;
      while i < |modules|
        invariant 0 <= i <= |modules|
        invariant forall k :: 0 <= k < i ==> !(modules[k].Module? && modules[k].sourceName == name)
      {
        if modules[i].Module? && modules[i].sourceName == name {
          found := true;
          break;
        }
        i := i + 1;
      }
    }

    /** The compiler arguments for a file, pushed one after another. */
    method CompilerArguments(file: string) returns (args: seq<string>)
      ensures args == Arguments(Environment(), file)
    {
      var prefix;
      if EqualsIgnoreCase(Extension(file), ".c") {
        prefix := ["clang"];
      } else {
        prefix := ["clang++", "-std=c++11"];
      }
      var leading := prefix + ["-fsyntax-only", "-fno-use-cxa-atexit"] + BaseIncludes(clangIncludePath) + ["-c"];
      assert leading == LeadingArguments(Environment(), file);
      args := PushAll(leading, info.extraCompilerFlags);
      var definesTemp := DefineArguments(info.defines);
      args := PushAll(args + FixedDefines, definesTemp);
      var trailing := ["-I" + ParentDirectory(file)];
      if info.systemPath != "" {
        trailing := trailing + ["-I" + info.systemPath];
      }
      if info.userPath != "" {
        trailing := trailing + ["-I" + info.userPath];
      }
      trailing := trailing + [CacheSourceFile(cacheFolder, file)];
      assert trailing == TrailingArguments(Environment(), file);
      args := args + trailing;
    }

    /** The "-D" argument of each define, in order. */
    static method DefineArguments(defines: seq<string>) returns (flags: seq<string>)
      ensures flags == DefineFlags(defines)
    {
      flags := [];
      var i := 0;
      while i < |defines|
        invariant 0 <= i <= |defines|
        invariant flags == DefineFlags(defines[..i])
      {
        flags := flags + ["-D" + defines[i]];
        assert defines[..i + 1][..i] == defines[..i];
        i := i + 1;
      }
      assert defines[..i] == defines;
    }

    /** Pushes each item at the back, in order. */
    static method PushAll(args: seq<string>, items: seq<string>) returns (r: seq<string>)
      ensures r == args + items
    {
      r := args;
      var i := 0;
      while i < |items|
        invariant 0 <= i <= |items|
        invariant r == args + items[..i]
      {
        r := r + [items[i]];
        assert items[..i + 1] == items[..i] + [items[i]];
        i := i + 1;
      }
      assert items[..i] == items;
    }

    /** compileFile: runs the compiler on the file's cached copy. */
    method CompileFile(file: string, fe: Frontend) returns (result: Option<string>)
      ensures var cached := CacheSourceFile(cacheFolder, file);
              result == if cached in sources then fe(Arguments(Environment(), file), sources[cached]) else None
    {
      var args := CompilerArguments(file);
      var cached := CacheSourceFile(cacheFolder, file);
      if cached in sources {
        result := fe(args, sources[cached]);
      } else {
        result := None;
      }
    }

    /** The edits applied one after another to the text on disk. */
    method ApplyChanges(file: string, changes: seq<LiveCodeChange>) returns (content: string)
      ensures content == ApplyEdits(DiskText(disk, file), changes)
    {
      content := if file in disk then disk[file] else "";
      var i := 0;
      while i < |changes|
        invariant 0 <= i <= |changes|
        invariant content == ApplyEdits(DiskText(disk, file), changes[..i])
      {
        ApplyEditsStep(DiskText(disk, file), changes, i);
        content := ReplaceSection(content, changes[i].start, changes[i].end - changes[i].start, changes[i].text);
        i := i + 1;
      }
      assert changes[..i] == changes;
    }

    /** Brings the file's cached copy up to date for a request. */
    method StageCachedSource(req: Request)
      modifies this`sources
      ensures sources == StageSource(Environment(), old(sources), req)
    {
      StageOverride(req);
      if req.useChanges && |req.changes| > 0 {
        WriteEditedCopy(req.file, req.changes);
      }
    }

    /** The second staging step: the edits are applied to the text on disk,
        and the cached copy is deleted and written anew with the result. */
    method WriteEditedCopy(file: string, changes: seq<LiveCodeChange>)
      modifies this`sources
      ensures sources == old(sources)[CacheSourceFile(cacheFolder, file) := WriteText(ApplyEdits(DiskText(disk, file), changes))]
    {
      var cached := CacheSourceFile(cacheFolder, file);
      var content := ApplyChanges(file, changes);
      if cached in sources {
        sources := sources - {cached};
      }
      WriteCachedCopy(cached, content);
    }

    /** createOutputStream and writeText on a cached copy that does not exist
        yet: the copy holds the text as writeText writes it. */
    method WriteCachedCopy(cached: string, text: string)
      requires cached !in sources
      modifies this`sources
      ensures sources == old(sources)[cached := WriteText(text)]
    {
      sources := sources[cached := WriteText(text)];
    }

    /** The first staging step: the override text, or the file's text when
        no copy is cached yet. */
    method StageOverride(req: Request)
      modifies this`sources
      ensures sources == WithOverride(Environment(), old(sources), req)
    {
      var cached := CacheSourceFile(cacheFolder, req.file);
      if req.useString {
        if cached in sources {
          var cachedText := sources[cached];
          if cachedText != req.text {
            sources := sources - {cached};
          }
        }
        if cached !in sources {
          WriteCachedCopy(cached, req.text);
        }
      } else {
        if cached !in sources && req.file in disk {
          sources := sources[cached := disk[req.file]];
        }
      }
    }

    /** compileFileIfNeeded: skips a header, stages the cached copy, then
        reuses or rebuilds the module. */
    method CompileFileIfNeeded(req: Request, fe: Frontend) returns (status: CompilationStatus)
      modifies this`sources, this`bitcode, this`modules
      ensures Outcome(Cache(), status) == Compile.Compile(Environment(), old(Cache()), req, fe)
    {
      if EqualsIgnoreCase(Extension(req.file), ".h") {
        return NotNeeded;
      }
      StageCachedSource(req);
      status := RebuildIfNeeded(req.file, fe);
    }

    /** The staged part of compileFileIfNeeded: compares the cached copy with
        the file on disk, then loads the bitcode file, compiles, or does
        nothing. */
    method RebuildIfNeeded(file: string, fe: Frontend) returns (status: CompilationStatus)
      modifies this`bitcode, this`modules
      ensures Outcome(Cache(), status) == Rebuild(Environment(), old(Cache()), file, fe)
    {
      var fileHasChanged := true;
      var cached := CacheSourceFile(cacheFolder, file);
      if cached in sources {
        if file in disk && disk[file] == sources[cached] {
          fileHasChanged := false;
        }
      }
      var moduleIsAlreadyCompiled := ModuleIsCompiled(cached);
      var bc := CacheBitCodeFile(cacheFolder, file);
      if !fileHasChanged && bc in bitcode && bitcode[bc].parses {
        modules := modules + [Module(cached, bitcode[bc].ir)];
        return NotNeeded;
      }
      if fileHasChanged || !moduleIsAlreadyCompiled {
        status := RecompileFile(file, fe);
        return;
      }
      return NotNeeded;
    }

    /** Compiles the file; on success replaces its bitcode file and appends
        the module. */
    method RecompileFile(file: string, fe: Frontend) returns (status: CompilationStatus)
      modifies this`bitcode, this`modules
      ensures Outcome(Cache(), status) == Recompile(Environment(), old(Cache()), file, fe)
    {
      var cached := CacheSourceFile(cacheFolder, file);
      var bc := CacheBitCodeFile(cacheFolder, file);
      var result := CompileFile(file, fe);
      match result
      case Some(ir) =>
        ghost var written := bitcode[bc := Artifact(ir, true)];
        if bc in bitcode {
          bitcode := bitcode - {bc};
        }
        bitcode := bitcode[bc := Artifact(ir, true)];
        assert bitcode == written;
        modules := modules + [Module(cached, ir)];
        return Ok;
      case None =>
        return Error;
    }

    /** buildProjectIfNeeded: hands every unit with no module tagged with its
        own path to fileChanged; when there are units but none needed it,
        queues an activity job; then an activity update. */
    method BuildProjectIfNeeded()
      requires BuildSafe(compileUnits, modules)
      modifies this`jobs, messageQueue
      ensures jobs == Build(old(jobs), compileUnits, modules)
      ensures messageQueue.items == old(messageQueue.items)
                + Repeat(UpdateActivities, |Missing(compileUnits, modules)| + 1)
    {
      var numberOfFilesToCompile := ScanUnits();
      if |compileUnits| > 0 && numberOfFilesToCompile == 0 {
        jobs := jobs + [ActivityListUpdateJob];
      }
      SendActivityListUpdate();
    }

    /** The build's loop over the compile units, counting those it hands to
        fileChanged. */
    method ScanUnits() returns (numberOfFilesToCompile: nat)
      requires BuildSafe(compileUnits, modules)
      modifies this`jobs, messageQueue
      ensures jobs == BuildLoop(old(jobs), compileUnits, modules)
      ensures numberOfFilesToCompile == |Missing(compileUnits, modules)|
      ensures messageQueue.items == old(messageQueue.items) + Repeat(UpdateActivities, numberOfFilesToCompile)
    {
      numberOfFilesToCompile := 0;
      var i := 0;
      while i < |compileUnits|
        invariant 0 <= i <= |compileUnits|
        invariant jobs == BuildLoop(old(jobs), compileUnits[..i], modules)
        invariant numberOfFilesToCompile == |Missing(compileUnits[..i], modules)|
        invariant messageQueue.items == old(messageQueue.items) + Repeat(UpdateActivities, numberOfFilesToCompile)
      {
        var missing := ScanUnit(old(jobs), i);
        if missing {
          numberOfFilesToCompile := numberOfFilesToCompile + 1;
        }
        i := i + 1;
      }
      assert compileUnits[..i] == compileUnits;
    }

    /** One unit of the build's loop: a unit with no module goes to
        fileChanged and is counted. */
    method ScanUnit(ghost start: seq<Job>, i: nat) returns (missing: bool)
      requires i < |compileUnits| && ScanSafe(modules, compileUnits[i])
      requires jobs == BuildLoop(start, compileUnits[..i], modules)
      modifies this`jobs, messageQueue
      ensures missing <==> !HasModule(modules, compileUnits[i])
      ensures jobs == BuildLoop(start, compileUnits[..i + 1], modules)
      ensures |Missing(compileUnits[..i + 1], modules)| == |Missing(compileUnits[..i], modules)| + if missing then 1 else 0
      ensures messageQueue.items == old(messageQueue.items) + if missing then [UpdateActivities] else []
    {
      BuildLoopStep(start, compileUnits, modules, i);
      var moduleFound := UnitModuleFound(compileUnits[i]);
      missing := !moduleFound;
      if missing {
        FileChanged(compileUnits[i]);
      }
    }

    /** The build's search for a unit's module: unlike the compile's search it
        does not skip moved-out entries, so it needs its match to come first. */
    method UnitModuleFound(name: string) returns (found: bool)
      requires ScanSafe(modules, name)
      ensures found <==> HasModule(modules, name)
    {
      found := false;
      var i := 0;
      while i < |modules|
        invariant 0 <= i <= |modules|
        invariant forall k :: 0 <= k < i ==> modules[k].Module? && modules[k].sourceName != name
      {
        if modules[i].sourceName == name {
          found := true;
          break;
        }
        i := i + 1;
      }
    }

    /** cleanAllFiles: clears the module list and deletes every entry of the
        cache folder. */
    method CleanAllFiles()
      modifies this`modules, this`sources, this`bitcode
      ensures Cache() == Cleaned
    {
      modules := [];
      while sources != map[]
        invariant modules == []
        decreases |sources.Keys|
      {
        var name :| name in sources;
        sources := sources - {name};
      }
      while bitcode != map[]
        invariant modules == [] && sources == map[]
        decreases |bitcode.Keys|
      {
        var name :| name in bitcode;
        bitcode := bitcode - {name};
      }
    }

    /** The worker: runs the first job of the pool and removes it. A failed
        compilation reports the failure and the diagnostics for the file;
        every job ends with an activity update. */
    method RunNextJob(fe: Frontend) returns (status: CompilationStatus)
      requires jobs != []
      requires jobs[0].RunAppJob? && CanLaunch(modules, compileUnits) ==> Intact(modules)
      modifies this`jobs, this`sources, this`bitcode, this`modules, this`sent, messageQueue
      ensures jobs == old(jobs[1..])
      ensures messageQueue.items == old(messageQueue.items) + [UpdateActivities]
      ensures old(jobs[0]).CompileJob? ==>
                var req := old(jobs[0]).request;
                Outcome(Cache(), status) == Compile.Compile(Environment(), old(Cache()), req, fe)
                && sent == old(sent) + (if status == Error then [BuildFailed, DiagnosticList(req.file)] else [])
      ensures old(jobs[0]).CleanAllJob? ==> Cache() == Cleaned && sent == old(sent)
      ensures old(jobs[0]).RunAppJob? ==>
                Cache() == old(Cache()).(modules := AfterLaunch(old(modules), compileUnits))
                && sent == old(sent) + (if old(CanLaunch(modules, compileUnits)) then [Launched] else [])
      ensures old(jobs[0]).ActivityListUpdateJob? ==> Cache() == old(Cache()) && sent == old(sent)
    {
      status := RunJob(jobs[0], fe);
      SendActivityListUpdate();
      jobs := jobs[1..];
    }

    /** What the worker does for one job, before its activity update. */
    method RunJob(job: Job, fe: Frontend) returns (status: CompilationStatus)
      requires job.RunAppJob? && CanLaunch(modules, compileUnits) ==> Intact(modules)
      modifies this`sources, this`bitcode, this`modules, this`sent
      ensures job.CompileJob? ==>
                Outcome(Cache(), status) == Compile.Compile(Environment(), old(Cache()), job.request, fe)
                && sent == old(sent) + (if status == Error then [BuildFailed, DiagnosticList(job.request.file)] else [])
      ensures job.CleanAllJob? ==> Cache() == Cleaned && sent == old(sent)
      ensures job.RunAppJob? ==>
                Cache() == old(Cache()).(modules := AfterLaunch(old(modules), compileUnits))
                && sent == old(sent) + (if old(CanLaunch(modules, compileUnits)) then [Launched] else [])
      ensures job.ActivityListUpdateJob? ==> Cache() == old(Cache()) && sent == old(sent)
    {
      status := NotNeeded;
      match job {
        case CompileJob(req) =>
          status := CompileFileIfNeeded(req, fe);
          if status == Error {
            sent := sent + [BuildFailed, DiagnosticList(req.file)];
          }
        case CleanAllJob =>
          CleanAllFiles();
        case RunAppJob =>
          RunApp();
        case ActivityListUpdateJob =>
      }
    }

    /** One event of the control thread. */
    method HandleEvent(event: MessageEvents)
      requires event == CompileProject ==> BuildSafe(compileUnits, modules)
      modifies this`jobs, this`sent, messageQueue
      ensures ControlState() == Handle(old(ControlState()), event, compileUnits, modules)
    {
      match event
      case CompileProject =>
        SendActivityListUpdate();
        BuildProjectIfNeeded();
        RepeatSwap(UpdateActivities, |Missing(compileUnits, modules)| + 1);
      case UpdateActivities =>
        var list := Names(jobs);
        var finalList := BuildActivityList(list);
        sent := sent + [ActivityList(ConcatenateListOfStrings(finalList))];
      case _ =>
    }

    /** Handles one event of a batch and takes the next one, if any. */
    method HandleAndPop(event: MessageEvents) returns (more: bool, next: MessageEvents)
      requires event == CompileProject ==> BuildSafe(compileUnits, modules)
      modifies this`jobs, this`sent, messageQueue
      ensures var h := Handle(old(ControlState()), event, compileUnits, modules);
              jobs == h.jobs && sent == h.sent && (more <==> h.queue != [])
              && (if more then h.queue == [next] + messageQueue.items else messageQueue.items == [])
    {
      ghost var h := Handle(ControlState(), event, compileUnits, modules);
      HandleEvent(event);
      assert jobs == h.jobs && sent == h.sent && messageQueue.items == h.queue;
      more, next := messageQueue.TryAndPop(event);
      if more {
        assert h.queue == [next] + messageQueue.items;
      }
    }

    /** One wake-up of the control thread: waits for an event, stops there if
        the thread is exiting, and otherwise handles it and every event that
        is queued, including those queued while handling. */
    method RunOnce(shouldExit: bool)
      requires messageQueue.items != []
      requires !shouldExit && CompileProject in messageQueue.items ==> BuildSafe(compileUnits, modules)
      modifies this`jobs, this`sent, messageQueue
      ensures ControlState() == RunStep(old(ControlState()), shouldExit, compileUnits, modules)
    {
      var event := messageQueue.WaitAndPop();
      if shouldExit {
        return;
      }
      assert old(ControlState()) == Control(jobs, [event] + messageQueue.items, sent);
      HandleBatch(event);
    }

    /** The inner loop of run: handles the event just taken and then every
        queued event, until the queue is empty. */
    method HandleBatch(event: MessageEvents)
      requires CompileProject in [event] + messageQueue.items ==> BuildSafe(compileUnits, modules)
      modifies this`jobs, this`sent, messageQueue
      ensures ControlState() == Drain(Control(old(jobs), [event] + old(messageQueue.items), old(sent)), compileUnits, modules)
    {
      ghost var pending := Control(jobs, [event] + messageQueue.items, sent);
      ghost var target := Drain(pending, compileUnits, modules);
      var next := event;
      var more := true;
      while more
        invariant more ==> pending == Control(jobs, [next] + messageQueue.items, sent)
        invariant !more ==> pending == ControlState() && pending.queue == []
        invariant Drain(pending, compileUnits, modules) == target
        invariant CompileProject in pending.queue ==> BuildSafe(compileUnits, modules)
        decreases more, multiset(pending.queue)[CompileProject], |pending.queue|
      {
        ghost var before := ControlState();
        DrainFront(before, next, compileUnits, modules);
        assert multiset([next] + before.queue) == multiset([next]) + multiset(before.queue);
        pending := Handle(before, next, compileUnits, modules);
        more, next := HandleAndPop(next);
      }
      assert pending.queue == [];
    }
  }
}
