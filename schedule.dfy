// The job pool and the control thread, as values. The pool is the ordered
// list of queued and running jobs (one worker runs the first); the control
// thread pops events from its queue, handles each one, and keeps popping until
// the queue is empty.

module Schedule {
  import opened Paths
  import opened Types
  import opened Common
  import opened Activity
  import opened Compile

  /** Some queued or running job has this name. */
  predicate HasJobNamed(jobs: seq<Job>, name: string)
  {
    exists i :: 0 <= i < |jobs| && JobName(jobs[i]) == name
  }

  /** The request fileUpdated queues: the override text, no edits. */
  function UpdatedRequest(file: string, text: string): Request
  {
    Request(file, text, true, [], false)
  }

  /** The request fileChanged queues: no override text, the edit list. */
  function ChangedRequest(file: string, changes: seq<LiveCodeChange>): Request
  {
    Request(file, "", false, changes, true)
  }

  /** fileUpdated / fileChanged on the pool: a compile job is added unless a
      job with the file's name is already queued or running. */
  function Schedule(jobs: seq<Job>, req: Request): seq<Job>
  {
    if HasJobNamed(jobs, FileName(req.file)) then jobs else jobs + [CompileJob(req)]
  }

  /** After scheduling a file, the pool has a job named after it. The pool is
      left as it was exactly when such a job was already there; otherwise it
      gains exactly one compile job, for that request, at the back. */
  lemma ScheduleDedup(jobs: seq<Job>, req: Request)
    ensures HasJobNamed(Schedule(jobs, req), FileName(req.file))
    ensures Schedule(jobs, req) == jobs <==> HasJobNamed(jobs, FileName(req.file))
    ensures !HasJobNamed(jobs, FileName(req.file)) ==> Schedule(jobs, req) == jobs + [CompileJob(req)]
  {
    if !HasJobNamed(jobs, FileName(req.file)) {
      var r := Schedule(jobs, req);
      assert JobName(r[|jobs|]) == FileName(req.file);
    }
  }

  /** No two compile jobs in the pool have the same name. */
  predicate DistinctCompileNames(jobs: seq<Job>)
  {
    forall i, j :: 0 <= i < j < |jobs| && jobs[i].CompileJob? && jobs[j].CompileJob? ==>
      JobName(jobs[i]) != JobName(jobs[j])
  }

  /** Scheduling keeps compile-job names distinct. */
  lemma ScheduleKeepsNamesDistinct(jobs: seq<Job>, req: Request)
    requires DistinctCompileNames(jobs)
    ensures DistinctCompileNames(Schedule(jobs, req))
  {
    var r := Schedule(jobs, req);
    if r != jobs {
      forall i, j | 0 <= i < j < |r| && r[i].CompileJob? && r[j].CompileJob?
        ensures JobName(r[i]) != JobName(r[j])
      {
        if j == |jobs| {
          assert r[i] == jobs[i];
        }
      }
    }
  }

  // ---------------------------------------------------------------------------
  // buildProjectIfNeeded

  /** The compile units with no module tagged with their own path, in order. */
  function Missing(units: seq<string>, modules: seq<Module>): (r: seq<string>)
  {
    if units == [] then []
    else
      var prev := Missing(units[..|units| - 1], modules);
      var u := units[|units| - 1];
      if HasModule(modules, u) then prev else prev + [u]
  }

  /** The pool after the build's loop over the units: each unit with no module
      is handed to fileChanged with no edits, in unit order. */
  function BuildLoop(jobs: seq<Job>, units: seq<string>, modules: seq<Module>): seq<Job>
  {
    if units == [] then jobs
    else
      var prev := BuildLoop(jobs, units[..|units| - 1], modules);
      var u := units[|units| - 1];
      if HasModule(modules, u) then prev else Schedule(prev, ChangedRequest(u, []))
  }

  /** One more unit of the build's scan: it either has a module or is handed
      to fileChanged and counted. */
  lemma BuildLoopStep(jobs: seq<Job>, units: seq<string>, modules: seq<Module>, n: nat)
    requires n < |units|
    ensures BuildLoop(jobs, units[..n + 1], modules)
         == if HasModule(modules, units[n]) then BuildLoop(jobs, units[..n], modules)
            else Schedule(BuildLoop(jobs, units[..n], modules), ChangedRequest(units[n], []))
    ensures |Missing(units[..n + 1], modules)|
         == |Missing(units[..n], modules)| + if HasModule(modules, units[n]) then 0 else 1
  {
    assert units[..n + 1][..n] == units[..n];
  }

  /** buildProjectIfNeeded on the pool: the loop, then an activity job when
      there are units but none of them needed a compile. */
  function Build(jobs: seq<Job>, units: seq<string>, modules: seq<Module>): seq<Job>
  {
    var j := BuildLoop(jobs, units, modules);
    if |units| > 0 && |Missing(units, modules)| == 0 then j + [ActivityListUpdateJob] else j
  }

  /** The units without a module are exactly those the build scans for. */
  lemma {:induction false} MissingExactly(units: seq<string>, modules: seq<Module>)
    ensures forall u :: u in Missing(units, modules) <==> u in units && !HasModule(modules, u)
    ensures |Missing(units, modules)| <= |units|
    decreases |units|
  {
    if units != [] {
      var n := |units| - 1;
      MissingExactly(units[..n], modules);
      assert units == units[..n] + [units[n]];
    }
  }

  /** A job the build's loop issues: fileChanged with no edits, for a unit
      with no module. */
  predicate CompilesMissingUnit(job: Job, units: seq<string>, modules: seq<Module>)
  {
    job.CompileJob? && job == CompileJob(ChangedRequest(job.request.file, []))
    && job.request.file in units && !HasModule(modules, job.request.file)
  }

  /** The build's loop only appends to the pool, and each job it appends is a
      compile job for a unit with no module, issued as fileChanged with no
      edits. */
  lemma {:induction false} BuildLoopOnlyAdds(jobs: seq<Job>, units: seq<string>, modules: seq<Module>)
    ensures var r := BuildLoop(jobs, units, modules);
            |jobs| <= |r| && r[..|jobs|] == jobs
            && forall i :: |jobs| <= i < |r| ==> CompilesMissingUnit(r[i], units, modules)
    decreases |units|
  {
    if units != [] {
      var n := |units| - 1;
      var last := units[n];
      var prev := BuildLoop(jobs, units[..n], modules);
      BuildLoopOnlyAdds(jobs, units[..n], modules);
      var r := BuildLoop(jobs, units, modules);
      ScheduleDedup(prev, ChangedRequest(last, []));
      assert units == units[..n] + [last];
      assert r == prev || (!HasModule(modules, last) && r == prev + [CompileJob(ChangedRequest(last, []))]);
      assert r[..|prev|] == prev;
      forall i | |jobs| <= i < |r|
        ensures CompilesMissingUnit(r[i], units, modules)
      {
        if i < |prev| {
          assert r[i] == prev[i] && CompilesMissingUnit(prev[i], units[..n], modules);
        }
      }
    }
  }

  /** After the build, every unit with no module has a job with its name in
      the pool (a new one, or one that was already there). */
  lemma {:induction false} BuildCovers(jobs: seq<Job>, units: seq<string>, modules: seq<Module>)
    ensures forall u :: u in units && !HasModule(modules, u) ==>
      HasJobNamed(Build(jobs, units, modules), FileName(u))
    decreases |units|
  {
    BuildLoopCovers(jobs, units, modules);
    var j := BuildLoop(jobs, units, modules);
    forall u | u in units && !HasModule(modules, u)
      ensures HasJobNamed(Build(jobs, units, modules), FileName(u))
    {
      var i :| 0 <= i < |j| && JobName(j[i]) == FileName(u);
      assert Build(jobs, units, modules)[i] == j[i];
    }
  }

  lemma {:induction false} BuildLoopCovers(jobs: seq<Job>, units: seq<string>, modules: seq<Module>)
    ensures forall u :: u in units && !HasModule(modules, u) ==>
      HasJobNamed(BuildLoop(jobs, units, modules), FileName(u))
    decreases |units|
  {
    if units != [] {
      var n := |units| - 1;
      var init := units[..n];
      var last := units[n];
      var prev := BuildLoop(jobs, init, modules);
      BuildLoopCovers(jobs, init, modules);
      if !HasModule(modules, last) {
        ScheduleGrows(prev, ChangedRequest(last, []));
        ScheduleDedup(prev, ChangedRequest(last, []));
      }
      assert units == init + [last];
    }
  }

  /** Scheduling never removes a name from the pool. */
  lemma ScheduleGrows(jobs: seq<Job>, req: Request)
    ensures forall name :: HasJobNamed(jobs, name) ==> HasJobNamed(Schedule(jobs, req), name)
  {
    forall name | HasJobNamed(jobs, name)
      ensures HasJobNamed(Schedule(jobs, req), name)
    {
      var i :| 0 <= i < |jobs| && JobName(jobs[i]) == name;
      assert Schedule(jobs, req)[i] == jobs[i];
    }
  }

  /** With units that all have a module, the build adds exactly one activity
      job; with no units it adds nothing. */
  lemma BuildIdle(jobs: seq<Job>, units: seq<string>, modules: seq<Module>)
    requires forall u :: u in units ==> HasModule(modules, u)
    ensures Build(jobs, units, modules) == if |units| > 0 then jobs + [ActivityListUpdateJob] else jobs
  {
    MissingNone(units, modules);
    BuildLoopIdle(jobs, units, modules);
  }

  lemma {:induction false} MissingNone(units: seq<string>, modules: seq<Module>)
    requires forall u :: u in units ==> HasModule(modules, u)
    ensures Missing(units, modules) == []
    decreases |units|
  {
    if units != [] {
      var n := |units| - 1;
      assert units[n] in units;
      MissingNone(units[..n], modules);
    }
  }

  lemma {:induction false} BuildLoopIdle(jobs: seq<Job>, units: seq<string>, modules: seq<Module>)
    requires forall u :: u in units ==> HasModule(modules, u)
    ensures BuildLoop(jobs, units, modules) == jobs
    decreases |units|
  {
    if units != [] {
      var n := |units| - 1;
      assert units[n] in units;
      BuildLoopIdle(jobs, units[..n], modules);
    }
  }

  /** The build compares each unit's own path with the modules' source names.
      Modules made by compiling are tagged with the path of a cached copy in
      the cache folder, so a unit that does not lie directly in the cache
      folder never counts as built: every such unit is missing every time. */
  lemma UnitsNeverMatchCachedModules(cacheFolder: string, units: seq<string>, modules: seq<Module>)
    requires forall i :: 0 <= i < |modules| && modules[i].Module? ==> ParentDirectory(modules[i].sourceName) == cacheFolder
    requires forall u :: u in units ==> ParentDirectory(u) != cacheFolder
    ensures Missing(units, modules) == units
  {
    MissingAll(units, modules);
  }

  lemma {:induction false} MissingAll(units: seq<string>, modules: seq<Module>)
    requires forall u :: u in units ==> !HasModule(modules, u)
    ensures Missing(units, modules) == units
    decreases |units|
  {
    if units != [] {
      var n := |units| - 1;
      assert units[n] in units;
      MissingAll(units[..n], modules);
      assert units[..n] + [units[n]] == units;
    }
  }

  // ---------------------------------------------------------------------------
  // The control thread

  /** n copies of a value. */
  function Repeat<T>(x: T, n: nat): (r: seq<T>)
    ensures |r| == n && forall i :: 0 <= i < n ==> r[i] == x
  {
    if n == 0 then [] else Repeat(x, n - 1) + [x]
  }

  /** The activity-list message for a pool: the display list joined with the
      list separator. */
  function ActivityMessage(jobs: seq<Job>): HostMessage
  {
    ActivityList(ConcatenateListOfStrings(DisplayList(Names(jobs))))
  }

  /** What the control thread changes: the pool, its event queue and the
      messages it has sent to the host. */
  datatype Control = Control(jobs: seq<Job>, queue: seq<MessageEvents>, sent: seq<HostMessage>)

  /** One event, already popped. CompileProject queues an activity update and
      runs the build, which queues one update per unit it hands to
      fileChanged and one at its end; UpdateActivities sends the activity
      list of the current pool; the other events do nothing. */
  function Handle(c: Control, e: MessageEvents, units: seq<string>, modules: seq<Module>): (r: Control)
  {
    match e
    case CompileProject =>
      Control(Build(c.jobs, units, modules),
              c.queue + Repeat(UpdateActivities, |Missing(units, modules)| + 2), c.sent)
    case UpdateActivities => c.(sent := c.sent + [ActivityMessage(c.jobs)])
    case _ => c
  }

  /** Handling events until the queue is empty, the front first. Each
      CompileProject adds only UpdateActivities events, so the batch ends. */
  function Drain(c: Control, units: seq<string>, modules: seq<Module>): (r: Control)
    decreases multiset(c.queue)[CompileProject], |c.queue|
  {
    if c.queue == [] then c
    else
      var e := c.queue[0];
      var rest := c.queue[1..];
      assert c.queue == [e] + rest;
      var extra := Repeat(UpdateActivities, |Missing(units, modules)| + 2);
      assert multiset(extra)[CompileProject] == 0 by {
        assert CompileProject !in extra;
      }
      Drain(Handle(c.(queue := rest), e, units, modules), units, modules)
  }

  /** Handling the front event of a batch, then the rest: the event's own
      effect, with the events it queues appended behind the rest. Only a
      CompileProject queues anything, and never another CompileProject. */
  lemma DrainFront(c: Control, e: MessageEvents, units: seq<string>, modules: seq<Module>)
    ensures Drain(c.(queue := [e] + c.queue), units, modules)
         == Drain(Handle(c, e, units, modules), units, modules)
    ensures e != CompileProject ==> Handle(c, e, units, modules).queue == c.queue
    ensures multiset(Handle(c, e, units, modules).queue)[CompileProject]
         == multiset(c.queue)[CompileProject]
  {
    assert ([e] + c.queue)[1..] == c.queue;
    if e == CompileProject {
      var extra := Repeat(UpdateActivities, |Missing(units, modules)| + 2);
      assert CompileProject !in extra;
      assert multiset(c.queue + extra) == multiset(c.queue) + multiset(extra);
    }
  }

  /** One wake-up of the control thread: wait for an event; stop there if the
      thread has been asked to exit, otherwise handle it and the rest of the
      batch. */
  function RunStep(c: Control, shouldExit: bool, units: seq<string>, modules: seq<Module>): Control
    requires c.queue != []
  {
    if shouldExit then c.(queue := c.queue[1..]) else Drain(c, units, modules)
  }

  /** The number of UpdateActivities events in a queue. */
  function Updates(q: seq<MessageEvents>): nat
  {
    multiset(q)[UpdateActivities]
  }

  /** A batch always empties the queue. A batch with no CompileProject leaves
      the pool alone and sends one activity list, of that pool, per
      UpdateActivities event in the queue. */
  lemma {:induction false} DrainWithoutCompile(c: Control, units: seq<string>, modules: seq<Module>)
    requires CompileProject !in c.queue
    ensures var r := Drain(c, units, modules);
            r.queue == [] && r.jobs == c.jobs
            && r.sent == c.sent + Repeat(ActivityMessage(c.jobs), Updates(c.queue))
    decreases |c.queue|
  {
    if c.queue != [] {
      var e := c.queue[0];
      var rest := c.queue[1..];
      assert c.queue == [e] + rest;
      assert CompileProject !in rest;
      var m := ActivityMessage(c.jobs);
      var h := if e == UpdateActivities then Control(c.jobs, rest, c.sent + [m]) else Control(c.jobs, rest, c.sent);
      assert Handle(c.(queue := rest), e, units, modules) == h;
      assert Drain(c, units, modules) == Drain(h, units, modules);
      DrainWithoutCompile(h, units, modules);
      assert multiset(c.queue) == multiset([e]) + multiset(rest);
      if e == UpdateActivities {
        assert Updates(c.queue) == Updates(rest) + 1;
        RepeatSwap(m, Updates(rest));
        assert c.sent + [m] + Repeat(m, Updates(rest)) == c.sent + ([m] + Repeat(m, Updates(rest)));
      } else {
        assert Updates(c.queue) == Updates(rest);
      }
    } else {
      assert c.sent + Repeat(ActivityMessage(c.jobs), 0) == c.sent;
    }
  }

  lemma RepeatSwap<T>(x: T, n: nat)
    ensures [x] + Repeat(x, n) == Repeat(x, n) + [x]
  {
    var a := [x] + Repeat(x, n);
    var b := Repeat(x, n) + [x];
    assert forall i :: 0 <= i < |a| ==> a[i] == x == b[i];
  }

  /** A batch that starts with a lone CompileProject leaves the pool as the
      build makes it and sends that pool's activity list once for each unit
      without a module, plus twice. */
  lemma DrainCompileProject(c: Control, units: seq<string>, modules: seq<Module>)
    requires c.queue == [CompileProject]
    ensures var r := Drain(c, units, modules);
            var jobs := Build(c.jobs, units, modules);
            r.queue == [] && r.jobs == jobs
            && r.sent == c.sent + Repeat(ActivityMessage(jobs), |Missing(units, modules)| + 2)
  {
    var extra := Repeat(UpdateActivities, |Missing(units, modules)| + 2);
    var empty := c.(queue := []);
    var h := Control(Build(c.jobs, units, modules), extra, c.sent);
    assert Handle(empty, CompileProject, units, modules) == h by {
      assert [] + extra == extra;
    }
    assert empty.(queue := [CompileProject] + empty.queue) == c;
    DrainFront(empty, CompileProject, units, modules);
    assert CompileProject !in extra;
    DrainWithoutCompile(h, units, modules);
    RepeatCount(UpdateActivities, |extra|);
  }

  lemma {:induction false} RepeatCount<T>(x: T, n: nat)
    ensures multiset(Repeat(x, n))[x] == n
    decreases n
  {
    if n > 0 {
      RepeatCount(x, n - 1);
    }
  }

  // ---------------------------------------------------------------------------
  // Launching

  /** runApp's guard: at least one module, and as many modules as compile units. */
  predicate CanLaunch(modules: seq<Module>, units: seq<string>)
  {
    |modules| > 0 && |modules| == |units|
  }

  /** The guard counts modules without matching them to units: as many copies
      of one module as there are units pass it, while every unit other than
      that module's source has no module at all. */
  lemma GuardCountsOnly(m: Module, units: seq<string>)
    requires |units| > 0
    ensures CanLaunch(Repeat(m, |units|), units)
    ensures forall u :: u in units && !(m.Module? && u == m.sourceName) ==> !HasModule(Repeat(m, |units|), u)
  {
    var ms := Repeat(m, |units|);
    forall u | u in units && !(m.Module? && u == m.sourceName)
      ensures !HasModule(ms, u)
    {
      assert forall i :: 0 <= i < |ms| ==> ms[i] == m;
    }
  }

  /** The build's scan of every unit meets its match before any moved-out
      entry, so it never dereferences one. */
  predicate BuildSafe(units: seq<string>, modules: seq<Module>)
  {
    forall u :: u in units ==> ScanSafe(modules, u)
  }

  /** The module list after runApp: when the guard holds, the first module is
      handed to the execution engine and every other one is linked into it,
      each moved out of the list, which keeps its length. */
  function AfterLaunch(modules: seq<Module>, units: seq<string>): seq<Module>
  {
    if CanLaunch(modules, units) then Repeat(MovedOut, |modules|) else modules
  }

  /** A launch uses the modules up. The list still passes the guard, but a
      second launch would dereference a moved-out entry; no source counts as
      compiled any more; and a build would dereference a moved-out entry
      while scanning for any unit. */
  lemma LaunchUsesUpModules(modules: seq<Module>, units: seq<string>)
    requires CanLaunch(modules, units)
    ensures var after := AfterLaunch(modules, units);
            |after| == |modules| && CanLaunch(after, units) && !Intact(after)
            && (forall name :: !HasModule(after, name))
            && (forall u :: u in units ==> !ScanSafe(after, u))
  {
    var after := AfterLaunch(modules, units);
    assert after[0].MovedOut?;
  }

  /** After a launch no module counts as compiled, so a source file that is
      unchanged is skipped only when its bitcode loads (and then its module
      is appended again); without loadable bitcode it is compiled again. */
  lemma CompileAfterLaunch(env: Env, st: Store, req: Request, fe: Frontend, launched: seq<Module>, units: seq<string>)
    requires CanLaunch(launched, units) && st.modules == AfterLaunch(launched, units)
    requires !IsHeader(req.file)
    ensures var cached := CacheSourceFile(env.cacheFolder, req.file);
            Compile.Compile(env, st, req, fe).status == NotNeeded <==>
              Unchanged(env.disk, StageSource(env, st.sources, req), req.file, cached)
              && Loadable(st.bitcode, CacheBitCodeFile(env.cacheFolder, req.file))
  {
    LaunchUsesUpModules(launched, units);
    NotNeededExactly(env, st, req, fe);
  }
}
