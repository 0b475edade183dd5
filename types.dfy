// The value types of the live-code builder: the outcome of one compilation,
// the internal control events, an incremental edit, and the state the builder
// keeps about the cache, the compiled modules and the job pool.

module Types {
  import opened Paths

  datatype Option<T> = None | Some(value: T)

  /** The outcome of compiling one file: a closed three-way result. */
  datatype CompilationStatus = NotNeeded | Ok | Error

  /** The events the control thread consumes. */
  datatype MessageEvents = NoEvent | ExitThread | CompileProject | UpdateActivities

  /** One incremental edit: replace the characters [start, end) with `text`. */
  datatype LiveCodeChange = LiveCodeChange(start: int, end: int, text: string)

  /** A compiled artifact stored in the cache folder: the intermediate code,
      and whether reading it back succeeds. */
  datatype Artifact = Artifact(ir: string, parses: bool)

  /** An entry of the module list: a compiled module, tagged with the source
      file name it was compiled from (the path of the cached copy of the
      source), or an entry whose module a launch has moved out (a null
      pointer left in the list). */
  datatype Module = Module(sourceName: string, ir: string) | MovedOut

  /** What a compile job carries: the file, an optional override text and an
      optional list of edits, each with the flag that says whether it is used. */
  datatype Request = Request(file: string, text: string, useString: bool,
                             changes: seq<LiveCodeChange>, useChanges: bool)

  /** The jobs the builder puts in its pool. */
  datatype Job = CompileJob(request: Request) | CleanAllJob | RunAppJob | ActivityListUpdateJob

  /** The messages the builder sends to its host. Their wire format is not modelled. */
  datatype HostMessage =
    | ActivityList(list: string)
    | BuildFailed
    | DiagnosticList(file: string)
    | Launched
    | PingReply

  /** The project settings the host sends with its build information. */
  datatype BuildSettings = BuildSettings(
    systemPath: string,
    userPath: string,
    defines: seq<string>,
    extraCompilerFlags: seq<string>,
    extraDLLs: string,
    juceModulesFolder: string,
    utilsCppInclude: string)

  const NoSettings := BuildSettings("", "", [], [], "", "", "")

  /** A job's name: a compile job is named after the file's name, the others
      have fixed names that start with "__". */
  function JobName(j: Job): (r: string)
  {
    match j
    case CompileJob(req) => FileName(req.file)
    case CleanAllJob => "__clean"
    case RunAppJob => "__run"
    case ActivityListUpdateJob => "__activity"
  }

  /** The names of all jobs in the pool, in pool order. */
  function Names(jobs: seq<Job>): (r: seq<string>)
    ensures |r| == |jobs|
    ensures forall i :: 0 <= i < |jobs| ==> r[i] == JobName(jobs[i])
  {
    seq(|jobs|, i requires 0 <= i < |jobs| => JobName(jobs[i]))
  }
}
