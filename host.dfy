// The entry points the host calls on a builder handle: a message is decoded
// and routed to one builder operation, and a handle is deleted only when it
// is not null.

module Host {
  import opened Types
  import opened Compile
  import opened Schedule
  import opened Messages
  import opened Builder

  /** The CHANGE children of a LIVE_FILE_CHANGES message, collected in order. */
  method DecodeChanges(children: seq<Tree>) returns (changes: seq<LiveCodeChange>)
    ensures changes == ChangesOf(children)
  {
    changes := [];
    var i := 0;
    while i < |children|
      invariant 0 <= i <= |children|
      invariant changes == ChangesOf(children[..i])
    {
      var child := children[i];
      if child.kind == Change {
        changes := changes + [LiveCodeChange(PropertyInt(child, "start", 0), PropertyInt(child, "end", 0),
                                             PropertyString(child, "text", ""))];
      }
      assert children[..i + 1][..i] == children[..i];
      i := i + 1;
    }
    assert children[..i] == children;
  }

  /** The decoding half of projucer_sendMessage: the operation a message
      reaches and its arguments, with the CHANGE children collected in order. */
  method DecodeMessage(msg: Tree) returns (call: Call)
    ensures call == Dispatch(msg)
  {
    match msg.kind {
      case BuildInfo =>
        call := SetBuildInfoCall(msg);
      case LiveFileUpdate =>
        call := FileUpdatedCall(PropertyString(msg, "file", ""), PropertyString(msg, "text", ""));
      case LiveFileChanges =>
        var changes := DecodeChanges(msg.children);
        call := FileChangedCall(PropertyString(msg, "file", ""), changes);
      case LiveFileReset =>
        call := FileResetCall(PropertyString(msg, "file", ""));
      case CleanAllMessage =>
        call := CleanAllCall;
      case Reload =>
        call := ReloadCall;
      case LaunchApp =>
        call := LaunchAppCall;
      case Foreground =>
        call := ForegroundCall(PropertyInt(msg, "parentActive", 0) == 1);
      case Ping =>
        call := PongCall;
      case _ =>
        call := NoCall;
    }
  }

  /** The calling half of projucer_sendMessage: runs the builder operation.
      Only the fields that operation changes change: the settings and unit
      lists for build information; the pool for an update, a change or a
      clean; the cached sources and bitcode for a reset; the module list for
      a launch; the sent messages for a launch or a ping; the event queue for
      every operation that posts an event. The project files never change. */
  method Perform(lcb: LiveCodeBuilder, call: Call)
    requires call.LaunchAppCall? && CanLaunch(lcb.modules, lcb.compileUnits) ==> Intact(lcb.modules)
    modifies lcb, lcb.messageQueue
    ensures lcb.disk == old(lcb.disk)
    ensures !call.SetBuildInfoCall? ==>
              lcb.info == old(lcb.info) && lcb.compileUnits == old(lcb.compileUnits) && lcb.userFiles == old(lcb.userFiles)
    ensures !(call.FileUpdatedCall? || call.FileChangedCall? || call.CleanAllCall?) ==> lcb.jobs == old(lcb.jobs)
    ensures !call.FileResetCall? ==> lcb.sources == old(lcb.sources) && lcb.bitcode == old(lcb.bitcode)
    ensures !call.LaunchAppCall? ==> lcb.modules == old(lcb.modules)
    ensures !(call.LaunchAppCall? || call.PongCall?) ==> lcb.sent == old(lcb.sent)
    ensures call.PongCall? ==> lcb.messageQueue.items == old(lcb.messageQueue.items)
    ensures call.SetBuildInfoCall? ==>
              lcb.info == SettingsOf(call.data)
              && lcb.compileUnits == Register(call.data.children, CompileUnit, lcb.disk)
              && lcb.userFiles == Register(call.data.children, UserFile, lcb.disk)
              && lcb.messageQueue.items == old(lcb.messageQueue.items) + [CompileProject]
    ensures call.FileUpdatedCall? ==>
              lcb.jobs == Schedule.Schedule(old(lcb.jobs), UpdatedRequest(call.file, call.text))
    ensures call.FileChangedCall? ==>
              lcb.jobs == Schedule.Schedule(old(lcb.jobs), ChangedRequest(call.file, call.changes))
    ensures call.FileResetCall? ==>
              lcb.Cache() == Reset(lcb.Environment(), old(lcb.Cache()), call.file)
    ensures call.CleanAllCall? ==> lcb.jobs == old(lcb.jobs) + [CleanAllJob]
    ensures call.LaunchAppCall? ==>
              lcb.sent == old(lcb.sent) + (if old(CanLaunch(lcb.modules, lcb.compileUnits)) then [Launched] else [])
              && lcb.modules == AfterLaunch(old(lcb.modules), lcb.compileUnits)
    ensures call.PongCall? ==> lcb.sent == old(lcb.sent) + [PingReply]
    ensures call.FileUpdatedCall? || call.FileChangedCall? || call.FileResetCall?
            || call.CleanAllCall? || call.LaunchAppCall? ==>
              lcb.messageQueue.items == old(lcb.messageQueue.items) + [UpdateActivities]
    ensures call.ReloadCall? || call.ForegroundCall? || call.NoCall? ==>
              unchanged(lcb) && unchanged(lcb.messageQueue)
  {
    match call {
      case SetBuildInfoCall(data) =>
        ghost var before := (lcb.disk, lcb.jobs, lcb.sources, lcb.bitcode, lcb.modules, lcb.sent);
        lcb.SetBuildInfo(data);
        assert before == (lcb.disk, lcb.jobs, lcb.sources, lcb.bitcode, lcb.modules, lcb.sent);
      case FileUpdatedCall(file, text) =>
        lcb.FileUpdated(file, text);
      case FileChangedCall(file, changes) =>
        lcb.FileChanged(file, changes);
      case FileResetCall(file) =>
        lcb.FileReset(file);
      case CleanAllCall =>
        lcb.CleanAll();
      case ReloadCall =>
        lcb.ReloadComponents();
      case LaunchAppCall =>
        lcb.LaunchApp();
      case ForegroundCall(parentActive) =>
        lcb.ForegroundProcess(parentActive);
      case PongCall =>
        lcb.Pong();
      case NoCall =>
    }
  }

  /** projucer_sendMessage: the handle must not be null. The message reaches
      the one operation `Dispatch` names, with the arguments it names; the
      operations with no effect, and the messages that reach none, leave the
      builder as it was. */
  method SendMessage(lcb: LiveCodeBuilder?, msg: Tree) returns (call: Call)
    requires lcb != null
    requires Dispatch(msg).LaunchAppCall? && CanLaunch(lcb.modules, lcb.compileUnits) ==> Intact(lcb.modules)
    modifies lcb, lcb.messageQueue
    ensures call == Dispatch(msg)
    ensures lcb.disk == old(lcb.disk)
    ensures !call.SetBuildInfoCall? ==>
              lcb.info == old(lcb.info) && lcb.compileUnits == old(lcb.compileUnits) && lcb.userFiles == old(lcb.userFiles)
    ensures !(call.FileUpdatedCall? || call.FileChangedCall? || call.CleanAllCall?) ==> lcb.jobs == old(lcb.jobs)
    ensures !call.FileResetCall? ==> lcb.sources == old(lcb.sources) && lcb.bitcode == old(lcb.bitcode)
    ensures !call.LaunchAppCall? ==> lcb.modules == old(lcb.modules)
    ensures !(call.LaunchAppCall? || call.PongCall?) ==> lcb.sent == old(lcb.sent)
    ensures call.PongCall? ==> lcb.messageQueue.items == old(lcb.messageQueue.items)
    ensures call.SetBuildInfoCall? ==>
              lcb.info == SettingsOf(call.data)
              && lcb.compileUnits == Register(call.data.children, CompileUnit, lcb.disk)
              && lcb.userFiles == Register(call.data.children, UserFile, lcb.disk)
              && lcb.messageQueue.items == old(lcb.messageQueue.items) + [CompileProject]
    ensures call.FileUpdatedCall? ==>
              lcb.jobs == Schedule.Schedule(old(lcb.jobs), UpdatedRequest(call.file, call.text))
    ensures call.FileChangedCall? ==>
              lcb.jobs == Schedule.Schedule(old(lcb.jobs), ChangedRequest(call.file, call.changes))
    ensures call.FileResetCall? ==>
              lcb.Cache() == Reset(lcb.Environment(), old(lcb.Cache()), call.file)
    ensures call.CleanAllCall? ==> lcb.jobs == old(lcb.jobs) + [CleanAllJob]
    ensures call.LaunchAppCall? ==>
              lcb.sent == old(lcb.sent) + (if old(CanLaunch(lcb.modules, lcb.compileUnits)) then [Launched] else [])
              && lcb.modules == AfterLaunch(old(lcb.modules), lcb.compileUnits)
    ensures call.PongCall? ==> lcb.sent == old(lcb.sent) + [PingReply]
    ensures call.FileUpdatedCall? || call.FileChangedCall? || call.FileResetCall?
            || call.CleanAllCall? || call.LaunchAppCall? ==>
              lcb.messageQueue.items == old(lcb.messageQueue.items) + [UpdateActivities]
    ensures call.ReloadCall? || call.ForegroundCall? || call.NoCall? ==>
              unchanged(lcb) && unchanged(lcb.messageQueue)
  {
    call := DecodeMessage(msg);
    Perform(lcb, call);
  }

  /** projucer_deleteBuilder: a null handle is ignored; otherwise the builder
      is shut down. */
  method DeleteBuilder(lcb: LiveCodeBuilder?)
    modifies if lcb == null then {} else {lcb, lcb.messageQueue}
    ensures lcb != null ==>
              lcb.jobs == [] && lcb.messageQueue.items == old(lcb.messageQueue.items) + [ExitThread]
  {
    if lcb != null {
      lcb.Shutdown();
    }
  }
}
