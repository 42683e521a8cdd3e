/** The tracer's hooks, running on its maps and on the record being built. */
module Tracer {
  import opened Base
  import opened Events
  import opened Memory
  import opened Packing
  import opened VarBuffers
  import opened TracerSpec

  /** The value a buffer holds, as it is copied into a map or an event. */
  method Load(b: VarBuffer) returns (p: Packed)
    ensures p == b.Value()
  {
    return Packed(b.payload[..], b.varDesc[..], b.payloadLen, b.varCount);
  }

  /** The record's captured arguments and tags: the ifs of sys_exit up to the execve case. */
  class EventRecord {
    const vars: VarBuffer
    var types: seq<U8>

    constructor (types: seq<U8>)
      requires |types| == 6
      ensures Value() == Capture(NoVars(), types) && Ready(Value())
      ensures fresh(vars) && fresh(vars.payload) && fresh(vars.varDesc)
    {
      vars := new VarBuffer(MAX_VAR_PAYLOAD, MAX_VAR_ARGS);
      this.types := types;
    }

    ghost function Value(): Capture
      reads this, vars, vars.payload, vars.varDesc
    {
      Capture(vars.Value(), types)
    }

    method AppendString(i: nat, args: Args, mem: Mem)
      requires Ready(Value()) && i < 6
      modifies this, vars, vars.payload, vars.varDesc
      ensures Value() == WithString(old(Value()), i, args, mem)
    {
      vars.AppendString(i, mem, args[i]);
      types := types[i := VAR_ARG_STRING];
    }

    method AppendBytes(i: nat, args: Args, mem: Mem, size: U64)
      requires Ready(Value()) && i < 6
      modifies this, vars, vars.payload, vars.varDesc
      ensures Value() == WithBytes(old(Value()), i, args, mem, size)
    {
      vars.AppendBytes(i, mem, args[i], size);
      types := types[i := VAR_ARG_BYTES];
    }

    method CaptureLookPaths(id: I64, args: Args, mem: Mem)
      requires Ready(Value())
      modifies this, vars, vars.payload, vars.varDesc
      ensures Value() == LookPaths(old(Value()), id, args, mem)
    {
      hide WithString;
      if id == SYS_OPEN {
        AppendString(0, args, mem);
      }
      if id == SYS_OPENAT {
        AppendString(1, args, mem);
      }
      if id == SYS_OPENAT2 || id == SYS_NEWFSTATAT || id == SYS_FACCESSAT || id == SYS_STATX || id == SYS_FACCESSAT2 {
        AppendString(1, args, mem);
      }
      if id == SYS_ACCESS || id == SYS_STAT || id == SYS_LSTAT {
        AppendString(0, args, mem);
      }
    }

    method CaptureStatBuffers(id: I64, ret: I64, args: Args, mem: Mem)
      requires Ready(Value())
      modifies this, vars, vars.payload, vars.varDesc
      ensures Value() == StatBuffers(old(Value()), id, ret, args, mem)
    {
      hide WithBytes;
      if id == SYS_FSTAT && ret >= 0 {
        AppendBytes(1, args, mem, SIZEOF_STAT);
      }
      if (id == SYS_STAT || id == SYS_LSTAT) && ret >= 0 {
        AppendBytes(1, args, mem, SIZEOF_STAT);
      }
      if id == SYS_NEWFSTATAT && ret >= 0 {
        AppendBytes(2, args, mem, SIZEOF_STAT);
      }
      if id == SYS_STATX && ret >= 0 {
        AppendBytes(4, args, mem, SIZEOF_STATX);
      }
    }

    method CaptureChangePaths(id: I64, args: Args, mem: Mem)
      requires Ready(Value())
      modifies this, vars, vars.payload, vars.varDesc
      ensures Value() == ChangePaths(old(Value()), id, args, mem)
    {
      hide WithString;
      if id == SYS_CHDIR || id == SYS_UNLINK {
        AppendString(0, args, mem);
      }
      if id == SYS_RENAME {
        AppendString(0, args, mem);
        AppendString(1, args, mem);
      }
      if id == SYS_UNLINKAT {
        AppendString(1, args, mem);
      }
      if id == SYS_RENAMEAT || id == SYS_RENAMEAT2 {
        AppendString(1, args, mem);
        AppendString(3, args, mem);
      }
    }

    method CaptureTransferData(id: I64, ret: I64, args: Args, mem: Mem)
      requires Ready(Value())
      modifies vars, vars.payload, vars.varDesc
      ensures Value() == TransferData(old(Value()), id, ret, args, mem)
    {
      hide AppendVarBytes;
      if id == SYS_WRITE {
        vars.AppendBytes(1, mem, args[1], args[2]);
      }
      if id == SYS_READ && ret >= 0 {
        vars.AppendBytes(1, mem, args[1], ret);
      }
    }
  }

  /** The event of a finished call, built in a fresh record. */
  method BuildEvent(cfg: Config, call: SyscallData, snap: Option<Snapshot>, s: Step) returns (ev: Event)
    requires s.Exit?
    ensures ev == EventFor(cfg, call, snap, s)
  {
    hide LookPaths, StatBuffers, ChangePaths, TransferData;
    var e := new EventRecord(SchemaOf(cfg.schemas, call.id).argTypes);
    e.CaptureLookPaths(call.id, call.args, s.mem);
    e.CaptureStatBuffers(call.id, s.ret, call.args, s.mem);
    e.CaptureChangePaths(call.id, call.args, s.mem);
    e.CaptureTransferData(call.id, s.ret, call.args, s.mem);
    var vars := Load(e.vars);
    var header := Header(cfg, call, s, e.types);
    if call.id != SYS_EXECVE {
      ev := WithVars(header, vars);
    } else if snap.Some? {
      ev := WithSnapshot(header, snap.value);
    } else {
      ev := WithVars(header, LostSnapshot());
    }
  }

  class Tracer {
    const cfg: Config
    var targetPIDs: set<U32>
    var inflightSyscalls: map<U32, SyscallData>
    var execveSnapshots: map<U32, Snapshot>
    var tidSequences: map<U32, U32>

    constructor (cfg: Config, targets: set<U32>)
      ensures this.cfg == cfg && Value() == Initial(targets)
    {
      this.cfg := cfg;
      targetPIDs, inflightSyscalls, execveSnapshots, tidSequences := targets, map[], map[], map[];
    }

    ghost function Value(): Maps
      reads this
    {
      Maps(targetPIDs, inflightSyscalls, execveSnapshots, tidSequences)
    }

    method TraceSysEnter(s: Step)
      requires s.Enter?
      modifies this
      ensures Value() == OnEnter(cfg, old(Value()), s)
    {
      hide Entered, ShouldTrackUnselected, NextSequence;
      if s.tgid !in targetPIDs {
        return;
      }
      var selected := true;
      if cfg.filterEnabled {
        if Low32(s.id) !in cfg.selectors {
          selected := false;
          if !ShouldTrackUnselected(cfg, s.mem, s.id) {
            return;
          }
        }
      }
      var nextSeq := NextNumber(s.tid);
      ghost var m := Value();
      assert selected == IsSelected(cfg, s.id);
      RecordCall(s, nextSeq, selected);
      assert Value() == Entered(m, s, nextSeq, selected);
    }

    method NextNumber(tid: U32) returns (nextSeq: U32)
      ensures nextSeq == NextSequence(Value(), tid)
      ensures Given(Value(), tid) < 0xffff_ffff ==> nextSeq == Given(Value(), tid) + 1
      ensures Given(Value(), tid) == 0xffff_ffff ==> nextSeq == 0
    {
      nextSeq := 1;
      if tid in tidSequences {
        var previous: int := tidSequences[tid];
        nextSeq := Low32(previous + 1);
      }
    }

    /** The map updates of sys_enter. */
    method RecordCall(s: Step, nextSeq: U32, selected: bool)
      requires s.Enter?
      modifies this
      ensures Value() == Entered(old(Value()), s, nextSeq, selected)
    {
      hide ExecveSnapshot;
      tidSequences := tidSequences[s.tid := nextSeq];
      var state := SyscallData(s.now, s.id, s.args, nextSeq, selected);
      if s.id == SYS_EXECVE {
        var snapshot := TakeSnapshot(s.mem, s.args[0], s.args[1]);
        execveSnapshots := execveSnapshots[s.tid := snapshot];
      }
      inflightSyscalls := inflightSyscalls[s.tid := state];
    }

    method TakeSnapshot(mem: Mem, filename: U64, argv: U64) returns (snap: Snapshot)
      ensures snap == ExecveSnapshot(mem, filename, argv)
    {
      hide AppendExecveString, AppendExecveArgv;
      var snapshot := new VarBuffer(MAX_EXECVE_STATE_PAYLOAD, MAX_EXECVE_STATE_VARS);
      snapshot.AppendExecveName(0, mem, filename);
      snapshot.AppendArgv(1, mem, argv);
      snap := Load(snapshot);
    }

    method TrackChildProcess(state: SyscallData, ret: I64, mem: Mem)
      modifies this
      ensures Value() == TrackChild(cfg, old(Value()), state, ret, mem)
    {
      if ret <= 0 {
        return;
      }
      if !IsProcessClone(mem, state.id, state.args[0]) {
        return;
      }
      if !cfg.followForks {
        return;
      }
      targetPIDs := targetPIDs + {Low32(ret)};
    }

    method CleanupTidState(tid: U32)
      modifies this
      ensures Value() == CleanUp(old(Value()), tid)
    {
      inflightSyscalls := inflightSyscalls - {tid};
      execveSnapshots := execveSnapshots - {tid};
      tidSequences := tidSequences - {tid};
    }

    method TraceSysExit(s: Step) returns (ev: Option<Event>)
      requires s.Exit?
      modifies this
      ensures var r := OnExit(cfg, old(Value()), s);
              Value() == r.maps && ev == r.event
    {
      hide EventFor, IsProcessClone;
      if s.tgid !in targetPIDs {
        return None;
      }
      if s.tid !in inflightSyscalls {
        return None;
      }
      var state := inflightSyscalls[s.tid];
      TrackChildProcess(state, s.ret, s.mem);
      if !state.selected {
        inflightSyscalls := inflightSyscalls - {s.tid};
        return None;
      }
      if !s.reserved {
        return None;
      }
      var snapshot := if s.tid in execveSnapshots then Some(execveSnapshots[s.tid]) else None;
      var e := BuildEvent(cfg, state, snapshot, s);
      if state.id == SYS_EXECVE {
        execveSnapshots := execveSnapshots - {s.tid};
      }
      inflightSyscalls := inflightSyscalls - {s.tid};
      if state.id == SYS_EXIT || state.id == SYS_EXIT_GROUP {
        CleanupTidState(s.tid);
        if state.id == SYS_EXIT_GROUP {
          targetPIDs := targetPIDs - {s.tgid};
        }
      }
      return Some(e);
    }

    method TraceSchedProcessExit(s: Step)
      requires s.ProcessExit?
      modifies this
      ensures Value() == OnProcessExit(old(Value()), s)
    {
      if s.tgid !in targetPIDs {
        return;
      }
      CleanupTidState(s.tid);
      if s.tid == s.tgid {
        targetPIDs := targetPIDs - {s.tgid};
      }
    }
  }
}
