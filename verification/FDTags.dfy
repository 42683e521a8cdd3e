/**
 The filter takes an argument for an fd by its tag.  A captured argument vector has
 the same tag, so the calls that take one are decided by what is not an fd.
 */
module FDTags {
  import opened Base
  import opened Events
  import opened FilterSpec
  import Memory
  import Packing
  import TracerSpec
  import TracerTheorems

  const SYS_EXECVEAT := 322

  /** Some argument that really is an fd, by its position, is watched. */
  predicate HasWatchedFD(cfg: Config, p: Proc, args: TracerSpec.Args, fds: set<nat>)
  {
    exists i :: 0 <= i < 6 && i in fds && Watched(cfg, p, Low32(args[i]))
  }

  /** The positions the argument table tags as fds. */
  function FDSlots(tcfg: TracerSpec.Config, id: I64): set<nat>
  {
    var schema := TracerSpec.SchemaOf(tcfg.schemas, id);
    set i: nat | i < 6 && i < schema.argCount && schema.argTypes[i] == ARG_FD
  }

  /** The arguments whose tag the tracer may replace when it captures them. */
  function CapturedArgs(id: I64): set<nat>
  {
    if id in {SYS_OPEN, SYS_ACCESS, SYS_CHDIR, SYS_UNLINK} then {0}
    else if id in {SYS_OPENAT, SYS_OPENAT2, SYS_FACCESSAT, SYS_FACCESSAT2, SYS_UNLINKAT, SYS_FSTAT} then {1}
    else if id in {SYS_STAT, SYS_LSTAT, SYS_RENAME} then {0, 1}
    else if id == SYS_NEWFSTATAT then {1, 2}
    else if id == SYS_STATX then {1, 4}
    else if id in {SYS_RENAMEAT, SYS_RENAMEAT2} then {1, 3}
    else {}
  }

  /** Capturing changes the tags of captured arguments only, and never to the fd tag. */
  lemma EventTags(tcfg: TracerSpec.Config, call: TracerSpec.SyscallData, snap: Option<TracerSpec.Snapshot>, s: TracerSpec.Step, i: nat)
    requires s.Exit? && i < 6
    ensures var ev, schema := TracerSpec.EventFor(tcfg, call, snap, s), TracerSpec.SchemaOf(tcfg.schemas, call.id);
            && ev.argCount == schema.argCount && ev.args == call.args && ev.id == call.id
            && (i !in CapturedArgs(call.id) ==> ev.argTypes[i] == schema.argTypes[i])
            && (ev.argTypes[i] == ARG_FD ==> schema.argTypes[i] == ARG_FD)
  {
    var types := TracerSpec.SchemaOf(tcfg.schemas, call.id).argTypes;
    CapturedTags(types, call.id, s.ret, call.args, s.mem, i);
    hide TracerSpec.Captured, TracerSpec.IsProcessClone;
  }

  lemma CapturedTags(types: seq<U8>, id: I64, ret: I64, args: TracerSpec.Args, mem: Memory.Mem, i: nat)
    requires |types| == 6 && i < 6
    ensures var r := TracerSpec.Captured(types, id, ret, args, mem).types;
            && (i !in CapturedArgs(id) ==> r[i] == types[i])
            && (r[i] == types[i] || r[i] == VAR_ARG_STRING || r[i] == VAR_ARG_BYTES)
  {
    hide Packing.AppendVarString, Packing.AppendVarBytes;
  }

  /** A captured path has the tag of a string, and a captured result that of bytes, whatever the table says. */
  lemma CapturedTagged(tcfg: TracerSpec.Config, call: TracerSpec.SyscallData, snap: Option<TracerSpec.Snapshot>, s: TracerSpec.Step)
    requires s.Exit?
    ensures var ev := TracerSpec.EventFor(tcfg, call, snap, s);
            && (forall i :: i in PathArgs(call.id) ==> i < 6 && ev.argTypes[i] == 1)
            && (s.ret >= 0 && call.id in {SYS_FSTAT, SYS_STAT, SYS_LSTAT} ==> ev.argTypes[1] == 2)
            && (s.ret >= 0 && call.id == SYS_NEWFSTATAT ==> ev.argTypes[2] == 2)
            && (s.ret >= 0 && call.id == SYS_STATX ==> ev.argTypes[4] == 2)
  {
    hide Packing.AppendVarString, Packing.AppendVarBytes, TracerSpec.IsProcessClone, TracerSpec.SchemaOf;
  }

  /** The tag-based decision about an event the tracer emits is the question about its fds, if the table's fd tags are. */
  lemma TagsAsk(cfg: Config, p: Proc, tcfg: TracerSpec.Config, call: TracerSpec.SyscallData,
                snap: Option<TracerSpec.Snapshot>, s: TracerSpec.Step)
    requires s.Exit? && FDSlots(tcfg, call.id) !! CapturedArgs(call.id)
    ensures HasWatchedArg(cfg, p, TracerSpec.EventFor(tcfg, call, snap, s)) <==> HasWatchedFD(cfg, p, call.args, FDSlots(tcfg, call.id))
  {
    hide TracerSpec.EventFor, TracerSpec.SchemaOf, Watched;
    var ev, slots := TracerSpec.EventFor(tcfg, call, snap, s), FDSlots(tcfg, call.id);
    forall i | 0 <= i < 6 ensures WatchedArg(cfg, p, ev, i) <==> i in slots && Watched(cfg, p, Low32(call.args[i])) {
      EventTags(tcfg, call, snap, s, i);
    }
  }

  /** The decision is right for every emitted event of the call, in every state of the filter. */
  ghost predicate AlwaysRight(cfg: Config, tcfg: TracerSpec.Config, id: I64, fds: set<nat>)
  {
    forall p: Proc, call: TracerSpec.SyscallData, snap: Option<TracerSpec.Snapshot>, s: TracerSpec.Step | call.id == id && s.Exit? ::
      HasWatchedArg(cfg, p, TracerSpec.EventFor(tcfg, call, snap, s)) <==> HasWatchedFD(cfg, p, call.args, fds)
  }

  /** A call whose arguments are 0 to 5, and a process that has a watched path at fd i only. */
  function Probing(id: I64): TracerSpec.SyscallData
  {
    TracerSpec.SyscallData(0, id, [0, 1, 2, 3, 4, 5], 1, true)
  }

  function KnowsOnly(i: nat, path: Bytes): Proc
    requires i < 6
  {
    Proc([], map[i := path])
  }

  lemma ProbeTells(cfg: Config, i: nat, path: Bytes, fds: set<nat>)
    requires i < 6 && path in cfg.paths
    ensures HasWatchedFD(cfg, KnowsOnly(i, path), Probing(0).args, fds) <==> i in fds
  {
    var args, p := Probing(0).args, KnowsOnly(i, path);
    assert args[i] == i;
    assert forall k :: 0 <= k < 6 ==> Low32(args[k]) == k;
    assert Watched(cfg, p, Low32(args[i]));
  }

  /**
   The tag-based decision is right exactly if the table's fd tags for the call are at
   its fds and nowhere else.
   */
  lemma DecidedRightExactly(cfg: Config, tcfg: TracerSpec.Config, id: I64, fds: set<nat>)
    requires cfg.paths != {} && FDSlots(tcfg, id) !! CapturedArgs(id) && forall i :: i in fds ==> i < 6
    ensures AlwaysRight(cfg, tcfg, id, fds) <==> FDSlots(tcfg, id) == fds
  {
    hide HasWatchedFD, HasWatchedArg, TracerSpec.EventFor, FDSlots;
    if FDSlots(tcfg, id) == fds {
      forall p: Proc, call: TracerSpec.SyscallData, snap: Option<TracerSpec.Snapshot>, s: TracerSpec.Step | call.id == id && s.Exit?
        ensures HasWatchedArg(cfg, p, TracerSpec.EventFor(tcfg, call, snap, s)) <==> HasWatchedFD(cfg, p, call.args, fds)
      {
        TagsAsk(cfg, p, tcfg, call, snap, s);
      }
    }
    if AlwaysRight(cfg, tcfg, id, fds) {
      var path :| path in cfg.paths;
      var call, s := Probing(id), TracerSpec.Exit(1, 1, 0, 0, map[], true);
      forall i: nat | i < 6 ensures i in FDSlots(tcfg, id) <==> i in fds {
        TagsAsk(cfg, KnowsOnly(i, path), tcfg, call, None, s);
        ProbeTells(cfg, i, path, fds);
        ProbeTells(cfg, i, path, FDSlots(tcfg, id));
      }
      SlotsAreSmall(tcfg, id);
    }
  }

  lemma SlotsAreSmall(tcfg: TracerSpec.Config, id: I64)
    ensures forall i :: i in FDSlots(tcfg, id) ==> i < 6
  {
  }

  // ---------------------------------------------------------------------
  // The two calls with argument vectors

  const EXECVE_SCHEMA: TracerSpec.Schema :=
    TracerSpec.Schema(3, [VAR_ARG_STRING, VAR_ARG_ARGV, VAR_ARG_ARGV, ARG_NONE, ARG_NONE, ARG_NONE])

  const EXECVEAT_SCHEMA: TracerSpec.Schema :=
    TracerSpec.Schema(5, [ARG_FD, VAR_ARG_STRING, VAR_ARG_ARGV, VAR_ARG_ARGV, ARG_INT, ARG_NONE])

  /** The generated table's entries for them. */
  predicate TableHasExecs(tcfg: TracerSpec.Config)
  {
    && SYS_EXECVE in tcfg.schemas && tcfg.schemas[SYS_EXECVE] == EXECVE_SCHEMA
    && SYS_EXECVEAT in tcfg.schemas && tcfg.schemas[SYS_EXECVEAT] == EXECVEAT_SCHEMA
  }

  lemma ExecSlots(tcfg: TracerSpec.Config)
    requires TableHasExecs(tcfg)
    ensures FDSlots(tcfg, SYS_EXECVE) == {1, 2} && FDSlots(tcfg, SYS_EXECVEAT) == {0, 2, 3}
  {
    var t, u := EXECVE_SCHEMA.argTypes, EXECVEAT_SCHEMA.argTypes;
    assert t[0] != ARG_FD && t[1] == ARG_FD && t[2] == ARG_FD;
    assert u[0] == ARG_FD && u[1] != ARG_FD && u[2] == ARG_FD && u[3] == ARG_FD && u[4] != ARG_FD;
  }

  /** execve has no fds and execveat one: neither is always decided right. */
  lemma ExecsDecidedWrong(cfg: Config, tcfg: TracerSpec.Config)
    requires cfg.paths != {} && TableHasExecs(tcfg)
    ensures !AlwaysRight(cfg, tcfg, SYS_EXECVE, {}) && !AlwaysRight(cfg, tcfg, SYS_EXECVEAT, {0})
  {
    ExecSlots(tcfg);
    DecidedRightExactly(cfg, tcfg, SYS_EXECVE, {});
    DecidedRightExactly(cfg, tcfg, SYS_EXECVEAT, {0});
    assert 1 in FDSlots(tcfg, SYS_EXECVE) && 2 in FDSlots(tcfg, SYS_EXECVEAT);
  }

  /** What a call without path arguments is printed for. */
  lemma ShownByFDs(cfg: Config, fs: ProcFS, w: World, ev: Event)
    requires cfg.paths != {} && PathArgs(ev.id) == []
    ensures Step(cfg, fs, w, ev).shown <==> UserAllows(cfg, ev.id) && HasWatchedArg(cfg, Get(w.procs, ev.pid), ev)
  {
  }

  /**
   Exactly when an execve is printed: if the low words of its argv and envp pointers,
   read as fds, are watched.  An execveat: those, or its directory fd.
   */
  lemma ExecsShown(cfg: Config, fs: ProcFS, w: World, tcfg: TracerSpec.Config, call: TracerSpec.SyscallData,
                   snap: Option<TracerSpec.Snapshot>, s: TracerSpec.Step)
    requires cfg.paths != {} && TableHasExecs(tcfg) && s.Exit?
    ensures var p := Get(w.procs, s.tgid);
            var shown := Step(cfg, fs, w, TracerSpec.EventFor(tcfg, call, snap, s)).shown;
            && (call.id == SYS_EXECVE ==>
                (shown <==> UserAllows(cfg, call.id) &&
                            (Watched(cfg, p, Low32(call.args[1])) || Watched(cfg, p, Low32(call.args[2])))))
            && (call.id == SYS_EXECVEAT ==>
                (shown <==> UserAllows(cfg, call.id) &&
                            (Watched(cfg, p, Low32(call.args[0])) || Watched(cfg, p, Low32(call.args[2])) ||
                             Watched(cfg, p, Low32(call.args[3])))))
  {
    hide TracerSpec.EventFor, Step, HasWatchedArg, Watched, FDSlots;
    if call.id == SYS_EXECVE || call.id == SYS_EXECVEAT {
      var ev, p := TracerSpec.EventFor(tcfg, call, snap, s), Get(w.procs, s.tgid);
      ExecSlots(tcfg);
      TracerTheorems.EventHeader(tcfg, call, snap, s);
      ShownByFDs(cfg, fs, w, ev);
      TagsAsk(cfg, p, tcfg, call, snap, s);
    }
  }

  /** A process that replaced itself with no environment, and has a watched path open as fd 0. */
  lemma ExecveAsksAboutStdin(cfg: Config, fs: ProcFS, w: World, tcfg: TracerSpec.Config, call: TracerSpec.SyscallData,
                             snap: Option<TracerSpec.Snapshot>, s: TracerSpec.Step)
    requires cfg.paths != {} && UserAllows(cfg, SYS_EXECVE) && TableHasExecs(tcfg) && s.Exit?
    requires call.id == SYS_EXECVE && call.args[2] == 0 && Watched(cfg, Get(w.procs, s.tgid), 0)
    ensures Step(cfg, fs, w, TracerSpec.EventFor(tcfg, call, snap, s)).shown
    ensures !HasWatchedFD(cfg, Get(w.procs, s.tgid), call.args, {})
  {
    ExecsShown(cfg, fs, w, tcfg, call, snap, s);
  }
}
