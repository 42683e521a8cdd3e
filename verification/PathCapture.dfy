/** Events carry what the process passed: the paths the filter asks for, and the bytes a call moved. */
module PathCapture {
  import opened Base
  import opened Events
  import opened Memory
  import opened Packing
  import opened RoundTrips
  import TracerSpec
  import FilterSpec

  /** Argument i of the event is the process's string s, if it is short enough for a slot. */
  ghost predicate Reaches(ev: Event, i: nat, mem: Mem, ptr: U64, s: Bytes)
  {
    EventTracePathAt(ev, i) == Some(s) <==> StringAt(mem, ptr, s) && |s| <= 254
  }

  /** A result buffer captured behind a path leaves the path alone. */
  lemma PathBeforeBuffer(base: Event, i: U8, j: U8, mem: Mem, first: U64, second: U64, size: U64, s: Bytes)
    ensures Reaches(WithVars(base, AppendVarBytes(AppendVarString(NoVars(), i, mem, first), j, mem, second, size)), i, mem, first, s)
  {
    hide Scan, ReadBytes;
    var p := AppendVarString(NoVars(), i, mem, first);
    OnePathRoundTrip(base, i, mem, first, s);
    SecondSlotApart(p, j, mem, second, size);
    FirstUndisturbed(base, p, AppendVarBytes(p, j, mem, second, size), i);
  }

  /** A path alone, or followed by a result buffer. */
  lemma LookedPath(base: Event, types: seq<U8>, id: I64, ret: I64, args: TracerSpec.Args, mem: Mem, i: nat, s: Bytes)
    requires |types| == 6 && i < 6 && id !in {SYS_RENAME, SYS_RENAMEAT, SYS_RENAMEAT2} && i in FilterSpec.PathArgs(id)
    ensures Reaches(WithVars(base, TracerSpec.Captured(types, id, ret, args, mem).vars), i, mem, args[i], s)
  {
    hide AppendVarString, AppendVarBytes, Reaches;
    assert FilterSpec.PathArgs(id) == [i];
    assert Reaches(WithVars(base, AppendVarString(NoVars(), i, mem, args[i])), i, mem, args[i], s) by {
      Alone(base, i, mem, args[i], s);
    }
    PathBeforeBuffer(base, i, 1, mem, args[i], args[1], TracerSpec.SIZEOF_STAT, s);
    PathBeforeBuffer(base, i, 2, mem, args[i], args[2], TracerSpec.SIZEOF_STAT, s);
    PathBeforeBuffer(base, i, 4, mem, args[i], args[4], TracerSpec.SIZEOF_STATX, s);
  }

  lemma Alone(base: Event, i: U8, mem: Mem, ptr: U64, s: Bytes)
    ensures Reaches(WithVars(base, AppendVarString(NoVars(), i, mem, ptr)), i, mem, ptr, s)
  {
    OnePathRoundTrip(base, i, mem, ptr, s);
  }

  /** Both paths of a rename. */
  lemma RenamedPaths(base: Event, types: seq<U8>, id: I64, ret: I64, args: TracerSpec.Args, mem: Mem, i: nat, s: Bytes)
    requires |types| == 6 && i < 6 && id in {SYS_RENAME, SYS_RENAMEAT, SYS_RENAMEAT2} && i in FilterSpec.PathArgs(id)
    ensures Reaches(WithVars(base, TracerSpec.Captured(types, id, ret, args, mem).vars), i, mem, args[i], s)
  {
    hide AppendVarString, AppendVarBytes;
    TwoPathsRoundTrip(base, 0, 1, mem, args[0], args[1], s);
    TwoPathsRoundTrip(base, 1, 3, mem, args[1], args[3], s);
  }

  /**
   For every path argument the filter resolves, the event of a finished call
   carries the process's own string, exactly if it has at most 254 bytes.
   */
  lemma PathArgumentsReachTheFilter(cfg: TracerSpec.Config, call: TracerSpec.SyscallData, snap: Option<TracerSpec.Snapshot>,
                                    step: TracerSpec.Step, i: nat, s: Bytes)
    requires step.Exit? && i < 6 && i in FilterSpec.PathArgs(call.id)
    ensures Reaches(TracerSpec.EventFor(cfg, call, snap, step), i, step.mem, call.args[i], s)
  {
    hide Reaches, TracerSpec.Captured;
    var types := TracerSpec.SchemaOf(cfg.schemas, call.id).argTypes;
    var c := TracerSpec.Captured(types, call.id, step.ret, call.args, step.mem);
    var header := TracerSpec.Header(cfg, call, step, c.types);
    assert call.id != SYS_EXECVE;
    if call.id in {SYS_RENAME, SYS_RENAMEAT, SYS_RENAMEAT2} {
      RenamedPaths(header, types, call.id, step.ret, call.args, step.mem, i, s);
    } else {
      LookedPath(header, types, call.id, step.ret, call.args, step.mem, i, s);
    }
  }

  // ---------------------------------------------------------------------
  // Bytes moved by a call

  /** The bytes argument of a finished call and its size: data written, data read, or a result. */
  function BufferOf(id: I64, ret: I64, args: TracerSpec.Args): Option<(U8, U64)>
  {
    if id == SYS_WRITE then Some((1, args[2]))
    else if ret < 0 then None
    else if id == SYS_READ then Some((1, ret))
    else if id in {SYS_FSTAT, SYS_STAT, SYS_LSTAT} then Some((1, 144))
    else if id == SYS_NEWFSTATAT then Some((2, 144))
    else if id == SYS_STATX then Some((4, 256))
    else None
  }

  /** The argument is shown as NULL, as unknown, or by its first 256 bytes, marked as cut if there are more. */
  ghost predicate ShowsBytes(ev: Event, i: U8, mem: Mem, ptr: U64, size: U64)
  {
    ShownArg(ev, i) ==
    Some(if ptr == 0 then NullShown
         else match ReadBytes(mem, ptr, Min(GENERIC_VAR_SLOT_SIZE, size))
           case None => UnknownShown
           case Some(data) => Quoted(data, size > GENERIC_VAR_SLOT_SIZE))
  }

  lemma BufferAlone(base: Event, i: U8, mem: Mem, ptr: U64, size: U64)
    ensures ShowsBytes(WithVars(base, AppendVarBytes(NoVars(), i, mem, ptr, size)), i, mem, ptr, size)
  {
    BytesShown(base, NoVars(), i, mem, ptr, size);
  }

  lemma BufferBehindPath(base: Event, i: U8, j: U8, mem: Mem, first: U64, ptr: U64, size: U64)
    requires i != j && size > 0
    ensures ShowsBytes(WithVars(base, AppendVarBytes(AppendVarString(NoVars(), i, mem, first), j, mem, ptr, size)), j, mem, ptr, size)
  {
    hide Scan, ReadBytes;
    OnePathAppended(i, mem, first);
    BytesShown(base, AppendVarString(NoVars(), i, mem, first), j, mem, ptr, size);
  }

  lemma OnePathAppended(i: U8, mem: Mem, ptr: U64)
    ensures var p := AppendVarString(NoVars(), i, mem, ptr); p.varCount == 1 && p.descs[0].argIndex == i
  {
    hide Scan;
  }

  lemma CapturedBuffer(base: Event, types: seq<U8>, id: I64, ret: I64, args: TracerSpec.Args, mem: Mem)
    requires |types| == 6 && BufferOf(id, ret, args).Some?
    ensures var (i, size) := BufferOf(id, ret, args).value;
            ShowsBytes(WithVars(base, TracerSpec.Captured(types, id, ret, args, mem).vars), i, mem, args[i], size)
  {
    hide AppendVarString, AppendVarBytes, ShowsBytes;
    var (i, size) := BufferOf(id, ret, args).value;
    BufferAlone(base, i, mem, args[i], size);
    if id in {SYS_STAT, SYS_LSTAT} {
      BufferBehindPath(base, 0, i, mem, args[0], args[i], size);
    } else if id in {SYS_NEWFSTATAT, SYS_STATX} {
      BufferBehindPath(base, 1, i, mem, args[1], args[i], size);
    }
  }

  /**
   The event of a write, of a successful read and of a successful stat call shows the
   bytes in the process's memory: all of them, or the first 256.
   */
  lemma MovedBytesAreShown(cfg: TracerSpec.Config, call: TracerSpec.SyscallData, snap: Option<TracerSpec.Snapshot>, step: TracerSpec.Step)
    requires step.Exit? && BufferOf(call.id, step.ret, call.args).Some?
    ensures var (i, size) := BufferOf(call.id, step.ret, call.args).value;
            ShowsBytes(TracerSpec.EventFor(cfg, call, snap, step), i, step.mem, call.args[i], size)
  {
    hide ShowsBytes, TracerSpec.Captured;
    var types := TracerSpec.SchemaOf(cfg.schemas, call.id).argTypes;
    var c := TracerSpec.Captured(types, call.id, step.ret, call.args, step.mem);
    assert call.id != SYS_EXECVE;
    CapturedBuffer(TracerSpec.Header(cfg, call, step, c.types), types, call.id, step.ret, call.args, step.mem);
  }

  /** What is captured of a finished call other than execve: its paths and its buffer, in this order. */
  function CapturedArguments(id: I64, ret: I64, args: TracerSpec.Args): seq<nat>
  {
    FilterSpec.PathArgs(id) + match BufferOf(id, ret, args) { case None => [] case Some(b) => [b.0] }
  }

  /** r has one descriptor more, for argument i. */
  predicate Adds(p: Packed, r: Packed, i: U8)
    requires EventShape(p) && EventShape(r)
  {
    p.varCount < 2 && r.varCount == p.varCount + 1 && r.descs[p.varCount].argIndex == i && (p.varCount == 1 ==> r.descs[0] == p.descs[0])
  }

  lemma AppendsAdd(p: Packed, i: U8, mem: Mem, ptr: U64, size: U64)
    requires EventShape(p) && p.varCount < 2
    ensures Adds(p, AppendVarString(p, i, mem, ptr), i) && Adds(p, AppendVarBytes(p, i, mem, ptr, size), i)
  {
    hide Scan, ReadBytes, Splice;
  }

  lemma CapturedDescs(types: seq<U8>, id: I64, ret: I64, args: TracerSpec.Args, mem: Mem)
    requires |types| == 6
    ensures var p := TracerSpec.Captured(types, id, ret, args, mem).vars;
            var wanted := CapturedArguments(id, ret, args);
            p.varCount == |wanted| && forall k :: 0 <= k < |wanted| ==> p.descs[k].argIndex == wanted[k]
  {
    hide AppendVarString, AppendVarBytes;
    forall p: Packed, i: U8, ptr: U64 | EventShape(p) && p.varCount < 2 ensures Adds(p, AppendVarString(p, i, mem, ptr), i) {
      AppendsAdd(p, i, mem, ptr, 0);
    }
    forall p: Packed, i: U8, ptr: U64, size: U64 | EventShape(p) && p.varCount < 2
      ensures Adds(p, AppendVarBytes(p, i, mem, ptr, size), i)
    {
      AppendsAdd(p, i, mem, ptr, size);
    }
  }

  /** Nothing else is captured: exactly these arguments have a descriptor. */
  lemma NothingElseIsCaptured(cfg: TracerSpec.Config, call: TracerSpec.SyscallData, snap: Option<TracerSpec.Snapshot>,
                              step: TracerSpec.Step, i: nat)
    requires step.Exit? && call.id != SYS_EXECVE
    ensures FirstDesc(TracerSpec.EventFor(cfg, call, snap, step), i).Some? <==>
            i in CapturedArguments(call.id, step.ret, call.args)
  {
    hide TracerSpec.Captured, CapturedArguments;
    var types := TracerSpec.SchemaOf(cfg.schemas, call.id).argTypes;
    var c := TracerSpec.Captured(types, call.id, step.ret, call.args, step.mem);
    CapturedDescs(types, call.id, step.ret, call.args, step.mem);
    var ev := TracerSpec.EventFor(cfg, call, snap, step);
    assert ev.varCount == c.vars.varCount && ev.varDesc == c.vars.descs;
    AtMostTwo(call.id, step.ret, call.args);
    assert FirstDesc(ev, i) == if ev.varCount >= 1 && ev.varDesc[0].argIndex == i then Some(ev.varDesc[0])
                               else if ev.varCount >= 2 then FirstDesc(ev, i, 1) else None;
  }

  lemma AtMostTwo(id: I64, ret: I64, args: TracerSpec.Args)
    ensures |CapturedArguments(id, ret, args)| <= 2
  {
  }
}
