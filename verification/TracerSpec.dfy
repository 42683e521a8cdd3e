/**
 The kernel-side tracer as a step machine: what each hook does to the tracer's
 maps, and which event it emits.  A hook runs as one step; threads interleave.
 */
module TracerSpec {
  import opened Base
  import opened Events
  import opened Memory
  import opened Packing

  const SIZEOF_STAT := 144
  const SIZEOF_STATX := 256

  type Args = a: seq<U64> | |a| == 6 witness [0, 0, 0, 0, 0, 0]

  datatype ArgSchema = Schema(argCount: U8, argTypes: seq<U8>)

  type Schema = a: ArgSchema | |a.argTypes| == 6 witness Schema(0, [0, 0, 0, 0, 0, 0])

  /** The generated argument table; system calls it does not know have six raw arguments. */
  function SchemaOf(schemas: map<I64, Schema>, id: I64): Schema
  {
    if id in schemas then schemas[id]
    else Schema(6, [ARG_RAW, ARG_RAW, ARG_RAW, ARG_RAW, ARG_RAW, ARG_RAW])
  }

  /** The constants and the selector map set before loading. */
  datatype Config = Config(followForks: bool, filterEnabled: bool, selectors: set<U32>, schemas: map<I64, Schema>)

  /** An entered, not yet finished system call. */
  datatype SyscallData = SyscallData(ts: U64, id: I64, args: Args, seqno: U32, selected: bool)

  type Snapshot = p: Packed | SnapshotShape(p) ghost witness NoSnapshot()

  datatype Maps = Maps(
    targets: set<U32>,
    inflight: map<U32, SyscallData>,
    snapshots: map<U32, Snapshot>,
    sequences: map<U32, U32>
  )

  /**
   One hook running for thread tid of process tgid, or the eviction of an entry
   from one of the bounded maps.
   */
  datatype Step =
    | Enter(tgid: U32, tid: U32, now: U64, id: I64, args: Args, mem: Mem)
    | Exit(tgid: U32, tid: U32, now: U64, ret: I64, mem: Mem, reserved: bool)
    | ProcessExit(tgid: U32, tid: U32)
    | EvictInflight(tid: U32)
    | EvictSnapshot(tid: U32)
    | EvictSequence(tid: U32)

  /** Clone flags with CLONE_THREAD (0x10000) set. */
  predicate MakesThread(flags: U64)
  {
    flags / 0x10000 % 2 == 1
  }

  /** Does this system call make a process rather than a thread?  Unknown counts as yes. */
  predicate IsProcessClone(mem: Mem, id: I64, arg0: U64)
  {
    if id == SYS_FORK || id == SYS_VFORK then true
    else if id == SYS_CLONE then !MakesThread(arg0)
    else if id == SYS_CLONE3 then
      match ReadWord(mem, arg0)
      case None => true
      case Some(flags) => !MakesThread(flags)
    else false
  }

  predicate ShouldTrackUnselected(cfg: Config, mem: Mem, id: I64)
  {
    cfg.followForks && IsProcessClone(mem, id, 0)
  }

  predicate IsSelected(cfg: Config, id: I64)
  {
    !cfg.filterEnabled || Low32(id) in cfg.selectors
  }

  /** The number last given to a call of the thread. */
  function Given(m: Maps, tid: U32): nat
  {
    if tid in m.sequences then m.sequences[tid] else 0
  }

  function NextSequence(m: Maps, tid: U32): U32
  {
    if tid in m.sequences then
      var previous: int := m.sequences[tid];
      Low32(previous + 1)
    else 1
  }

  /** The call is recorded, under its number. */
  function Entered(m: Maps, s: Step, number: U32, selected: bool): Maps
    requires s.Enter?
  {
    m.(sequences := m.sequences[s.tid := number],
       inflight := m.inflight[s.tid := SyscallData(s.now, s.id, s.args, number, selected)],
       snapshots := if s.id != SYS_EXECVE then m.snapshots
                    else m.snapshots[s.tid := ExecveSnapshot(s.mem, s.args[0], s.args[1])])
  }

  function OnEnter(cfg: Config, m: Maps, s: Step): Maps
    requires s.Enter?
  {
    var selected := IsSelected(cfg, s.id);
    if s.tgid !in m.targets then m
    else if !selected && !ShouldTrackUnselected(cfg, s.mem, s.id) then m
    else Entered(m, s, NextSequence(m, s.tid), selected)
  }

  // ---------------------------------------------------------------------
  // The event built at the end of a call

  /** The captured arguments so far, and the argument tags. */
  datatype Capture = Capture(vars: Packed, types: seq<U8>)

  predicate Ready(c: Capture)
  {
    EventShape(c.vars) && |c.types| == 6
  }

  function WithString(c: Capture, i: nat, args: Args, mem: Mem): (r: Capture)
    requires Ready(c) && i < 6
    ensures Ready(r)
  {
    Capture(AppendVarString(c.vars, i, mem, args[i]), c.types[i := VAR_ARG_STRING])
  }

  function WithBytes(c: Capture, i: nat, args: Args, mem: Mem, size: U64): (r: Capture)
    requires Ready(c) && i < 6
    ensures Ready(r)
  {
    Capture(AppendVarBytes(c.vars, i, mem, args[i], size), c.types[i := VAR_ARG_BYTES])
  }

  /** The paths of opening and looking. */
  function LookPaths(c: Capture, id: I64, args: Args, mem: Mem): (r: Capture)
    requires Ready(c)
    ensures Ready(r)
  {
    if id in {SYS_OPEN, SYS_ACCESS, SYS_STAT, SYS_LSTAT} then WithString(c, 0, args, mem)
    else if id in {SYS_OPENAT, SYS_OPENAT2, SYS_NEWFSTATAT, SYS_FACCESSAT, SYS_STATX, SYS_FACCESSAT2} then WithString(c, 1, args, mem)
    else c
  }

  /** The result buffers of a successful stat call. */
  function StatBuffers(c: Capture, id: I64, ret: I64, args: Args, mem: Mem): (r: Capture)
    requires Ready(c)
    ensures Ready(r)
  {
    if ret < 0 then c
    else if id in {SYS_FSTAT, SYS_STAT, SYS_LSTAT} then WithBytes(c, 1, args, mem, SIZEOF_STAT)
    else if id == SYS_NEWFSTATAT then WithBytes(c, 2, args, mem, SIZEOF_STAT)
    else if id == SYS_STATX then WithBytes(c, 4, args, mem, SIZEOF_STATX)
    else c
  }

  /** The paths of changing directory, removing and renaming. */
  function ChangePaths(c: Capture, id: I64, args: Args, mem: Mem): (r: Capture)
    requires Ready(c)
    ensures Ready(r)
  {
    if id in {SYS_CHDIR, SYS_UNLINK} then WithString(c, 0, args, mem)
    else if id == SYS_UNLINKAT then WithString(c, 1, args, mem)
    else if id == SYS_RENAME then WithString(WithString(c, 0, args, mem), 1, args, mem)
    else if id in {SYS_RENAMEAT, SYS_RENAMEAT2} then WithString(WithString(c, 1, args, mem), 3, args, mem)
    else c
  }

  /** The data written or read; the schema has these tags already. */
  function TransferData(c: Capture, id: I64, ret: I64, args: Args, mem: Mem): (r: Capture)
    requires Ready(c)
    ensures Ready(r)
  {
    if id == SYS_WRITE then c.(vars := AppendVarBytes(c.vars, 1, mem, args[1], args[2]))
    else if id == SYS_READ && ret >= 0 then c.(vars := AppendVarBytes(c.vars, 1, mem, args[1], ret))
    else c
  }

  /** Everything but execve's arguments, group by group. */
  function Captured(types: seq<U8>, id: I64, ret: I64, args: Args, mem: Mem): (r: Capture)
    requires |types| == 6
    ensures Ready(r)
  {
    var looked := LookPaths(Capture(NoVars(), types), id, args, mem);
    var buffered := StatBuffers(looked, id, ret, args, mem);
    TransferData(ChangePaths(buffered, id, args, mem), id, ret, args, mem)
  }

  /** execve's arguments when its snapshot is gone. */
  function LostSnapshot(): (p: Packed)
    ensures EventShape(p)
  {
    NoVars().(descs := NoVars().descs[0 := VarArgDesc(0, VAR_FLAG_READ_ERROR, 0, 0)][1 := VarArgDesc(1, VAR_FLAG_READ_ERROR, 0, 0)],
              varCount := 2)
  }

  /** The event without its captured arguments. */
  function Header(cfg: Config, call: SyscallData, s: Step, types: seq<U8>): Event
    requires s.Exit? && |types| == 6
  {
    var clone := s.ret > 0 && IsProcessClone(s.mem, call.id, call.args[0]);
    var empty := NoVars();
    Event(call.ts, Elapsed(s.now, call.ts), call.id, s.ret, call.args, empty.descs, empty.payload,
          s.tgid, s.tid, call.seqno, 0, SchemaOf(cfg.schemas, call.id).argCount, 0, types,
          if clone then EVENT_FLAG_PROCESS_CLONE else 0)
  }

  function EventFor(cfg: Config, call: SyscallData, snap: Option<Snapshot>, s: Step): Event
    requires s.Exit?
  {
    var c := Captured(SchemaOf(cfg.schemas, call.id).argTypes, call.id, s.ret, call.args, s.mem);
    var header := Header(cfg, call, s, c.types);
    if call.id != SYS_EXECVE then WithVars(header, c.vars)
    else if snap.Some? then WithSnapshot(header, snap.value)
    else WithVars(header, LostSnapshot())
  }

  datatype Exited = Exited(maps: Maps, event: Option<Event>)

  function LookupSnapshot(m: Maps, tid: U32): Option<Snapshot>
  {
    if tid in m.snapshots then Some(m.snapshots[tid]) else None
  }

  function CleanUp(m: Maps, tid: U32): Maps
  {
    m.(inflight := m.inflight - {tid}, snapshots := m.snapshots - {tid}, sequences := m.sequences - {tid})
  }

  function TrackChild(cfg: Config, m: Maps, call: SyscallData, ret: I64, mem: Mem): Maps
  {
    if ret > 0 && IsProcessClone(mem, call.id, call.args[0]) && cfg.followForks
    then m.(targets := m.targets + {Low32(ret)}) else m
  }

  function OnExit(cfg: Config, m: Maps, s: Step): Exited
    requires s.Exit?
  {
    if s.tgid !in m.targets || s.tid !in m.inflight then Exited(m, None)
    else
      var call := m.inflight[s.tid];
      var m1 := TrackChild(cfg, m, call, s.ret, s.mem);
      if !call.selected then Exited(m1.(inflight := m1.inflight - {s.tid}), None)
      else if !s.reserved then Exited(m1, None)
      else
        var ev := EventFor(cfg, call, LookupSnapshot(m1, s.tid), s);
        var m2 := m1.(inflight := m1.inflight - {s.tid},
                      snapshots := if call.id == SYS_EXECVE then m1.snapshots - {s.tid} else m1.snapshots);
        var m3 := if call.id == SYS_EXIT || call.id == SYS_EXIT_GROUP then CleanUp(m2, s.tid) else m2;
        var m4 := if call.id == SYS_EXIT_GROUP then m3.(targets := m3.targets - {s.tgid}) else m3;
        Exited(m4, Some(ev))
  }

  function OnProcessExit(m: Maps, s: Step): Maps
    requires s.ProcessExit?
  {
    if s.tgid !in m.targets then m
    else
      var m1 := CleanUp(m, s.tid);
      if s.tid == s.tgid then m1.(targets := m1.targets - {s.tgid}) else m1
  }

  function Apply(cfg: Config, m: Maps, s: Step): Exited
  {
    match s
    case Enter(_, _, _, _, _, _) => Exited(OnEnter(cfg, m, s), None)
    case Exit(_, _, _, _, _, _) => OnExit(cfg, m, s)
    case ProcessExit(_, _) => Exited(OnProcessExit(m, s), None)
    case EvictInflight(tid) => Exited(m.(inflight := m.inflight - {tid}), None)
    case EvictSnapshot(tid) => Exited(m.(snapshots := m.snapshots - {tid}), None)
    case EvictSequence(tid) => Exited(m.(sequences := m.sequences - {tid}), None)
  }

  function Initial(targets: set<U32>): Maps
  {
    Maps(targets, map[], map[], map[])
  }

  /** Zero or one event as a sequence. */
  function AsSeq(ev: Option<Event>): seq<Event>
  {
    if ev.None? then [] else [ev.value]
  }

  datatype Traced = Traced(maps: Maps, events: seq<Event>)

  function Run(cfg: Config, m: Maps, steps: seq<Step>): Traced
    decreases |steps|
  {
    if steps == [] then Traced(m, [])
    else
      var r := Apply(cfg, m, steps[0]);
      var rest := Run(cfg, r.maps, steps[1..]);
      rest.(events := AsSeq(r.event) + rest.events)
  }
}
