/**
 Packing captured arguments into an event's payload.  A generic argument goes
 into one of two 256-byte slots; execve's file name and argv share a 256-byte
 snapshot.  The buffer and the cursor arithmetic are the tracer's.
 */
module Packing {
  import opened Base
  import opened Events
  import opened Memory

  const GENERIC_VAR_SLOT_SIZE := 256
  const MAX_EXECVE_ARGV := 8
  const MAX_EXECVE_ARG_STR := 128
  const MAX_EXECVE_STATE_VARS := 2
  const MAX_EXECVE_STATE_PAYLOAD := 256
  const EFAULT := -14

  /** The part of an event, or of an execve snapshot, that holds captured arguments. */
  datatype Packed = Packed(payload: Bytes, descs: seq<VarArgDesc>, payloadLen: U16, varCount: U8)

  /** Room for two generic slots, as in an event. */
  predicate EventShape(p: Packed)
  {
    |p.payload| == MAX_VAR_PAYLOAD && |p.descs| == MAX_VAR_ARGS && p.varCount < 0xff
  }

  predicate SnapshotShape(p: Packed)
  {
    |p.payload| == MAX_EXECVE_STATE_PAYLOAD && |p.descs| == MAX_EXECVE_STATE_VARS && p.varCount < 0xff
  }

  function Zeros(n: nat): (z: Bytes)
    ensures |z| == n
  {
    seq(n, _ => 0)
  }

  function NoDescs(n: nat): (d: seq<VarArgDesc>)
    ensures |d| == n
  {
    seq(n, _ => NO_DESC)
  }

  function Empty(capacity: nat, slots: nat): Packed
  {
    Packed(Zeros(capacity), NoDescs(slots), 0, 0)
  }

  /** data written over buf at position at. */
  function Splice(buf: Bytes, at: nat, data: Bytes): (r: Bytes)
    requires at + |data| <= |buf|
    ensures |r| == |buf|
    ensures r[..at] == buf[..at] && r[at..at + |data|] == data && r[at + |data|..] == buf[at + |data|..]
  {
    buf[..at] + data + buf[at + |data|..]
  }

  function NoVars(): (p: Packed)
    ensures EventShape(p) && p.varCount == 0
  {
    Empty(MAX_VAR_PAYLOAD, MAX_VAR_ARGS)
  }

  function NoSnapshot(): (p: Packed)
    ensures SnapshotShape(p) && p.varCount == 0 && p.payloadLen == 0
  {
    Empty(MAX_EXECVE_STATE_PAYLOAD, MAX_EXECVE_STATE_VARS)
  }

  /** An event whose captured arguments are p. */
  function WithVars(base: Event, p: Packed): (ev: Event)
    requires EventShape(p)
  {
    base.(varDesc := p.descs, payload := p.payload, payloadLen := p.payloadLen, varCount := p.varCount)
  }

  /** An execve event carries its snapshot at the start of the payload. */
  function WithSnapshot(base: Event, snap: Packed): (ev: Event)
    requires SnapshotShape(snap)
  {
    base.(varDesc := snap.descs + NoDescs(MAX_VAR_ARGS - MAX_EXECVE_STATE_VARS),
          payload := snap.payload + Zeros(MAX_VAR_PAYLOAD - MAX_EXECVE_STATE_PAYLOAD),
          payloadLen := snap.payloadLen, varCount := snap.varCount)
  }

  // ---------------------------------------------------------------------
  // The probe helpers: how many bytes they return, and what they leave behind

  datatype Probe = Probe(data: Bytes, result: int)

  /** A string read: the bytes up to the NUL, cut to size - 1, and a NUL; zeros on failure. */
  function ProbeStr(mem: Mem, ptr: nat, size: nat): (r: Probe)
    requires size > 0
    ensures |r.data| <= size && r.result <= size
    ensures r.result >= 0 ==> |r.data| == r.result > 0
  {
    match Scan(mem, ptr, size)
    case None => Probe(Zeros(size), EFAULT)
    case Some(s) =>
      var text := s[..Min(|s|, size - 1)];
      Probe(text + [0], |text| + 1)
  }

  /** A read of exactly size bytes; zeros on failure. */
  function ProbeBytes(mem: Mem, ptr: nat, size: nat): (r: Probe)
    ensures |r.data| == size
  {
    match ReadBytes(mem, ptr, size)
    case None => Probe(Zeros(size), EFAULT)
    case Some(b) => Probe(b, 0)
  }

  // ---------------------------------------------------------------------
  // Generic slots

  function SlotOffset(slot: nat): nat
  {
    if slot == 0 then 0 else GENERIC_VAR_SLOT_SIZE
  }

  function AddDesc(p: Packed, desc: VarArgDesc, payload: Bytes, end: U16): (r: Packed)
    requires EventShape(p) && p.varCount < 2 && |payload| == |p.payload|
    ensures EventShape(r)
  {
    Packed(payload, p.descs[p.varCount := desc], if p.payloadLen < end then end else p.payloadLen, p.varCount + 1)
  }

  function AppendVarString(p: Packed, argIndex: U8, mem: Mem, ptr: U64): (r: Packed)
    requires EventShape(p)
    ensures EventShape(r)
  {
    if p.varCount >= 2 then p
    else
      var offset := SlotOffset(p.varCount);
      if ptr == 0 then AddDesc(p, VarArgDesc(argIndex, VAR_FLAG_NULL_POINTER, offset, 0), p.payload, 0)
      else
        var probe := ProbeStr(mem, ptr, GENERIC_VAR_SLOT_SIZE);
        var payload := Splice(p.payload, offset, probe.data);
        if probe.result < 0 then AddDesc(p, VarArgDesc(argIndex, VAR_FLAG_READ_ERROR, offset, 0), payload, 0)
        else
          var length := probe.result - 1;
          var flags := if probe.result == GENERIC_VAR_SLOT_SIZE then VAR_FLAG_TRUNCATED else VAR_FLAG_NONE;
          AddDesc(p, VarArgDesc(argIndex, flags, offset, length), payload, offset + length)
  }

  function AppendVarBytes(p: Packed, argIndex: U8, mem: Mem, ptr: U64, size: U64): (r: Packed)
    requires EventShape(p)
    ensures EventShape(r)
  {
    if p.varCount >= 2 then p
    else
      var offset := SlotOffset(p.varCount);
      if ptr == 0 then AddDesc(p, VarArgDesc(argIndex, VAR_FLAG_NULL_POINTER, offset, 0), p.payload, 0)
      else
        var n := Min(GENERIC_VAR_SLOT_SIZE, size);
        var cut := if size > GENERIC_VAR_SLOT_SIZE then VAR_FLAG_TRUNCATED else VAR_FLAG_NONE;
        if n == 0 then AddDesc(p, VarArgDesc(argIndex, cut, offset, 0), p.payload, 0)
        else
          var probe := ProbeBytes(mem, ptr, n);
          var payload := Splice(p.payload, offset, probe.data);
          if probe.result < 0 then
            AddDesc(p, VarArgDesc(argIndex, cut + VAR_FLAG_READ_ERROR, offset, 0), payload, 0)
          else
            AddDesc(p, VarArgDesc(argIndex, cut, offset, n), payload, offset + n)
  }

  // ---------------------------------------------------------------------
  // execve

  function AppendExecveString(p: Packed, argIndex: U8, mem: Mem, ptr: U64): (r: Packed)
    requires SnapshotShape(p)
    ensures SnapshotShape(r)
  {
    if p.varCount >= MAX_EXECVE_STATE_VARS then p
    else if ptr == 0 then
      p.(descs := p.descs[p.varCount := VarArgDesc(argIndex, VAR_FLAG_NULL_POINTER, 0, 0)], varCount := p.varCount + 1)
    else
      var probe := ProbeStr(mem, ptr, MAX_EXECVE_ARG_STR);
      var payload := Splice(p.payload, 0, probe.data);
      if probe.result < 0 then
        Packed(payload, p.descs[p.varCount := VarArgDesc(argIndex, VAR_FLAG_READ_ERROR, 0, 0)], p.payloadLen, p.varCount + 1)
      else
        var flags := if probe.result == MAX_EXECVE_ARG_STR then VAR_FLAG_TRUNCATED else VAR_FLAG_NONE;
        var length := probe.result - 1;
        Packed(payload, p.descs[p.varCount := VarArgDesc(argIndex, flags, 0, length)], length, p.varCount + 1)
  }

  /** The state of the argv loop; complete tells that all eight places were used. */
  datatype ArgvLoop = ArgvLoop(payload: Bytes, cursor: nat, flags: U8, exhausted: bool)

  function ArgvFrom(payload: Bytes, cursor: nat, i: nat, mem: Mem, argv: nat): (r: ArgvLoop)
    requires |payload| == MAX_EXECVE_STATE_PAYLOAD && cursor <= MAX_EXECVE_STATE_PAYLOAD
    ensures |r.payload| == MAX_EXECVE_STATE_PAYLOAD && cursor <= r.cursor <= MAX_EXECVE_STATE_PAYLOAD
    ensures r.payload[..cursor] == payload[..cursor]
    ensures r.exhausted ==> r.flags == VAR_FLAG_NONE
    decreases MAX_EXECVE_ARGV - i
  {
    if i >= MAX_EXECVE_ARGV then ArgvLoop(payload, cursor, VAR_FLAG_NONE, true)
    else
      match ReadWord(mem, argv + 8 * i)
      case None => ArgvLoop(payload, cursor, VAR_FLAG_READ_ERROR, false)
      case Some(ptr) =>
        if ptr == 0 then ArgvLoop(payload, cursor, VAR_FLAG_NONE, false)
        else if cursor > MAX_EXECVE_STATE_PAYLOAD - MAX_EXECVE_ARG_STR then
          ArgvLoop(payload, cursor, VAR_FLAG_TRUNCATED, false)
        else
          var probe := ProbeStr(mem, ptr, MAX_EXECVE_ARG_STR);
          var next := Splice(payload, cursor, probe.data);
          assert next[..cursor] == payload[..cursor];
          if probe.result < 0 then ArgvLoop(next, cursor, VAR_FLAG_READ_ERROR, false)
          else if probe.result == MAX_EXECVE_ARG_STR then
            ArgvLoop(next, cursor + probe.result, VAR_FLAG_TRUNCATED, false)
          else
            var r := ArgvFrom(next, cursor + probe.result, i + 1, mem, argv);
            assert r.payload[..cursor] == r.payload[..cursor + probe.result][..cursor];
            assert next[..cursor] == next[..cursor + probe.result][..cursor];
            r
  }

  /** After eight arguments: is there a ninth? */
  function BeyondFlags(mem: Mem, argv: nat): U8
  {
    match ReadWord(mem, argv + 8 * MAX_EXECVE_ARGV)
    case None => VAR_FLAG_READ_ERROR
    case Some(ptr) => if ptr != 0 then VAR_FLAG_TRUNCATED else VAR_FLAG_NONE
  }

  function AppendExecveArgv(p: Packed, argIndex: U8, mem: Mem, argv: U64): (r: Packed)
    requires SnapshotShape(p)
    ensures SnapshotShape(r)
  {
    if p.varCount >= MAX_EXECVE_STATE_VARS then p
    else
      var start := p.payloadLen;
      if argv == 0 then
        p.(descs := p.descs[p.varCount := VarArgDesc(argIndex, VAR_FLAG_NULL_POINTER, start, 0)], varCount := p.varCount + 1)
      else if start >= MAX_EXECVE_STATE_PAYLOAD then
        p.(descs := p.descs[p.varCount := VarArgDesc(argIndex, VAR_FLAG_TRUNCATED, start, 0)], varCount := p.varCount + 1)
      else
        var loop := ArgvFrom(p.payload, start, 0, mem, argv);
        var flags := if loop.exhausted then BeyondFlags(mem, argv) else loop.flags;
        Packed(loop.payload, p.descs[p.varCount := VarArgDesc(argIndex, flags, start, loop.cursor - start)],
               loop.cursor, p.varCount + 1)
  }

  /** The snapshot taken when execve is entered. */
  function ExecveSnapshot(mem: Mem, filename: U64, argv: U64): (r: Packed)
    ensures SnapshotShape(r)
  {
    AppendExecveArgv(AppendExecveString(NoSnapshot(), 0, mem, filename), 1, mem, argv)
  }
}
