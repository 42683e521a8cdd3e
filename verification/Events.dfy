/**
 The trace record shared by the tracer and the reader: its fixed layout, the
 numeric tags, and the reader's lookup of a captured argument.
 */
module Events {
  import opened Base

  // x86-64 system call numbers.
  const SYS_READ := 0
  const SYS_WRITE := 1
  const SYS_OPEN := 2
  const SYS_CLOSE := 3
  const SYS_STAT := 4
  const SYS_FSTAT := 5
  const SYS_LSTAT := 6
  const SYS_ACCESS := 21
  const SYS_DUP := 32
  const SYS_DUP2 := 33
  const SYS_CLONE := 56
  const SYS_FORK := 57
  const SYS_VFORK := 58
  const SYS_EXECVE := 59
  const SYS_EXIT := 60
  const SYS_FCNTL := 72
  const SYS_CHDIR := 80
  const SYS_FCHDIR := 81
  const SYS_RENAME := 82
  const SYS_UNLINK := 87
  const SYS_EXIT_GROUP := 231
  const SYS_OPENAT := 257
  const SYS_NEWFSTATAT := 262
  const SYS_UNLINKAT := 263
  const SYS_RENAMEAT := 264
  const SYS_FACCESSAT := 269
  const SYS_DUP3 := 292
  const SYS_RENAMEAT2 := 316
  const SYS_STATX := 332
  const SYS_CLONE3 := 435
  const SYS_OPENAT2 := 437
  const SYS_FACCESSAT2 := 439

  const F_DUPFD := 0
  const F_DUPFD_CLOEXEC := 1030
  const AT_FDCWD := -100

  // Argument tags.  An fd and a captured argv carry the same number.
  const ARG_NONE: U8 := 0
  const ARG_INT: U8 := 1
  const ARG_FD: U8 := 3
  const ARG_RAW: U8 := 255
  const VAR_ARG_STRING: U8 := 1
  const VAR_ARG_BYTES: U8 := 2
  const VAR_ARG_ARGV: U8 := 3

  // Flags of a captured argument.
  const VAR_FLAG_NONE: U8 := 0
  const VAR_FLAG_TRUNCATED: U8 := 1
  const VAR_FLAG_READ_ERROR: U8 := 2
  const VAR_FLAG_NULL_POINTER: U8 := 4

  const EVENT_FLAG_PROCESS_CLONE: U8 := 1

  const MAX_VAR_ARGS := 6
  const MAX_VAR_PAYLOAD := 512

  predicate IsTruncated(flags: U8)
  {
    flags % 2 == 1
  }

  predicate IsReadError(flags: U8)
  {
    flags / 2 % 2 == 1
  }

  predicate IsNullPointer(flags: U8)
  {
    flags / 4 % 2 == 1
  }

  datatype VarArgDesc = VarArgDesc(argIndex: U8, flags: U8, offset: U16, length: U16)

  datatype RawEvent = Event(
    ts: U64,
    dur: U64,
    id: I64,
    ret: I64,
    args: seq<U64>,
    varDesc: seq<VarArgDesc>,
    payload: Bytes,
    pid: U32,
    tid: U32,
    seqno: U32,
    payloadLen: U16,
    argCount: U8,
    varCount: U8,
    argTypes: seq<U8>,
    flags: U8
  )

  predicate FixedLayout(ev: RawEvent)
  {
    |ev.args| == 6 && |ev.varDesc| == MAX_VAR_ARGS && |ev.payload| == MAX_VAR_PAYLOAD && |ev.argTypes| == 6
  }

  const NO_DESC := VarArgDesc(0, 0, 0, 0)

  type Event = ev: RawEvent | FixedLayout(ev)
    witness Event(0, 0, 0, 0, seq(6, _ => 0), seq(6, _ => VarArgDesc(0, 0, 0, 0)),
                  seq(512, _ => 0), 0, 0, 0, 0, 0, 0, seq(6, _ => 0), 0)

  predicate CreatesProcess(ev: Event)
  {
    ev.flags % 2 == EVENT_FLAG_PROCESS_CLONE
  }

  /** The first of the used descriptors, from slot i on, that belongs to argument idx. */
  function FirstDesc(ev: Event, idx: int, i: nat := 0): (r: Option<VarArgDesc>)
    decreases MAX_VAR_ARGS - i
  {
    if i >= MAX_VAR_ARGS || i >= ev.varCount then None
    else if ev.varDesc[i].argIndex == idx then Some(ev.varDesc[i])
    else FirstDesc(ev, idx, i + 1)
  }

  method FindVarArgDesc(ev: Event, idx: int) returns (r: Option<VarArgDesc>)
    ensures r == FirstDesc(ev, idx)
    ensures r.Some? <==> exists k :: 0 <= k < MAX_VAR_ARGS && k < ev.varCount && ev.varDesc[k].argIndex == idx
    ensures r.Some? ==> exists k :: 0 <= k < MAX_VAR_ARGS && k < ev.varCount && ev.varDesc[k] == r.value && ev.varDesc[k].argIndex == idx &&
                                    forall j :: 0 <= j < k ==> ev.varDesc[j].argIndex != idx
  {
    var i := 0;
    while i < ev.varCount && i < MAX_VAR_ARGS
      invariant 0 <= i <= MAX_VAR_ARGS
      invariant forall k :: 0 <= k < i ==> ev.varDesc[k].argIndex != idx
      invariant FirstDesc(ev, idx) == FirstDesc(ev, idx, i)
    {
      var desc := ev.varDesc[i];
      if desc.argIndex == idx {
        return Some(desc);
      }
      i := i + 1;
    }
    return None;
  }

  /** The bytes a descriptor points at, if they lie inside the used payload. */
  function VarPayloadSlice(ev: Event, desc: VarArgDesc): (r: Option<Bytes>)
    ensures r.Some? <==> desc.offset + desc.length <= ev.payloadLen && desc.offset + desc.length <= MAX_VAR_PAYLOAD
    ensures r.Some? ==> |r.value| == desc.length
    ensures r.Some? ==> forall k :: 0 <= k < desc.length ==> r.value[k] == ev.payload[desc.offset + k]
  {
    var payloadLen := Min(ev.payloadLen, MAX_VAR_PAYLOAD);
    var end := desc.offset + desc.length;
    if end > payloadLen then None
    else Some(ev.payload[desc.offset..end])
  }

  /** The path captured for argument argIndex: only if it was read whole. */
  function EventTracePathAt(ev: Event, argIndex: int): (r: Option<Bytes>)
  {
    match FirstDesc(ev, argIndex)
    case None => None
    case Some(desc) =>
      if desc.flags != VAR_FLAG_NONE then None else VarPayloadSlice(ev, desc)
  }
}
