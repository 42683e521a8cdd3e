/** Packing followed by decoding: what the reader gets is what the process passed. */
module RoundTrips {
  import opened Base
  import opened Events
  import opened Memory
  import opened Packing

  /** The path a 256-byte slot can carry from ptr. */
  function Captured(mem: Mem, ptr: nat): Option<Bytes>
  {
    match Scan(mem, ptr, GENERIC_VAR_SLOT_SIZE)
    case None => None
    case Some(s) => if |s| <= GENERIC_VAR_SLOT_SIZE - 2 then Some(s) else None
  }

  /** Exactly the strings of at most 254 bytes are captured; NULL, unreadable and longer ones are not. */
  lemma CapturedExactly(mem: Mem, ptr: nat, s: Bytes)
    ensures Captured(mem, ptr) == Some(s) <==> StringAt(mem, ptr, s) && |s| <= 254
  {
    if StringAt(mem, ptr, s) {
      ScanString(mem, ptr, s, GENERIC_VAR_SLOT_SIZE);
      assert |s| <= 254 ==> s[..Min(|s|, GENERIC_VAR_SLOT_SIZE)] == s;
    }
    if Captured(mem, ptr) == Some(s) {
      ScanFound(mem, ptr, GENERIC_VAR_SLOT_SIZE);
    }
  }

  // ---------------------------------------------------------------------
  // Generic slots

  /** What appending a string leaves in its own slot. */
  lemma AppendedString(base: Event, p: Packed, argIndex: U8, mem: Mem, ptr: U64)
    requires EventShape(p) && p.varCount < 2
    requires forall k :: 0 <= k < p.varCount ==> p.descs[k].argIndex != argIndex
    ensures var r := AppendVarString(p, argIndex, mem, ptr);
            && EventTracePathAt(WithVars(base, r), argIndex) == Captured(mem, ptr)
            && r.varCount == p.varCount + 1 && r.descs[p.varCount].argIndex == argIndex
  {
    hide IsNullPointer, IsReadError, IsTruncated;
    var r := AppendVarString(p, argIndex, mem, ptr);
    StringDecodes(base, p, argIndex, mem, ptr);
    if ptr == 0 {
      assert Scan(mem, 0, GENERIC_VAR_SLOT_SIZE) == None;
    } else if Captured(mem, ptr).Some? {
      var s := Scan(mem, ptr, GENERIC_VAR_SLOT_SIZE).value;
      assert s[..Min(|s|, 255)] == s;
    }
  }

  /** The descriptor of an appended string: its flags, and the bytes it leads to. */
  lemma StringDecodes(base: Event, p: Packed, i: U8, mem: Mem, ptr: U64)
    requires EventShape(p) && p.varCount < 2
    requires forall k :: 0 <= k < p.varCount ==> p.descs[k].argIndex != i
    ensures var r := AppendVarString(p, i, mem, ptr);
            var ev := WithVars(base, r);
            var d := r.descs[p.varCount];
            var scan := Scan(mem, ptr, GENERIC_VAR_SLOT_SIZE);
            && FirstDesc(ev, i) == Some(d) && d.argIndex == i && r.varCount == p.varCount + 1
            && d.flags == (if ptr == 0 then VAR_FLAG_NULL_POINTER else if scan.None? then VAR_FLAG_READ_ERROR
                           else if |scan.value| >= 255 then VAR_FLAG_TRUNCATED else VAR_FLAG_NONE)
            && (ptr != 0 && scan.Some? ==> VarPayloadSlice(ev, d) == Some(scan.value[..Min(|scan.value|, 255)]))
  {
    var r := AppendVarString(p, i, mem, ptr);
    var ev := WithVars(base, r);
    var d := r.descs[p.varCount];
    assert FirstDesc(ev, i) == Some(d) by {
      assert p.varCount == 1 ==> FirstDesc(ev, i) == FirstDesc(ev, i, 1);
    }
    var scan := Scan(mem, ptr, GENERIC_VAR_SLOT_SIZE);
    if ptr != 0 && scan.Some? {
      var text := scan.value[..Min(|scan.value|, 255)];
      SplicedText(p.payload, d.offset, text);
      assert r.payload == Splice(p.payload, d.offset, text + [0]);
    }
  }

  /** A text written with a NUL behind it. */
  lemma SplicedText(buf: Bytes, at: nat, text: Bytes)
    requires at + |text| + 1 <= |buf|
    ensures Splice(buf, at, text + [0])[at..at + |text|] == text
  {
    var data := text + [0];
    var r := Splice(buf, at, data);
    assert r[at..at + |text|] == r[at..at + |data|][..|text|];
    assert data[..|text|] == text;
  }

  /** r adds a second capture to p and leaves the first slot alone. */
  ghost predicate KeepsFirst(p: Packed, r: Packed)
    requires EventShape(p) && EventShape(r)
  {
    && r.descs[0] == p.descs[0]
    && r.payload[..GENERIC_VAR_SLOT_SIZE] == p.payload[..GENERIC_VAR_SLOT_SIZE]
    && r.payloadLen >= p.payloadLen
  }

  lemma SecondSlotApart(p: Packed, argIndex: U8, mem: Mem, ptr: U64, size: U64)
    requires EventShape(p) && p.varCount == 1
    ensures KeepsFirst(p, AppendVarString(p, argIndex, mem, ptr))
    ensures KeepsFirst(p, AppendVarBytes(p, argIndex, mem, ptr, size))
  {
  }

  lemma SliceOfPrefix(b: Bytes, n: nat, i: nat, j: nat)
    requires i <= j <= n <= |b|
    ensures b[..n][i..j] == b[i..j]
  {
  }

  /** A first capture decodes the same after a second was added. */
  lemma FirstUndisturbed(base: Event, p: Packed, r: Packed, argIndex: U8)
    requires EventShape(p) && EventShape(r) && p.varCount == 1 && r.varCount == 2 && KeepsFirst(p, r)
    requires p.descs[0].argIndex == argIndex && p.descs[0].offset + p.descs[0].length <= Min(p.payloadLen, GENERIC_VAR_SLOT_SIZE)
    ensures FirstDesc(WithVars(base, r), argIndex) == FirstDesc(WithVars(base, p), argIndex) == Some(p.descs[0])
    ensures VarPayloadSlice(WithVars(base, r), p.descs[0]) == VarPayloadSlice(WithVars(base, p), p.descs[0])
  {
    var d := p.descs[0];
    var end := d.offset + d.length;
    assert end <= GENERIC_VAR_SLOT_SIZE <= |r.payload| == |p.payload|;
    SliceOfPrefix(r.payload, GENERIC_VAR_SLOT_SIZE, d.offset, end);
    SliceOfPrefix(p.payload, GENERIC_VAR_SLOT_SIZE, d.offset, end);
  }

  /** A single path argument is decoded exactly. */
  lemma OnePathRoundTrip(base: Event, i: U8, mem: Mem, ptr: U64, s: Bytes)
    ensures var ev := WithVars(base, AppendVarString(NoVars(), i, mem, ptr));
            EventTracePathAt(ev, i) == Some(s) <==> StringAt(mem, ptr, s) && |s| <= 254
  {
    AppendedString(base, NoVars(), i, mem, ptr);
    CapturedExactly(mem, ptr, s);
  }

  /** Both of two path arguments are decoded exactly, whatever became of the other. */
  lemma TwoPathsRoundTrip(base: Event, i: U8, j: U8, mem: Mem, first: U64, second: U64, s: Bytes)
    requires i != j
    ensures var ev := WithVars(base, AppendVarString(AppendVarString(NoVars(), i, mem, first), j, mem, second));
            && (EventTracePathAt(ev, i) == Some(s) <==> StringAt(mem, first, s) && |s| <= 254)
            && (EventTracePathAt(ev, j) == Some(s) <==> StringAt(mem, second, s) && |s| <= 254)
  {
    var p := AppendVarString(NoVars(), i, mem, first);
    var r := AppendVarString(p, j, mem, second);
    AppendedString(base, NoVars(), i, mem, first);
    AppendedString(base, p, j, mem, second);
    SecondSlotApart(p, j, mem, second, 0);
    FirstUndisturbed(base, p, r, i);
    CapturedExactly(mem, first, s);
    CapturedExactly(mem, second, s);
  }

  /** A descriptor's bytes lie inside the used payload. */
  predicate Inside(p: Packed, slot: nat)
    requires slot < |p.descs|
  {
    p.descs[slot].offset + p.descs[slot].length <= p.payloadLen <= MAX_VAR_PAYLOAD
  }

  /**
   The first descriptor always lies inside the used payload; the second does
   exactly if its string could be read.  After a NULL or unreadable second path
   its descriptor points past the end (offset 256, length 0).
   */
  lemma DescriptorsInside(i: U8, j: U8, mem: Mem, first: U64, second: U64)
    ensures var p := AppendVarString(NoVars(), i, mem, first);
            var r := AppendVarString(p, j, mem, second);
            && Inside(p, 0) && Inside(r, 0)
            && (Inside(r, 1) <==> second != 0 && Scan(mem, second, GENERIC_VAR_SLOT_SIZE).Some?)
            && (Inside(r, 1) <==> r.descs[1].flags in {VAR_FLAG_NONE, VAR_FLAG_TRUNCATED})
  {
    var p := AppendVarString(NoVars(), i, mem, first);
    assert p.payloadLen <= 255;
  }

  /**
   With a result buffer as second argument: its descriptor lies inside exactly if the
   buffer is not NULL, not empty and readable.
   */
  lemma BufferInside(i: U8, j: U8, mem: Mem, first: U64, second: U64, size: U64)
    ensures var p := AppendVarString(NoVars(), i, mem, first);
            var r := AppendVarBytes(p, j, mem, second, size);
            && Inside(r, 0)
            && (Inside(r, 1) <==>
                second != 0 && size > 0 && ReadBytes(mem, second, Min(GENERIC_VAR_SLOT_SIZE, size)).Some?)
  {
    hide ReadBytes, Scan;
    var p := AppendVarString(NoVars(), i, mem, first);
    assert p.payloadLen <= 255;
  }

  /** The concrete case: rename of a path to NULL. */
  lemma NullSecondPathOverhangs(mem: Mem, first: U64)
    ensures !Inside(AppendVarString(AppendVarString(NoVars(), 0, mem, first), 1, mem, 0), 1)
  {
    DescriptorsInside(0, 1, mem, first, 0);
  }

  // ---------------------------------------------------------------------
  // What the printer shows

  /** A printed argument before quoting: cut is the "..." behind it. */
  datatype Shown = NullShown | UnknownShown | Quoted(text: Bytes, cut: bool)

  /** The printer's rendering of a captured string or of captured bytes; the two are alike. */
  function FormatVar(ev: Event, desc: VarArgDesc): Shown
  {
    if IsNullPointer(desc.flags) then NullShown
    else if IsReadError(desc.flags) then UnknownShown
    else match VarPayloadSlice(ev, desc)
      case None => UnknownShown
      case Some(payload) => Quoted(payload, IsTruncated(desc.flags))
  }

  /** The rendering of argument i, if it was captured. */
  function ShownArg(ev: Event, i: U8): Option<Shown>
  {
    match FirstDesc(ev, i)
    case None => None
    case Some(desc) => Some(FormatVar(ev, desc))
  }

  /** The tracer's flags tell the printer apart what happened. */
  lemma FlagsApart()
    ensures IsNullPointer(VAR_FLAG_NULL_POINTER)
    ensures forall f: U8 :: f in {VAR_FLAG_NONE, VAR_FLAG_TRUNCATED} ==> !IsNullPointer(f) && !IsReadError(f)
    ensures forall f: U8 :: f in {VAR_FLAG_READ_ERROR, VAR_FLAG_TRUNCATED + VAR_FLAG_READ_ERROR} ==> !IsNullPointer(f) && IsReadError(f)
    ensures IsTruncated(VAR_FLAG_TRUNCATED) && !IsTruncated(VAR_FLAG_NONE)
  {
  }

  /**
   A string argument is printed as NULL exactly if it is NULL, as unknown exactly
   if it cannot be read, and else by its first 255 bytes, marked as cut if it has
   255 or more.
   */
  lemma StringShown(base: Event, p: Packed, i: U8, mem: Mem, ptr: U64)
    requires EventShape(p) && p.varCount < 2
    requires forall k :: 0 <= k < p.varCount ==> p.descs[k].argIndex != i
    ensures ShownArg(WithVars(base, AppendVarString(p, i, mem, ptr)), i) ==
            Some(if ptr == 0 then NullShown
                 else match Scan(mem, ptr, GENERIC_VAR_SLOT_SIZE)
                   case None => UnknownShown
                   case Some(s) => Quoted(s[..Min(|s|, 255)], |s| >= 255))
  {
    hide IsNullPointer, IsReadError, IsTruncated, AppendVarString, Scan, VarPayloadSlice;
    FlagsApart();
    StringDecodes(base, p, i, mem, ptr);
  }

  /**
   A bytes argument is printed as NULL or unknown in the same cases, and else by
   its first 256 bytes, marked as cut if there are more.  No bytes in a second slot
   are shown as unknown unless the payload reaches that far.
   */
  lemma BytesShown(base: Event, p: Packed, j: U8, mem: Mem, ptr: U64, size: U64)
    requires EventShape(p) && p.varCount < 2
    requires forall k :: 0 <= k < p.varCount ==> p.descs[k].argIndex != j
    ensures ShownArg(WithVars(base, AppendVarBytes(p, j, mem, ptr, size)), j) ==
            Some(if ptr == 0 then NullShown
                 else if size == 0 && p.varCount == 1 && p.payloadLen < GENERIC_VAR_SLOT_SIZE then UnknownShown
                 else match ReadBytes(mem, ptr, Min(GENERIC_VAR_SLOT_SIZE, size))
                   case None => UnknownShown
                   case Some(data) => Quoted(data, size > GENERIC_VAR_SLOT_SIZE))
  {
    hide IsNullPointer, IsReadError, IsTruncated;
    FlagsApart();
    var r := AppendVarBytes(p, j, mem, ptr, size);
    var ev := WithVars(base, r);
    var d := r.descs[p.varCount];
    assert FirstDesc(ev, j) == Some(d) by {
      assert p.varCount == 1 ==> FirstDesc(ev, j) == FirstDesc(ev, j, 1);
    }
    var n := Min(GENERIC_VAR_SLOT_SIZE, size);
    var read := ReadBytes(mem, ptr, n);
    if ptr != 0 && n > 0 && read.Some? {
      assert r.payload == Splice(p.payload, d.offset, read.value);
      assert r.payload[d.offset..d.offset + n] == read.value;
    }
  }

  /** 255 letters and a NUL, at address 1. */
  const LONG_NAME: Mem := map k: nat | 1 <= k <= 256 :: if k == 256 then 0 else 97

  function Letters(n: nat): (s: Bytes)
    ensures |s| == n
  {
    seq(n, _ => 97)
  }

  /** A complete string of 255 bytes is shown whole and yet marked as cut, and is no path for the filter. */
  lemma CompleteButMarked(base: Event, i: U8)
    ensures var ev := WithVars(base, AppendVarString(NoVars(), i, LONG_NAME, 1));
            && StringAt(LONG_NAME, 1, Letters(255))
            && ShownArg(ev, i) == Some(Quoted(Letters(255), true))
            && EventTracePathAt(ev, i) == None
  {
    var s := Letters(255);
    forall k | 0 <= k < |s| ensures ByteAt(LONG_NAME, 1 + k) == Some(s[k]) {
    }
    assert ByteAt(LONG_NAME, 1 + |s|) == Some(0);
    ScanString(LONG_NAME, 1, s, GENERIC_VAR_SLOT_SIZE);
    assert s[..255] == s;
    hide ShownArg, EventTracePathAt, AppendVarString, LONG_NAME;
    StringShown(base, NoVars(), i, LONG_NAME, 1);
    AppendedString(base, NoVars(), i, LONG_NAME, 1);
  }
}
