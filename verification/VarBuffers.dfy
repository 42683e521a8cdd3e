/**
 The tracer's append functions as they run: on the arrays of a ring-buffer slot
 or of an execve snapshot, in place.  Each is proved to leave the value the
 packing functions say.
 */
module VarBuffers {
  import opened Base
  import opened Events
  import opened Memory
  import opened Packing

  class VarBuffer {
    const payload: array<U8>
    const varDesc: array<VarArgDesc>
    var payloadLen: U16
    var varCount: U8

    constructor (capacity: nat, slots: nat)
      ensures fresh(payload) && fresh(varDesc) && Value() == Empty(capacity, slots)
    {
      payload := new U8[capacity](_ => 0);
      varDesc := new VarArgDesc[slots](_ => NO_DESC);
      payloadLen, varCount := 0, 0;
      new;
      assert payload[..] == Zeros(capacity) && varDesc[..] == NoDescs(slots);
    }

    ghost function Value(): Packed
      reads this, payload, varDesc
    {
      Packed(payload[..], varDesc[..], payloadLen, varCount)
    }

    method Write(at: nat, data: Bytes)
      requires at + |data| <= payload.Length
      modifies payload
      ensures payload[..] == Splice(old(payload[..]), at, data)
    {
      forall k | 0 <= k < |data| {
        payload[at + k] := data[k];
      }
    }

    /** bpf_probe_read_user_str into payload[at..]. */
    method ProbeReadUserStr(at: nat, size: nat, mem: Mem, ptr: nat) returns (copied: int)
      requires 0 < size && at + size <= payload.Length
      modifies payload
      ensures var probe := ProbeStr(mem, ptr, size);
              copied == probe.result && payload[..] == Splice(old(payload[..]), at, probe.data)
    {
      var probe := ProbeStr(mem, ptr, size);
      Write(at, probe.data);
      return probe.result;
    }

    /** bpf_probe_read_user into payload[at..]. */
    method ProbeReadUser(at: nat, size: nat, mem: Mem, ptr: nat) returns (err: int)
      requires at + size <= payload.Length
      modifies payload
      ensures var probe := ProbeBytes(mem, ptr, size);
              err == probe.result && payload[..] == Splice(old(payload[..]), at, probe.data)
    {
      var probe := ProbeBytes(mem, ptr, size);
      Write(at, probe.data);
      return probe.result;
    }

    method AppendString(argIndex: U8, mem: Mem, ptr: U64)
      requires EventShape(Value())
      modifies this, payload, varDesc
      ensures Value() == AppendVarString(old(Value()), argIndex, mem, ptr)
    {
      hide ProbeStr, Splice, Zeros;
      if varCount >= 2 {
        return;
      }
      var slot := varCount;
      var offset := if slot == 0 then 0 else GENERIC_VAR_SLOT_SIZE;
      varDesc[slot] := VarArgDesc(argIndex, VAR_FLAG_NONE, offset, 0);
      if ptr == 0 {
        varDesc[slot] := varDesc[slot].(flags := VAR_FLAG_NULL_POINTER);
        varCount := varCount + 1;
        return;
      }
      CopyStringIntoSlot(mem, ptr);
    }

    /** The copying half of append_var_string, on the descriptor begun in the current slot. */
    method CopyStringIntoSlot(mem: Mem, ptr: U64)
      requires EventShape(Value()) && varCount < 2
      requires varDesc[varCount].offset == SlotOffset(varCount) && varDesc[varCount].flags == VAR_FLAG_NONE && varDesc[varCount].length == 0
      modifies this, payload, varDesc
      ensures var p := old(Value());
              var d := p.descs[p.varCount];
              var probe := ProbeStr(mem, ptr, GENERIC_VAR_SLOT_SIZE);
              var bytes := Splice(p.payload, d.offset, probe.data);
              var flags := if probe.result == GENERIC_VAR_SLOT_SIZE then VAR_FLAG_TRUNCATED else VAR_FLAG_NONE;
              Value() == if probe.result < 0 then AddDesc(p, d.(flags := VAR_FLAG_READ_ERROR), bytes, 0)
                         else AddDesc(p, d.(flags := flags, length := probe.result - 1), bytes, d.offset + probe.result - 1)
    {
      hide ProbeStr, Splice;
      var slot, offset := varCount, varDesc[varCount].offset;
      var available := GENERIC_VAR_SLOT_SIZE;
      var copied := ProbeReadUserStr(offset, available, mem, ptr);
      if copied < 0 {
        varDesc[slot] := varDesc[slot].(flags := VAR_FLAG_READ_ERROR);
        varCount := varCount + 1;
        return;
      }
      if copied == available {
        varDesc[slot] := varDesc[slot].(flags := VAR_FLAG_TRUNCATED);
      }
      if copied > 0 {
        varDesc[slot] := varDesc[slot].(length := copied - 1);
      }
      var end := varDesc[slot].offset + varDesc[slot].length;
      if payloadLen < end {
        payloadLen := end;
      }
      varCount := varCount + 1;
    }

    method AppendBytes(argIndex: U8, mem: Mem, ptr: U64, size: U64)
      requires EventShape(Value())
      modifies this, payload, varDesc
      ensures Value() == AppendVarBytes(old(Value()), argIndex, mem, ptr, size)
    {
      hide ProbeBytes, Splice, Zeros;
      if varCount >= 2 {
        return;
      }
      var slot := varCount;
      var offset := if slot == 0 then 0 else GENERIC_VAR_SLOT_SIZE;
      varDesc[slot] := VarArgDesc(argIndex, VAR_FLAG_NONE, offset, 0);
      if ptr == 0 {
        varDesc[slot] := varDesc[slot].(flags := VAR_FLAG_NULL_POINTER);
        varCount := varCount + 1;
        return;
      }
      CopyBytesIntoSlot(mem, ptr, size);
    }

    /** The rest of append_var_bytes for a pointer that is not NULL: how much to copy, and copying it. */
    method CopyBytesIntoSlot(mem: Mem, ptr: U64, size: U64)
      requires EventShape(Value()) && varCount < 2
      requires varDesc[varCount].offset == SlotOffset(varCount) && varDesc[varCount].flags == VAR_FLAG_NONE && varDesc[varCount].length == 0
      modifies this, payload, varDesc
      ensures var p := old(Value());
              var d := p.descs[p.varCount].(flags := if size > GENERIC_VAR_SLOT_SIZE then VAR_FLAG_TRUNCATED else VAR_FLAG_NONE);
              var n := Min(GENERIC_VAR_SLOT_SIZE, size);
              var probe := ProbeBytes(mem, ptr, n);
              Value() == if n == 0 then AddDesc(p, d, p.payload, 0)
                         else
                           var bytes := Splice(p.payload, d.offset, probe.data);
                           if probe.result < 0 then AddDesc(p, d.(flags := d.flags + VAR_FLAG_READ_ERROR), bytes, 0)
                           else AddDesc(p, d.(length := n), bytes, d.offset + n)
    {
      hide ProbeBytes, Splice;
      var slot := varCount;
      var available := GENERIC_VAR_SLOT_SIZE;
      var toCopy := available;
      if toCopy > size {
        toCopy := size;
      } else if size > toCopy {
        varDesc[slot] := varDesc[slot].(flags := VAR_FLAG_TRUNCATED);
      }
      if toCopy == 0 {
        varCount := varCount + 1;
        return;
      }
      CopyIntoSlot(toCopy, mem, ptr);
    }

    /** The copying half of append_var_bytes, on the descriptor begun in the current slot. */
    method CopyIntoSlot(toCopy: nat, mem: Mem, ptr: U64)
      requires EventShape(Value()) && varCount < 2 && 0 < toCopy <= GENERIC_VAR_SLOT_SIZE
      requires varDesc[varCount].offset == SlotOffset(varCount) && varDesc[varCount].flags <= VAR_FLAG_TRUNCATED
      modifies this, payload, varDesc
      ensures var p := old(Value());
              var d := p.descs[p.varCount];
              var probe := ProbeBytes(mem, ptr, toCopy);
              var bytes := Splice(p.payload, d.offset, probe.data);
              Value() == if probe.result < 0 then AddDesc(p, d.(flags := d.flags + VAR_FLAG_READ_ERROR), bytes, 0)
                         else AddDesc(p, d.(length := toCopy), bytes, d.offset + toCopy)
    {
      hide ProbeBytes, Splice;
      var slot, offset := varCount, varDesc[varCount].offset;
      var err := ProbeReadUser(offset, toCopy, mem, ptr);
      if err < 0 {
        varDesc[slot] := varDesc[slot].(flags := varDesc[slot].flags + VAR_FLAG_READ_ERROR);
        varCount := varCount + 1;
        return;
      }
      varDesc[slot] := varDesc[slot].(length := toCopy);
      var end := offset + toCopy;
      if payloadLen < end {
        payloadLen := end;
      }
      varCount := varCount + 1;
    }

    method AppendExecveName(argIndex: U8, mem: Mem, ptr: U64)
      requires SnapshotShape(Value())
      modifies this, payload, varDesc
      ensures Value() == AppendExecveString(old(Value()), argIndex, mem, ptr)
    {
      if varCount >= MAX_EXECVE_STATE_VARS {
        return;
      }
      var slot := varCount;
      varDesc[slot] := VarArgDesc(argIndex, VAR_FLAG_NONE, 0, 0);
      if ptr == 0 {
        varDesc[slot] := varDesc[slot].(flags := VAR_FLAG_NULL_POINTER);
        varCount := varCount + 1;
        return;
      }
      var copied := ProbeReadUserStr(0, MAX_EXECVE_ARG_STR, mem, ptr);
      if copied < 0 {
        varDesc[slot] := varDesc[slot].(flags := VAR_FLAG_READ_ERROR);
        varCount := varCount + 1;
        return;
      }
      if copied > MAX_EXECVE_ARG_STR {
        copied := MAX_EXECVE_ARG_STR;
      }
      if copied == MAX_EXECVE_ARG_STR {
        varDesc[slot] := varDesc[slot].(flags := VAR_FLAG_TRUNCATED);
      }
      if copied > 0 {
        varDesc[slot] := varDesc[slot].(length := copied - 1);
        payloadLen := varDesc[slot].length;
      }
      varCount := varCount + 1;
    }

    /** One turn of the argv loop: the cursor after it, and if it is the last, the flag to set. */
    method ArgvTurn(start: nat, i: nat, mem: Mem, argv: U64) returns (cursor: nat, flags: U8, more: bool)
      requires payload.Length == MAX_EXECVE_STATE_PAYLOAD && start <= MAX_EXECVE_STATE_PAYLOAD && i < MAX_EXECVE_ARGV
      modifies payload
      ensures cursor <= MAX_EXECVE_STATE_PAYLOAD
      ensures ArgvFrom(old(payload[..]), start, i, mem, argv) ==
              if more then ArgvFrom(payload[..], cursor, i + 1, mem, argv)
              else ArgvLoop(payload[..], cursor, flags, false)
    {
      hide ProbeStr, ReadWord, Splice;
      cursor, flags, more := start, VAR_FLAG_NONE, false;
      var argPtr := ReadWord(mem, argv + 8 * i);
      if argPtr == None {
        flags := VAR_FLAG_READ_ERROR;
        return;
      }
      if argPtr.value == 0 {
        return;
      }
      if cursor > MAX_EXECVE_STATE_PAYLOAD - MAX_EXECVE_ARG_STR {
        flags := VAR_FLAG_TRUNCATED;
        return;
      }
      var copied := ProbeReadUserStr(cursor, MAX_EXECVE_ARG_STR, mem, argPtr.value);
      if copied < 0 {
        flags := VAR_FLAG_READ_ERROR;
        return;
      }
      if copied > MAX_EXECVE_ARG_STR {
        copied := MAX_EXECVE_ARG_STR;
      }
      cursor := cursor + copied;
      if copied == MAX_EXECVE_ARG_STR {
        flags := VAR_FLAG_TRUNCATED;
        return;
      }
      more := true;
    }

    /** The argv loop: the cursor, the flag to set, and whether all eight places were used. */
    method LoopOverArgv(start: nat, mem: Mem, argv: U64) returns (cursor: nat, flags: U8, exhausted: bool)
      requires payload.Length == MAX_EXECVE_STATE_PAYLOAD && start <= MAX_EXECVE_STATE_PAYLOAD
      modifies payload
      ensures ArgvLoop(payload[..], cursor, flags, exhausted) == ArgvFrom(old(payload[..]), start, 0, mem, argv)
    {
      hide ArgvFrom;
      cursor, flags := start, VAR_FLAG_NONE;
      var i := 0;
      while i < MAX_EXECVE_ARGV
        invariant 0 <= i <= MAX_EXECVE_ARGV && cursor <= MAX_EXECVE_STATE_PAYLOAD
        invariant ArgvFrom(payload[..], cursor, i, mem, argv) == ArgvFrom(old(payload[..]), start, 0, mem, argv)
      {
        var more;
        cursor, flags, more := ArgvTurn(cursor, i, mem, argv);
        if !more {
          exhausted := false;
          return;
        }
        i := i + 1;
      }
      AllPlacesUsed(payload[..], cursor, mem, argv);
      flags, exhausted := VAR_FLAG_NONE, true;
    }

    static lemma AllPlacesUsed(bytes: Bytes, cursor: nat, mem: Mem, argv: nat)
      requires |bytes| == MAX_EXECVE_STATE_PAYLOAD && cursor <= MAX_EXECVE_STATE_PAYLOAD
      ensures ArgvFrom(bytes, cursor, MAX_EXECVE_ARGV, mem, argv) == ArgvLoop(bytes, cursor, VAR_FLAG_NONE, true)
    {
    }

    method AppendArgv(argIndex: U8, mem: Mem, argv: U64)
      requires SnapshotShape(Value())
      modifies this, payload, varDesc
      ensures Value() == AppendExecveArgv(old(Value()), argIndex, mem, argv)
    {
      hide ArgvFrom;
      if varCount >= MAX_EXECVE_STATE_VARS {
        return;
      }
      var slot := varCount;
      varDesc[slot] := VarArgDesc(argIndex, VAR_FLAG_NONE, payloadLen, 0);
      if argv == 0 {
        varDesc[slot] := varDesc[slot].(flags := VAR_FLAG_NULL_POINTER);
        varCount := varCount + 1;
        return;
      }
      var start := payloadLen;
      if start >= MAX_EXECVE_STATE_PAYLOAD {
        varDesc[slot] := varDesc[slot].(flags := VAR_FLAG_TRUNCATED);
        varCount := varCount + 1;
        return;
      }
      var cursor, flags, exhausted := LoopOverArgv(start, mem, argv);
      varDesc[slot] := varDesc[slot].(flags := flags);
      if exhausted {
        var nextPtr := ReadWord(mem, argv + 8 * MAX_EXECVE_ARGV);
        if nextPtr == None {
          varDesc[slot] := varDesc[slot].(flags := VAR_FLAG_READ_ERROR);
        } else if nextPtr.value != 0 {
          varDesc[slot] := varDesc[slot].(flags := VAR_FLAG_TRUNCATED);
        }
      }
      if cursor > start {
        varDesc[slot] := varDesc[slot].(length := cursor - start);
        payloadLen := cursor;
      }
      varCount := varCount + 1;
    }
  }
}
