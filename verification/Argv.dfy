/** execve's file name and argument vector: packed at entry, decoded by the printer. */
module Argv {
  import opened Base
  import opened Events
  import opened Memory
  import opened Packing

  // ---------------------------------------------------------------------
  // Decoding

  /** Position of the first NUL, or -1. */
  function IndexNul(s: Bytes): (i: int)
    ensures -1 <= i < |s|
    ensures i >= 0 ==> s[i] == 0 && 0 !in s[..i]
    ensures i < 0 ==> 0 !in s
  {
    if s == [] then -1
    else if s[0] == 0 then 0
    else
      var k := IndexNul(s[1..]);
      assert k >= 0 ==> s[..k + 1] == [s[0]] + s[1..][..k];
      assert s == [s[0]] + s[1..];
      if k < 0 then -1 else k + 1
  }

  /** The pieces ended by NULs; a piece at the end without one counts too. */
  function SplitNuls(s: Bytes): seq<Bytes>
    decreases |s|
  {
    if s == [] then []
    else
      var i := IndexNul(s);
      if i < 0 then [s] else [s[..i]] + SplitNuls(s[i + 1..])
  }

  /** What the printer shows of an argv, before quoting. */
  datatype ArgvText = NullPointer | Unreadable | Args(parts: seq<Bytes>, readError: bool, truncated: bool)

  method FormatVarArgv(ev: Event, desc: VarArgDesc) returns (r: ArgvText)
    ensures IsNullPointer(desc.flags) ==> r == NullPointer
    ensures !IsNullPointer(desc.flags) ==>
              match VarPayloadSlice(ev, desc)
              case None => r == Unreadable
              case Some(payload) =>
                r == Args(SplitNuls(payload), IsReadError(desc.flags), IsTruncated(desc.flags))
  {
    if IsNullPointer(desc.flags) {
      return NullPointer;
    }
    var slice := VarPayloadSlice(ev, desc);
    if slice == None {
      return Unreadable;
    }
    var payload := slice.value;
    var parts: seq<Bytes> := [];
    while |payload| > 0
      invariant parts + SplitNuls(payload) == SplitNuls(slice.value)
      decreases |payload|
    {
      var idx := IndexNul(payload);
      if idx < 0 {
        parts := parts + [payload];
        payload := [];
        break;
      }
      parts := parts + [payload[..idx]];
      payload := payload[idx + 1..];
    }
    return Args(parts, IsReadError(desc.flags), IsTruncated(desc.flags));
  }

  // ---------------------------------------------------------------------
  // The argument vector in memory, and what of it fits

  /**
   The string s lies at ptr; or s is what can be read there of a text that has no NUL
   within 128 bytes, be it that it is longer or that it is not terminated at all.
   */
  ghost predicate TextAt(mem: Mem, ptr: nat, s: Bytes)
  {
    StringAt(mem, ptr, s) || (|s| >= MAX_EXECVE_ARG_STR && RunAt(mem, ptr, s))
  }

  lemma ScanText(mem: Mem, ptr: nat, s: Bytes)
    requires TextAt(mem, ptr, s)
    ensures Scan(mem, ptr, MAX_EXECVE_ARG_STR) == Some(s[..Min(|s|, MAX_EXECVE_ARG_STR)]) && 0 !in s
  {
    if StringAt(mem, ptr, s) {
      ScanString(mem, ptr, s, MAX_EXECVE_ARG_STR);
    } else {
      ScanRun(mem, ptr, s, MAX_EXECVE_ARG_STR);
    }
  }

  /** Whatever a scan sees is such a text. */
  lemma TextFound(mem: Mem, ptr: nat)
    requires Scan(mem, ptr, MAX_EXECVE_ARG_STR).Some?
    ensures TextAt(mem, ptr, Scan(mem, ptr, MAX_EXECVE_ARG_STR).value)
  {
    if |Scan(mem, ptr, MAX_EXECVE_ARG_STR).value| < MAX_EXECVE_ARG_STR {
      ScanFound(mem, ptr, MAX_EXECVE_ARG_STR);
    } else {
      ScanFoundRun(mem, ptr, MAX_EXECVE_ARG_STR);
    }
  }

  /** Place i of the vector points at the text s. */
  ghost predicate ArgAt(mem: Mem, argv: nat, i: nat, s: Bytes)
  {
    var word := ReadWord(mem, argv + 8 * i);
    word.Some? && word.value != 0 && TextAt(mem, word.value, s)
  }

  /** Places from, from + 1, ... point at args. */
  ghost predicate ArgsAt(mem: Mem, argv: nat, from: nat, args: seq<Bytes>)
  {
    forall k :: 0 <= k < |args| ==> ArgAt(mem, argv, from + k, args[k])
  }

  /** The vector ends at place n with the null pointer. */
  predicate EndsAt(mem: Mem, argv: nat, n: nat)
  {
    ReadWord(mem, argv + 8 * n) == Some(0)
  }

  /** Reading breaks off at place n: the pointer or its string is unreadable. */
  predicate BreaksAt(mem: Mem, argv: nat, n: nat)
  {
    match ReadWord(mem, argv + 8 * n)
    case None => true
    case Some(ptr) => ptr != 0 && Scan(mem, ptr, MAX_EXECVE_ARG_STR) == None
  }

  /** The vector at argv is args, up to its null pointer or to where reading breaks off. */
  ghost predicate VectorAt(mem: Mem, argv: nat, args: seq<Bytes>, from: nat := 0)
  {
    ArgsAt(mem, argv, from, args) && (EndsAt(mem, argv, from + |args|) || BreaksAt(mem, argv, from + |args|))
  }

  function MappedFrom(mem: Mem, start: nat): set<nat>
  {
    set k | k in mem && k >= start
  }

  /** Every memory has some such vector at every place: no vector is left out. */
  lemma {:induction false} VectorFound(mem: Mem, argv: nat, from: nat) returns (args: seq<Bytes>)
    ensures VectorAt(mem, argv, args, from)
    decreases |MappedFrom(mem, argv + 8 * from)|
  {
    hide ReadWord, Scan, TextAt;
    args := [];
    var word := ReadWord(mem, argv + 8 * from);
    if word.Some? && word.value != 0 && Scan(mem, word.value, MAX_EXECVE_ARG_STR).Some? {
      TextFound(mem, word.value);
      var s := Scan(mem, word.value, MAX_EXECVE_ARG_STR).value;
      WordIsMapped(mem, argv + 8 * from);
      assert MappedFrom(mem, argv + 8 * (from + 1)) <= MappedFrom(mem, argv + 8 * from) - {argv + 8 * from};
      SmallerSet(MappedFrom(mem, argv + 8 * (from + 1)), MappedFrom(mem, argv + 8 * from), argv + 8 * from);
      var rest := VectorFound(mem, argv, from + 1);
      args := [s] + rest;
      forall k | 0 <= k < |args| ensures ArgAt(mem, argv, from + k, args[k]) {
        assert k > 0 ==> ArgAt(mem, argv, from + 1 + (k - 1), rest[k - 1]);
      }
      assert from + |args| == from + 1 + |rest|;
    }
  }

  lemma WordIsMapped(mem: Mem, at: nat)
    requires ReadWord(mem, at).Some?
    ensures at in mem
  {
  }

  lemma SmallerSet(a: set<nat>, b: set<nat>, x: nat)
    requires a <= b - {x} && x in b
    ensures |a| < |b|
  {
    var rest := b - {x} - a;
    assert b == a + rest + {x};
  }

  /** Each argument followed by a NUL. */
  function Terminated(args: seq<Bytes>): Bytes
  {
    if args == [] then [] else args[0] + [0] + Terminated(args[1..])
  }

  /** What the loop captures of args when it is at cursor with room places left. */
  function Taken(args: seq<Bytes>, cursor: nat, room: nat): seq<Bytes>
  {
    if args == [] || room == 0 || cursor > MAX_EXECVE_STATE_PAYLOAD - MAX_EXECVE_ARG_STR then []
    else if |args[0]| >= MAX_EXECVE_ARG_STR - 1 then [args[0][..MAX_EXECVE_ARG_STR - 1]]
    else [args[0]] + Taken(args[1..], cursor + |args[0]| + 1, room - 1)
  }

  predicate FitsFrom(args: seq<Bytes>, cursor: nat, room: nat)
  {
    args == [] ||
    (room > 0 && cursor <= MAX_EXECVE_STATE_PAYLOAD - MAX_EXECVE_ARG_STR && |args[0]| < MAX_EXECVE_ARG_STR - 1 &&
     FitsFrom(args[1..], cursor + |args[0]| + 1, room - 1))
  }

  /** At most eight arguments of at most 126 bytes, each starting at or before byte 128. */
  predicate Fits(args: seq<Bytes>, start: nat)
  {
    |args| <= 8 && forall k :: 0 <= k < |args| ==> |args[k]| <= 126 && start + |Terminated(args[..k])| <= 128
  }

  /** The parts are the first arguments, the last of them perhaps cut to 127 bytes. */
  ghost predicate CutPrefix(parts: seq<Bytes>, args: seq<Bytes>)
  {
    || parts <= args
    || (parts != [] && |parts| <= |args| && parts[..|parts| - 1] <= args &&
        |args[|parts| - 1]| >= 127 && parts[|parts| - 1] == args[|parts| - 1][..127])
  }

  lemma {:induction false} FitsClosed(args: seq<Bytes>, cursor: nat, room: nat)
    ensures FitsFrom(args, cursor, room) <==>
            |args| <= room && forall k :: 0 <= k < |args| ==>
              |args[k]| <= 126 && cursor + |Terminated(args[..k])| <= 128
  {
    if args != [] {
      var rest := args[1..];
      if room > 0 {
        FitsClosed(rest, cursor + |args[0]| + 1, room - 1);
      }
      forall k | 0 <= k < |rest|
        ensures rest[k] == args[k + 1]
        ensures |Terminated(args[..k + 1])| == |args[0]| + 1 + |Terminated(rest[..k])|
      {
        assert args[..k + 1][1..] == rest[..k];
      }
      assert args[..0] == [];
      assert forall k :: 0 < k < |args| ==> args[k] == rest[k - 1];
    }
  }

  lemma {:induction false} FitsTaken(args: seq<Bytes>, cursor: nat, room: nat)
    ensures FitsFrom(args, cursor, room) ==> Taken(args, cursor, room) == args
    ensures CutPrefix(Taken(args, cursor, room), args)
  {
    var parts := Taken(args, cursor, room);
    if args != [] && parts != [] && |args[0]| < 127 {
      FitsTaken(args[1..], cursor + |args[0]| + 1, room - 1);
      var rest := Taken(args[1..], cursor + |args[0]| + 1, room - 1);
      assert args == [args[0]] + args[1..];
      if rest <= args[1..] {
        assert parts <= args;
      } else {
        assert parts[..|parts| - 1] == [args[0]] + rest[..|rest| - 1];
        assert args[|parts| - 1] == args[1..][|rest| - 1];
      }
    }
  }

  // ---------------------------------------------------------------------
  // The loop captures exactly that

  /**
   The flag for a vector whose arguments fit or not, and which has the end or an
   unreadable place at n: cut if they do not fit; none at the end; a read error at an
   unreadable pointer, or at an unreadable string there would have been room for; and
   else cut, for the pointer tells that there is more.
   */
  function Verdict(mem: Mem, argv: nat, n: nat, fit: bool, room: bool): U8
  {
    if !fit then VAR_FLAG_TRUNCATED
    else match ReadWord(mem, argv + 8 * n)
      case None => VAR_FLAG_READ_ERROR
      case Some(ptr) => if ptr == 0 then VAR_FLAG_NONE else if room then VAR_FLAG_READ_ERROR else VAR_FLAG_TRUNCATED
  }

  /** From place i on, the loop captures args as far as they fit and flags whatever is missing. */
  ghost predicate Captures(payload: Bytes, cursor: nat, i: nat, mem: Mem, argv: nat, args: seq<Bytes>)
    requires |payload| == MAX_EXECVE_STATE_PAYLOAD && cursor <= MAX_EXECVE_STATE_PAYLOAD && i <= MAX_EXECVE_ARGV
  {
    var r := ArgvFrom(payload, cursor, i, mem, argv);
    var flags := if r.exhausted then BeyondFlags(mem, argv) else r.flags;
    && r.payload[cursor..r.cursor] == Terminated(Taken(args, cursor, MAX_EXECVE_ARGV - i))
    && flags == Verdict(mem, argv, i + |args|, FitsFrom(args, cursor, MAX_EXECVE_ARGV - i),
                        i + |args| < MAX_EXECVE_ARGV && cursor + |Terminated(args)| <= MAX_EXECVE_STATE_PAYLOAD - MAX_EXECVE_ARG_STR)
  }

  lemma {:induction false} LoopCaptures(payload: Bytes, cursor: nat, i: nat, mem: Mem, argv: nat, args: seq<Bytes>)
    requires |payload| == MAX_EXECVE_STATE_PAYLOAD && cursor <= MAX_EXECVE_STATE_PAYLOAD && i <= MAX_EXECVE_ARGV
    requires VectorAt(mem, argv, args, i)
    ensures Captures(payload, cursor, i, mem, argv, args)
    decreases MAX_EXECVE_ARGV - i
  {
    hide ArgvFrom, ReadWord, Scan, Captures;
    if args == [] || i == MAX_EXECVE_ARGV || cursor > MAX_EXECVE_STATE_PAYLOAD - MAX_EXECVE_ARG_STR {
      LoopStops(payload, cursor, i, mem, argv, args);
    } else {
      assert ArgAt(mem, argv, i + 0, args[0]);
      LoopTakesOne(payload, cursor, i, mem, argv, args);
      if |args[0]| < MAX_EXECVE_ARG_STR - 1 {
        var rest := args[1..];
        forall k | 0 <= k < |rest| ensures ArgAt(mem, argv, i + 1 + k, rest[k]) {
          assert ArgAt(mem, argv, i + (k + 1), args[k + 1]);
        }
        var next := Splice(payload, cursor, args[0] + [0]);
        var mid := cursor + |args[0]| + 1;
        assert i + 1 + |rest| == i + |args|;
        LoopCaptures(next, mid, i + 1, mem, argv, rest);
        LoopJoins(payload, cursor, i, mem, argv, args);
      }
    }
  }

  /** Nothing more is captured. */
  lemma LoopStops(payload: Bytes, cursor: nat, i: nat, mem: Mem, argv: nat, args: seq<Bytes>)
    requires |payload| == MAX_EXECVE_STATE_PAYLOAD && cursor <= MAX_EXECVE_STATE_PAYLOAD && i <= MAX_EXECVE_ARGV
    requires args == [] || i == MAX_EXECVE_ARGV || cursor > MAX_EXECVE_STATE_PAYLOAD - MAX_EXECVE_ARG_STR
    requires VectorAt(mem, argv, args, i)
    ensures Captures(payload, cursor, i, mem, argv, args)
  {
    hide ReadWord, Scan;
    if args != [] {
      assert ArgAt(mem, argv, i + 0, args[0]);
    }
  }

  /** An argument taken and the captures behind it are the captures of all. */
  lemma LoopJoins(payload: Bytes, cursor: nat, i: nat, mem: Mem, argv: nat, args: seq<Bytes>)
    requires |payload| == MAX_EXECVE_STATE_PAYLOAD && i < MAX_EXECVE_ARGV
    requires cursor <= MAX_EXECVE_STATE_PAYLOAD - MAX_EXECVE_ARG_STR
    requires args != [] && |args[0]| < MAX_EXECVE_ARG_STR - 1
    requires var next := Splice(payload, cursor, args[0] + [0]);
             var mid := cursor + |args[0]| + 1;
             && ArgvFrom(payload, cursor, i, mem, argv) == ArgvFrom(next, mid, i + 1, mem, argv)
             && Captures(next, mid, i + 1, mem, argv, args[1..])
    ensures Captures(payload, cursor, i, mem, argv, args)
  {
    hide ArgvFrom;
    var r := ArgvFrom(payload, cursor, i, mem, argv);
    var next := Splice(payload, cursor, args[0] + [0]);
    var mid := cursor + |args[0]| + 1;
    assert r.payload[cursor..mid] == r.payload[..mid][cursor..];
    assert next[cursor..mid] == next[..mid][cursor..];
    assert r.payload[cursor..mid] == args[0] + [0];
    assert r.payload[cursor..r.cursor] == r.payload[cursor..mid] + r.payload[mid..r.cursor];
    var taken := Taken(args, cursor, MAX_EXECVE_ARGV - i);
    assert taken[1..] == Taken(args[1..], mid, MAX_EXECVE_ARGV - i - 1);
  }

  /** One turn of the loop on a readable argument. */
  lemma LoopTakesOne(payload: Bytes, cursor: nat, i: nat, mem: Mem, argv: nat, args: seq<Bytes>)
    requires |payload| == MAX_EXECVE_STATE_PAYLOAD && i < MAX_EXECVE_ARGV
    requires cursor <= MAX_EXECVE_STATE_PAYLOAD - MAX_EXECVE_ARG_STR
    requires args != [] && ArgAt(mem, argv, i, args[0])
    ensures var r := ArgvFrom(payload, cursor, i, mem, argv);
            var cut := args[0][..Min(|args[0]|, MAX_EXECVE_ARG_STR - 1)];
            var next := Splice(payload, cursor, cut + [0]);
            if |args[0]| >= MAX_EXECVE_ARG_STR - 1
            then Captures(payload, cursor, i, mem, argv, args)
            else r == ArgvFrom(next, cursor + |args[0]| + 1, i + 1, mem, argv) && cut == args[0]
  {
    var ptr := ReadWord(mem, argv + 8 * i).value;
    ScanText(mem, ptr, args[0]);
    var s := args[0][..Min(|args[0]|, MAX_EXECVE_ARG_STR)];
    var cut := args[0][..Min(|args[0]|, MAX_EXECVE_ARG_STR - 1)];
    assert s[..Min(|s|, MAX_EXECVE_ARG_STR - 1)] == cut;
    assert ProbeStr(mem, ptr, MAX_EXECVE_ARG_STR) == Probe(cut + [0], |cut| + 1);
    var one: seq<Bytes> := [cut];
    assert one[1..] == [];
  }

  lemma {:induction false} IndexOfFirst(x: Bytes, y: Bytes)
    requires 0 !in x
    ensures IndexNul(x + [0] + y) == |x|
  {
    if x != [] {
      assert (x + [0] + y)[1..] == x[1..] + [0] + y;
      assert x[0] in x;
      IndexOfFirst(x[1..], y);
    }
  }

  lemma {:induction false} SplitTerminated(args: seq<Bytes>)
    requires forall k :: 0 <= k < |args| ==> 0 !in args[k]
    ensures SplitNuls(Terminated(args)) == args
  {
    if args != [] {
      var s, n := Terminated(args), |args[0]|;
      IndexOfFirst(args[0], Terminated(args[1..]));
      assert s[..n] == args[0] && s[n + 1..] == Terminated(args[1..]);
      SplitTerminated(args[1..]);
    }
  }

  lemma SplitFirst(x: Bytes, rest: Bytes)
    requires 0 !in x
    ensures SplitNuls(x + [0] + rest) == [x] + SplitNuls(rest)
  {
    var s := x + [0] + rest;
    IndexOfFirst(x, rest);
    assert s[..|x|] == x && s[|x| + 1..] == rest;
  }

  lemma SplitLast(last: Bytes)
    requires last != [] && 0 !in last
    ensures SplitNuls(last) == [last]
  {
    assert forall k :: 0 <= k < |last| ==> last[k] != 0;
  }

  /** A piece at the end without a NUL counts too. */
  lemma {:induction false} SplitUnterminated(args: seq<Bytes>, last: Bytes)
    requires last != [] && 0 !in last && forall k :: 0 <= k < |args| ==> 0 !in args[k]
    ensures SplitNuls(Terminated(args) + last) == args + [last]
  {
    hide SplitNuls;
    if args == [] {
      SplitLast(last);
      assert Terminated(args) + last == last;
    } else {
      var rest := Terminated(args[1..]) + last;
      assert Terminated(args) + last == args[0] + [0] + rest;
      SplitFirst(args[0], rest);
      SplitUnterminated(args[1..], last);
      assert [args[0]] + (args[1..] + [last]) == args + [last];
    }
  }

  lemma {:induction false} TakenNulFree(args: seq<Bytes>, cursor: nat, room: nat)
    requires forall k :: 0 <= k < |args| ==> 0 !in args[k]
    ensures forall k :: 0 <= k < |Taken(args, cursor, room)| ==> 0 !in Taken(args, cursor, room)[k]
  {
    if args != [] && room > 0 && |args[0]| < 127 {
      TakenNulFree(args[1..], cursor + |args[0]| + 1, room - 1);
    }
  }

  // ---------------------------------------------------------------------
  // The whole way: memory, snapshot, event, printed parts

  /** How many bytes of the file name the snapshot holds; argv starts behind them. */
  function NameLength(mem: Mem, filename: U64): nat
  {
    if filename == 0 then 0
    else match Scan(mem, filename, MAX_EXECVE_ARG_STR)
      case None => 0
      case Some(s) => Min(|s|, MAX_EXECVE_ARG_STR - 1)
  }

  /**
   How the file name ends up, whatever the argv behind it: as NULL, as unreadable, or as
   its first 127 bytes, flagged if it has 127 or more.
   */
  lemma FileNameExactly(base: Event, mem: Mem, filename: U64, argv: U64)
    ensures var ev := WithSnapshot(base, ExecveSnapshot(mem, filename, argv));
            var d := FirstDesc(ev, 0);
            var scan := Scan(mem, filename, MAX_EXECVE_ARG_STR);
            && d.Some?
            && d.value.flags == (if filename == 0 then VAR_FLAG_NULL_POINTER else if scan.None? then VAR_FLAG_READ_ERROR
                                 else if |scan.value| >= 127 then VAR_FLAG_TRUNCATED else VAR_FLAG_NONE)
            && (filename != 0 && scan.Some? ==> VarPayloadSlice(ev, d.value) == Some(scan.value[..Min(|scan.value|, 127)]))
  {
    hide AppendExecveArgv, Scan;
    var named := AppendExecveString(NoSnapshot(), 0, mem, filename);
    assert named.varCount == 1 && named.payloadLen <= MAX_EXECVE_STATE_PAYLOAD && named.descs[0].argIndex == 0;
    ArgvBehind(named, mem, argv);
    var snap := ExecveSnapshot(mem, filename, argv);
    var ev := WithSnapshot(base, snap);
    assert FirstDesc(ev, 0) == Some(named.descs[0]);
    var scan := Scan(mem, filename, MAX_EXECVE_ARG_STR);
    if filename != 0 && scan.Some? {
      var text := scan.value[..Min(|scan.value|, 127)];
      var data := text + [0];
      assert named.payload == Splice(NoSnapshot().payload, 0, data);
      assert named.payload[..|text|] == data[..|text|];
      assert ev.payload[0..|text|] == snap.payload[..|text|] == text;
    }
  }

  /** A NULL argv is marked as such, behind any file name. */
  lemma NullArgv(base: Event, mem: Mem, filename: U64)
    ensures var ev := WithSnapshot(base, ExecveSnapshot(mem, filename, 0));
            FirstDesc(ev, 1).Some? && FirstDesc(ev, 1).value.flags == VAR_FLAG_NULL_POINTER
  {
    hide Scan;
    var ev := WithSnapshot(base, ExecveSnapshot(mem, filename, 0));
    assert FirstDesc(ev, 1) == FirstDesc(ev, 1, 1);
  }

  /** The file name in the snapshot is not disturbed by the argv behind it. */
  lemma FileNameKept(base: Event, mem: Mem, filename: U64, argv: U64, s: Bytes)
    requires StringAt(mem, filename, s)
    ensures var ev := WithSnapshot(base, ExecveSnapshot(mem, filename, argv));
            var d := FirstDesc(ev, 0);
            && d.Some? && VarPayloadSlice(ev, d.value) == Some(s[..Min(|s|, 127)])
            && (d.value.flags == VAR_FLAG_NONE <==> |s| <= 126)
  {
    NamePacked(mem, filename, s);
    var named := AppendExecveString(NoSnapshot(), 0, mem, filename);
    var n := Min(|s|, MAX_EXECVE_ARG_STR - 1);
    ArgvBehind(named, mem, argv);
    var snap := ExecveSnapshot(mem, filename, argv);
    var ev := WithSnapshot(base, snap);
    assert FirstDesc(ev, 0) == Some(snap.descs[0]);
    assert ev.payload[0..n] == snap.payload[..n];
  }

  /** 127 letters and a NUL, at address 1. */
  const LONG_FILE_NAME: Mem := map k: nat | 1 <= k <= 128 :: if k == 128 then 0 else 97

  /** A complete file name of 127 bytes is decoded whole and yet flagged. */
  lemma CompleteNameFlagged(base: Event, argv: U64)
    ensures var s := seq(127, _ => 97 as U8);
            var ev := WithSnapshot(base, ExecveSnapshot(LONG_FILE_NAME, 1, argv));
            && StringAt(LONG_FILE_NAME, 1, s)
            && FirstDesc(ev, 0).Some? && FirstDesc(ev, 0).value.flags != VAR_FLAG_NONE
            && VarPayloadSlice(ev, FirstDesc(ev, 0).value) == Some(s)
  {
    var s := seq(127, _ => 97 as U8);
    forall k | 0 <= k < |s| ensures ByteAt(LONG_FILE_NAME, 1 + k) == Some(s[k]) {
    }
    assert ByteAt(LONG_FILE_NAME, 1 + |s|) == Some(0);
    assert StringAt(LONG_FILE_NAME, 1, s);
    hide ExecveSnapshot, LONG_FILE_NAME;
    FileNameKept(base, LONG_FILE_NAME, 1, argv, s);
    assert s[..127] == s;
  }

  /** The file name is packed first, cut to 127 bytes. */
  lemma NamePacked(mem: Mem, filename: U64, s: Bytes)
    requires StringAt(mem, filename, s)
    ensures var r := AppendExecveString(NoSnapshot(), 0, mem, filename);
            var n := Min(|s|, MAX_EXECVE_ARG_STR - 1);
            && r.payload[..n] == s[..n] && r.payloadLen == n && r.varCount == 1
            && r.descs[0] == VarArgDesc(0, if |s| <= 126 then VAR_FLAG_NONE else VAR_FLAG_TRUNCATED, 0, n)
  {
    assert ByteAt(mem, filename + |s|) == Some(0) && (|s| > 0 ==> ByteAt(mem, filename + 0) == Some(s[0]));
    assert filename != 0;
    ScanString(mem, filename, s, MAX_EXECVE_ARG_STR);
    var n := Min(|s|, MAX_EXECVE_ARG_STR - 1);
    var found := s[..Min(|s|, MAX_EXECVE_ARG_STR)];
    assert found[..Min(|found|, MAX_EXECVE_ARG_STR - 1)] == s[..n];
    var r := AppendExecveString(NoSnapshot(), 0, mem, filename);
    assert r.payload == Splice(NoSnapshot().payload, 0, s[..n] + [0]);
    assert r.payload[0..n + 1] == s[..n] + [0];
    assert r.payload[..n] == r.payload[0..n + 1][..n];
  }

  /** The argv is packed behind what is there and leaves it alone. */
  lemma ArgvBehind(p: Packed, mem: Mem, argv: U64)
    requires SnapshotShape(p) && p.varCount == 1 && p.payloadLen <= MAX_EXECVE_STATE_PAYLOAD
    ensures var r := AppendExecveArgv(p, 1, mem, argv);
            && r.payload[..p.payloadLen] == p.payload[..p.payloadLen] && r.descs[0] == p.descs[0]
            && p.payloadLen <= r.payloadLen <= MAX_EXECVE_STATE_PAYLOAD && r.varCount == 2
            && r.descs[1].argIndex == 1
  {
    hide ArgvFrom, BeyondFlags;
  }

  /**
   The printed parts are the process's arguments: all of them exactly when the
   descriptor carries no flag, which is exactly when the vector is readable and
   fits; otherwise the first of them, the last one perhaps cut.
   */
  lemma ArgvRoundTrip(base: Event, mem: Mem, filename: U64, argv: U64, args: seq<Bytes>)
    requires argv != 0 && VectorAt(mem, argv, args)
    ensures var ev := WithSnapshot(base, ExecveSnapshot(mem, filename, argv));
            var d := FirstDesc(ev, 1);
            && d.Some? && ev.payloadLen <= 256
            && VarPayloadSlice(ev, d.value).Some?
            && var parts := SplitNuls(VarPayloadSlice(ev, d.value).value);
               && d.value.flags == Verdict(mem, argv, |args|, Fits(args, NameLength(mem, filename)),
                                           |args| < 8 && NameLength(mem, filename) + |Terminated(args)| <= 128)
               && (d.value.flags == VAR_FLAG_NONE <==>
                   EndsAt(mem, argv, |args|) && Fits(args, NameLength(mem, filename)))
               && (d.value.flags == VAR_FLAG_NONE ==> parts == args)
               && CutPrefix(parts, args)
  {
    hide ArgvFrom, Taken, FitsFrom, Fits, ReadWord, Scan, Terminated, SplitNuls, CutPrefix;
    var named := AppendExecveString(NoSnapshot(), 0, mem, filename);
    var start := named.payloadLen;
    assert start == NameLength(mem, filename) && named.varCount == 1;
    ArgvBehind(named, mem, argv);
    LoopCaptures(named.payload, start, 0, mem, argv, args);
    var snap := AppendExecveArgv(named, 1, mem, argv);
    SnapshotDecodes(base, snap, start);
    assert EndsAt(mem, argv, 0 + |args|) == EndsAt(mem, argv, |args|);
    var taken := Taken(args, start, MAX_EXECVE_ARGV);
    FitsExactly(args, start);
    FitsTaken(args, start, MAX_EXECVE_ARGV);
    forall k | 0 <= k < |args| ensures 0 !in args[k] {
      assert ArgAt(mem, argv, 0 + k, args[k]);
      ScanText(mem, ReadWord(mem, argv + 8 * (0 + k)).value, args[k]);
    }
    TakenNulFree(args, start, MAX_EXECVE_ARGV);
    SplitTerminated(taken);
  }

  lemma FitsExactly(args: seq<Bytes>, start: nat)
    ensures Fits(args, start) <==> FitsFrom(args, start, MAX_EXECVE_ARGV)
  {
    FitsClosed(args, start, MAX_EXECVE_ARGV);
  }

  /** The event's second descriptor is the snapshot's, and so are its bytes. */
  lemma SnapshotDecodes(base: Event, snap: Packed, start: nat)
    requires SnapshotShape(snap) && snap.varCount == 2 && snap.descs[0].argIndex == 0 && snap.descs[1].argIndex == 1
    requires snap.descs[1].offset == start && start + snap.descs[1].length == snap.payloadLen <= MAX_EXECVE_STATE_PAYLOAD
    ensures var ev := WithSnapshot(base, snap);
            && FirstDesc(ev, 1) == Some(snap.descs[1])
            && VarPayloadSlice(ev, snap.descs[1]) == Some(snap.payload[start..snap.payloadLen])
  {
    var ev := WithSnapshot(base, snap);
    assert FirstDesc(ev, 1) == FirstDesc(ev, 1, 1);
    assert ev.payload[start..snap.payloadLen] == snap.payload[start..snap.payloadLen];
  }
}
