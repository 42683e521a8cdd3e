/**
 The traced process's memory, as the tracer's probe helpers see it: a byte per
 readable address.  Page zero is never mapped.
 */
module Memory {
  import opened Base

  type Mem = m: map<nat, U8> | 0 !in m witness map[]

  function ByteAt(mem: Mem, ptr: nat): Option<U8>
  {
    if ptr in mem then Some(mem[ptr]) else None
  }

  /** n bytes at ptr, or nothing if any of them is unreadable. */
  function ReadBytes(mem: Mem, ptr: nat, n: nat): (r: Option<Bytes>)
    ensures r.Some? <==> forall a: nat :: ptr <= a < ptr + n ==> ByteAt(mem, a).Some?
    ensures r.Some? ==> |r.value| == n
    ensures r.Some? ==> forall k :: 0 <= k < n ==> ByteAt(mem, ptr + k) == Some(r.value[k])
    decreases n
  {
    if n == 0 then Some([])
    else match ByteAt(mem, ptr)
      case None => None
      case Some(b) =>
        match ReadBytes(mem, ptr + 1, n - 1)
        case None => None
        case Some(rest) => Some([b] + rest)
  }

  function LittleEndian(b: Bytes): nat
  {
    if b == [] then 0 else b[0] + 0x100 * LittleEndian(b[1..])
  }

  /** A 64-bit word, least significant byte first. */
  function ReadWord(mem: Mem, ptr: nat): (r: Option<U64>)
  {
    match ReadBytes(mem, ptr, 8)
    case None => None
    case Some(b) => Some(LittleEndian(b) % 0x1_0000_0000_0000_0000)
  }

  function Byte(b: Bytes, k: nat): int
    requires k < |b|
  {
    b[k]
  }

  lemma {:induction false} FourBytes(b: Bytes)
    requires |b| == 4
    ensures LittleEndian(b) == Byte(b, 0) + 0x100 * Byte(b, 1) + 0x1_0000 * Byte(b, 2) + 0x100_0000 * Byte(b, 3)
  {
    var b1 := b[1..];
    var b2 := b1[1..];
    var b3 := b2[1..];
    assert b3[1..] == [];
    assert LittleEndian(b3) == Byte(b, 3);
    assert LittleEndian(b2) == Byte(b, 2) + 0x100 * LittleEndian(b3);
    assert LittleEndian(b1) == Byte(b, 1) + 0x100 * LittleEndian(b2);
  }

  lemma {:induction false} SplitEndian(a: Bytes, b: Bytes)
    requires |a| == 4
    ensures LittleEndian(a + b) == LittleEndian(a) + 0x1_0000_0000 * LittleEndian(b)
  {
    var c := a + b;
    assert c[1..] == a[1..] + b;
    assert c[1..][1..] == a[2..] + b;
    assert c[1..][1..][1..] == a[3..] + b;
    assert c[1..][1..][1..][1..] == b;
    assert a[1..][1..] == a[2..] && a[2..][1..] == a[3..] && a[3..][1..] == [];
    hide LittleEndian;
    OneByte(a + b);
    OneByte(a[1..] + b);
    OneByte(a[2..] + b);
    OneByte(a[3..] + b);
    FourBytes(a);
  }

  lemma OneByte(b: Bytes)
    requires b != []
    ensures LittleEndian(b) == Byte(b, 0) + 0x100 * LittleEndian(b[1..])
  {
  }

  /** The value of a readable word, by the places of its bytes. */
  lemma WordValue(mem: Mem, ptr: nat, b: Bytes)
    requires |b| == 8 && ReadBytes(mem, ptr, 8) == Some(b)
    ensures ReadWord(mem, ptr).Some?
    ensures ReadWord(mem, ptr).value as int ==
            Byte(b, 0) + 0x100 * Byte(b, 1) + 0x1_0000 * Byte(b, 2) + 0x100_0000 * Byte(b, 3) +
            0x1_0000_0000 * (Byte(b, 4) + 0x100 * Byte(b, 5) + 0x1_0000 * Byte(b, 6) + 0x100_0000 * Byte(b, 7))
  {
    hide LittleEndian, ReadBytes;
    var lo, hi := b[..4], b[4..];
    assert b == lo + hi;
    SplitEndian(lo, hi);
    FourBytes(lo);
    FourBytes(hi);
    assert forall k :: 0 <= k < 4 ==> Byte(lo, k) == Byte(b, k) && Byte(hi, k) == Byte(b, k + 4);
    assert 0 <= LittleEndian(lo) <= 0xffff_ffff && 0 <= LittleEndian(hi) <= 0xffff_ffff;
  }

  /**
   What a string read of at most n bytes sees before the NUL: n bytes if there
   was none among them, nothing if it met an unreadable byte.
   */
  function Scan(mem: Mem, ptr: nat, n: nat): (r: Option<Bytes>)
    ensures r.Some? ==> |r.value| <= n && 0 !in r.value
    decreases n
  {
    if n == 0 then Some([])
    else match ByteAt(mem, ptr)
      case None => None
      case Some(b) =>
        if b == 0 then Some([])
        else match Scan(mem, ptr + 1, n - 1)
          case None => None
          case Some(rest) => Some([b] + rest)
  }

  /** The NUL-terminated string s lies at ptr. */
  ghost predicate StringAt(mem: Mem, ptr: nat, s: Bytes)
  {
    && 0 !in s
    && (forall k :: 0 <= k < |s| ==> ByteAt(mem, ptr + k) == Some(s[k]))
    && ByteAt(mem, ptr + |s|) == Some(0)
  }

  /** Scanning a string yields it, cut at the limit. */
  lemma {:induction false} ScanString(mem: Mem, ptr: nat, s: Bytes, n: nat)
    requires StringAt(mem, ptr, s)
    ensures Scan(mem, ptr, n) == Some(s[..Min(|s|, n)])
    decreases n
  {
    if n > 0 {
      if s != [] {
        assert ByteAt(mem, ptr + 0) == Some(s[0]);
        assert s[0] in s;
        var t := s[1..];
        forall k | 0 <= k < |t| ensures ByteAt(mem, ptr + 1 + k) == Some(t[k]) {
          assert ByteAt(mem, ptr + (k + 1)) == Some(s[k + 1]);
        }
        assert ByteAt(mem, ptr + 1 + |t|) == ByteAt(mem, ptr + |s|);
        ScanString(mem, ptr + 1, t, n - 1);
        assert s[..Min(|s|, n)] == [s[0]] + t[..Min(|t|, n - 1)];
      } else {
        assert ByteAt(mem, ptr + |s|) == ByteAt(mem, ptr);
      }
    }
  }

  /** A scan that stopped early found the whole string. */
  lemma {:induction false} ScanFound(mem: Mem, ptr: nat, n: nat)
    requires Scan(mem, ptr, n).Some? && |Scan(mem, ptr, n).value| < n
    ensures StringAt(mem, ptr, Scan(mem, ptr, n).value)
    decreases n
  {
    var s := Scan(mem, ptr, n).value;
    if ByteAt(mem, ptr) != Some(0) {
      ScanFound(mem, ptr + 1, n - 1);
      var t := Scan(mem, ptr + 1, n - 1).value;
      assert s == [ByteAt(mem, ptr).value] + t;
      forall k | 0 <= k < |s| ensures ByteAt(mem, ptr + k) == Some(s[k]) {
        if k > 0 {
          assert ByteAt(mem, ptr + 1 + (k - 1)) == Some(t[k - 1]);
        }
      }
      assert ByteAt(mem, ptr + |s|) == ByteAt(mem, ptr + 1 + |t|);
    }
  }

  /** The bytes s lie at ptr, without a NUL among them; what follows may be unreadable. */
  ghost predicate RunAt(mem: Mem, ptr: nat, s: Bytes)
  {
    0 !in s && forall k :: 0 <= k < |s| ==> ByteAt(mem, ptr + k) == Some(s[k])
  }

  /** Scanning no further than a run yields its beginning. */
  lemma {:induction false} ScanRun(mem: Mem, ptr: nat, s: Bytes, n: nat)
    requires RunAt(mem, ptr, s) && n <= |s|
    ensures Scan(mem, ptr, n) == Some(s[..n])
    decreases n
  {
    if n > 0 {
      assert ByteAt(mem, ptr + 0) == Some(s[0]);
      assert s[0] in s;
      var t := s[1..];
      forall k | 0 <= k < |t| ensures ByteAt(mem, ptr + 1 + k) == Some(t[k]) {
        assert ByteAt(mem, ptr + (k + 1)) == Some(s[k + 1]);
      }
      ScanRun(mem, ptr + 1, t, n - 1);
      assert s[..n] == [s[0]] + t[..n - 1];
    }
  }

  /** A scan that used its whole room found a run. */
  lemma {:induction false} ScanFoundRun(mem: Mem, ptr: nat, n: nat)
    requires Scan(mem, ptr, n).Some?
    ensures RunAt(mem, ptr, Scan(mem, ptr, n).value)
    decreases n
  {
    var s := Scan(mem, ptr, n).value;
    if n > 0 && ByteAt(mem, ptr) != Some(0) {
      ScanFoundRun(mem, ptr + 1, n - 1);
      var t := Scan(mem, ptr + 1, n - 1).value;
      assert s == [ByteAt(mem, ptr).value] + t;
      forall k | 0 <= k < |s| ensures ByteAt(mem, ptr + k) == Some(s[k]) {
        if k > 0 {
          assert ByteAt(mem, ptr + 1 + (k - 1)) == Some(t[k - 1]);
        }
      }
    }
  }
}
