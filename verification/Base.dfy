/** Machine integers, byte strings and the option type shared by every module. */
module Base {

  datatype Option<+T> = None | Some(value: T)

  const TWO_16: int := 0x1_0000
  const TWO_32: int := 0x1_0000_0000
  const TWO_63: int := 0x8000_0000_0000_0000
  const TWO_64: int := 0x1_0000_0000_0000_0000

  type U8 = x: int | 0 <= x < 0x100
  type U16 = x: int | 0 <= x < TWO_16
  type U32 = x: int | 0 <= x < TWO_32
  type U64 = x: int | 0 <= x < TWO_64
  type I64 = x: int | -TWO_63 <= x < TWO_63

  /** Go strings and byte slices, and C buffers, alike. */
  type Bytes = seq<U8>

  /** uint32(raw): also how an fd argument is normalised. */
  function Low32(raw: int): (r: U32)
  {
    raw % 0x1_0000_0000
  }

  /** int64(int32(raw)). */
  function SignedLow32(raw: U64): (r: I64)
  {
    var low := Low32(raw);
    if low < TWO_32 / 2 then low else low - TWO_32
  }

  /** int(raw) of a 64-bit word. */
  function Signed64(raw: U64): (r: I64)
  {
    if raw < TWO_63 then raw else raw - TWO_64
  }

  /** Unsigned 64-bit addition with wrap-around. */
  function Add64(a: U64, b: U64): (r: U64)
  {
    (a + b) % 0x1_0000_0000_0000_0000
  }

  /** Unsigned 64-bit difference of two times, with wrap-around. */
  function Elapsed(now: U64, since: U64): (r: U64)
  {
    (now - since) % 0x1_0000_0000_0000_0000
  }

  function Min(a: int, b: int): int
  {
    if a < b then a else b
  }

  /** The low half of a word, and its sign: AT_FDCWD is 0xffffff9c. */
  lemma HalvesOfWords(hi: nat, lo: U32)
    ensures Low32(TWO_32 * hi + lo) == lo
    ensures TWO_32 * hi + lo < TWO_64 ==>
              SignedLow32(TWO_32 * hi + lo) == (if lo < 0x8000_0000 then lo else lo - 0x1_0000_0000)
  {
  }

  /** Sums and differences are the true ones when these fit into a word. */
  lemma WordsWithinRange(a: U64, b: U64)
    ensures a + b < TWO_64 ==> Add64(a, b) == a + b
    ensures b <= a ==> Elapsed(a, b) == a - b
  {
  }
}
