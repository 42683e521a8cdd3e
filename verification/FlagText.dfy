/** The printed line of flags: parts joined by bars, leftover bits in hex; and reading it back. */
module FlagText {
  import opened Flags

  // ---------------------------------------------------------------------
  // Hexadecimal

  function Digit(n: nat): char
    requires n < 16
  {
    if n < 10 then '0' + n as char else 'a' + (n - 10) as char
  }

  function DigitValue(c: char): nat
  {
    if '0' <= c <= '9' then (c - '0') as nat else if 'a' <= c <= 'f' then (c - 'a') as nat + 10 else 0
  }

  function HexText(n: nat): string
  {
    if n < 16 then [Digit(n)] else HexText(n / 16) + [Digit(n % 16)]
  }

  function HexValue(s: string): nat
  {
    if s == "" then 0 else 16 * HexValue(s[..|s| - 1]) + DigitValue(s[|s| - 1])
  }

  lemma DigitReadBack(n: nat)
    requires n < 16
    ensures DigitValue(Digit(n)) == n && Digit(n) != '|'
  {
  }

  lemma {:induction false} HexReadBack(n: nat)
    ensures HexValue(HexText(n)) == n && '|' !in HexText(n)
  {
    var s := HexText(n);
    DigitReadBack(n % 16);
    if n < 16 {
      assert s[..0] == "";
      assert HexValue("") == 0;
    } else {
      HexReadBack(n / 16);
      assert s[..|s| - 1] == HexText(n / 16);
    }
  }

  function Number(b: bv64): nat
  {
    b as nat
  }

  function Word(n: nat): bv64
  {
    if n < 0x1_0000_0000_0000_0000 then n as bv64 else 0
  }

  lemma WordReadBack(b: bv64)
    ensures Word(Number(b)) == b
  {
  }

  // ---------------------------------------------------------------------
  // Parts and bars

  function TokenText(t: Token): string
  {
    match t
    case Named(name) => name
    case Hex(bits) => "0x" + HexText(Number(bits))
  }

  function Text(parts: seq<Token>): string
  {
    if parts == [] then ""
    else if |parts| == 1 then TokenText(parts[0])
    else TokenText(parts[0]) + "|" + Text(parts[1..])
  }

  function ReadToken(s: string): Token
  {
    if "0x" <= s then Hex(Word(HexValue(s[2..]))) else Named(s)
  }

  /** Where the first bar is, or the end. */
  function FirstBar(s: string): (i: nat)
    ensures i <= |s| && '|' !in s[..i]
    ensures i < |s| ==> s[i] == '|'
  {
    if s == "" || s[0] == '|' then 0
    else
      var k := FirstBar(s[1..]);
      assert s[..k + 1] == [s[0]] + s[1..][..k];
      k + 1
  }

  function ReadText(s: string): seq<Token>
    decreases |s|
  {
    var i := FirstBar(s);
    if i == |s| then [ReadToken(s)] else [ReadToken(s[..i])] + ReadText(s[i + 1..])
  }

  /** A name as the tables have them: no bar in it, and not like a number. */
  predicate Plain(name: string)
  {
    '|' !in name && !("0x" <= name)
  }

  predicate PlainToken(t: Token)
  {
    t.Named? ==> Plain(t.name)
  }

  lemma TokenReadBack(t: Token)
    requires PlainToken(t)
    ensures ReadToken(TokenText(t)) == t && '|' !in TokenText(t)
  {
    if t.Hex? {
      var digits := HexText(Number(t.bits));
      HexReadBack(Number(t.bits));
      WordReadBack(t.bits);
      assert TokenText(t)[2..] == digits;
      forall c | c in TokenText(t) ensures c != '|' {
        assert c in "0x" || c in digits;
      }
    }
  }

  lemma {:induction false} FirstBarAt(x: string, y: string)
    requires '|' !in x
    ensures FirstBar(x) == |x| && FirstBar(x + "|" + y) == |x|
  {
    if x != "" {
      assert (x + "|" + y)[1..] == x[1..] + "|" + y;
      assert x[0] in x;
      FirstBarAt(x[1..], y);
    }
  }

  /** Nothing of the parts is lost by joining them. */
  lemma {:induction false} TextReadBack(parts: seq<Token>)
    requires parts != [] && forall k :: 0 <= k < |parts| ==> PlainToken(parts[k])
    ensures ReadText(Text(parts)) == parts
  {
    var x, y := TokenText(parts[0]), Text(parts[1..]);
    TokenReadBack(parts[0]);
    FirstBarAt(x, y);
    if |parts| > 1 {
      TextReadBack(parts[1..]);
      var s := x + "|" + y;
      assert s[..|x|] == x && s[|x| + 1..] == y;
    }
  }

  // ---------------------------------------------------------------------
  // The printed flags

  predicate PlainTable(table: seq<FlagEntry>)
  {
    forall k :: 0 <= k < |table| ==> Plain(table[k].name)
  }

  lemma {:induction false} NamesPlain(raw: bv64, table: seq<FlagEntry>, n: nat)
    requires n <= |table| && PlainTable(table)
    ensures forall k :: 0 <= k < |Names(raw, table, n)| ==> PlainToken(Names(raw, table, n)[k])
  {
    hide Taken;
    if n > 0 {
      NamesPlain(raw, table, n - 1);
    }
  }

  lemma RenderedPlain(raw: bv64, zero: string, table: seq<FlagEntry>)
    requires PlainTable(table) && Plain(zero)
    ensures var parts := Rendered(raw, zero, table);
            parts != [] && forall k :: 0 <= k < |parts| ==> PlainToken(parts[k])
  {
    hide Names, Remaining;
    NamesPlain(raw, table, |table|);
  }

  /** The printed text of a word of flags tells the word. */
  lemma FlagsReadBack(raw: bv64, zero: string, table: seq<FlagEntry>)
    requires NamesDistinct(table) && !HasName(table, zero) && PlainTable(table) && Plain(zero)
    ensures Parsed(ReadText(Text(Rendered(raw, zero, table))), zero, table) == raw
  {
    hide Rendered, Parsed;
    RenderedPlain(raw, zero, table);
    TextReadBack(Rendered(raw, zero, table));
    PrintingLosesNothing(raw, zero, table);
  }

  lemma {:induction false} EnumPlain(raw: bv64, table: seq<FlagEntry>)
    requires PlainTable(table)
    ensures PlainToken(EnumToken(raw, table))
  {
    if table != [] && table[0].value != raw {
      assert PlainTable(table[1..]);
      EnumPlain(raw, table[1..]);
    }
  }

  /** So does the printed text of open's flags. */
  lemma OpenFlagsReadBack(raw: bv64, modes: seq<FlagEntry>, table: seq<FlagEntry>)
    requires NamesDistinct(modes) && NamesDistinct(table) && !HasName(table, "")
    requires PlainTable(modes) && PlainTable(table)
    ensures ParsedOpen(ReadText(Text(OpenRendered(raw, modes, table))), modes, table) == raw
  {
    hide Rendered, Parsed, And, AndNot, ParsedOpen;
    EnumPlain(And(raw, O_ACCMODE), modes);
    RenderedPlain(AndNot(raw, O_ACCMODE), "", table);
    TextReadBack(OpenRendered(raw, modes, table));
    OpenFlagsLoseNothing(raw, modes, table);
  }
}
