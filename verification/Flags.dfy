/** Printing a word of flags: greedily by a table of names, with the rest in hex. */
module Flags {

  datatype FlagEntry = FlagEntry(value: bv64, name: string)

  /** A printed part: a name, or bits in hex. */
  datatype Token = Named(name: string) | Hex(bits: bv64)

  // The machine's operations on words.

  function And(a: bv64, b: bv64): bv64
  {
    a & b
  }

  function Or(a: bv64, b: bv64): bv64
  {
    a | b
  }

  function AndNot(a: bv64, b: bv64): bv64
  {
    a & !b
  }

  /** The entry is not zero, and all its bits are still there. */
  predicate Takes(remaining: bv64, e: FlagEntry)
  {
    e.value != 0 && And(remaining, e.value) == e.value
  }

  /** What the first n entries leave of raw. */
  function Remaining(raw: bv64, table: seq<FlagEntry>, n: nat): bv64
    requires n <= |table|
  {
    if n == 0 then raw
    else
      var r := Remaining(raw, table, n - 1);
      if Takes(r, table[n - 1]) then AndNot(r, table[n - 1].value) else r
  }

  /** Entry i is printed. */
  predicate Taken(raw: bv64, table: seq<FlagEntry>, i: nat)
    requires i < |table|
  {
    Takes(Remaining(raw, table, i), table[i])
  }

  /** The names of the printed ones among the first n entries. */
  function Names(raw: bv64, table: seq<FlagEntry>, n: nat): seq<Token>
    requires n <= |table|
  {
    if n == 0 then []
    else Names(raw, table, n - 1) + (if Taken(raw, table, n - 1) then [Named(table[n - 1].name)] else [])
  }

  function Rendered(raw: bv64, zero: string, table: seq<FlagEntry>): seq<Token>
  {
    if raw == 0 && zero != "" then [Named(zero)]
    else
      var names := Names(raw, table, |table|);
      var rest := Remaining(raw, table, |table|);
      if rest != 0 || names == [] then names + [Hex(rest)] else names
  }

  method FormatFlags(raw: bv64, zero: string, table: seq<FlagEntry>) returns (parts: seq<Token>)
    ensures parts == Rendered(raw, zero, table)
    ensures NamesDistinct(table) && !HasName(table, zero) ==> Parsed(parts, zero, table) == raw
    ensures NamesWhatItCan(raw, table, parts) && NamesWhatIsThere(raw, zero, table, parts) && HexIsTheRest(raw, table, parts)
  {
    hide And, AndNot, Parsed, NamesWhatItCan, NamesWhatIsThere, HexIsTheRest;
    PrintingLosesNothing(raw, zero, table);
    PrintedGreedily(raw, zero, table);
    if raw == 0 && zero != "" {
      return [Named(zero)];
    }
    parts := [];
    var remaining := raw;
    for i := 0 to |table|
      invariant remaining == Remaining(raw, table, i)
      invariant parts == Names(raw, table, i)
    {
      var entry := table[i];
      if entry.value == 0 {
        continue;
      }
      if And(remaining, entry.value) == entry.value {
        parts := parts + [Named(entry.name)];
        remaining := AndNot(remaining, entry.value);
      }
    }
    if remaining != 0 || |parts| == 0 {
      parts := parts + [Hex(remaining)];
    }
  }

  // ---------------------------------------------------------------------
  // Reading the print back

  predicate NamesDistinct(table: seq<FlagEntry>)
  {
    forall i, j :: 0 <= i < j < |table| ==> table[i].name != table[j].name
  }

  predicate HasName(table: seq<FlagEntry>, name: string)
  {
    exists i :: 0 <= i < |table| && table[i].name == name
  }

  function ValueOf(table: seq<FlagEntry>, name: string): bv64
  {
    if table == [] then 0
    else if table[0].name == name then table[0].value
    else ValueOf(table[1..], name)
  }

  function BitsOf(t: Token, zero: string, table: seq<FlagEntry>): bv64
  {
    match t
    case Hex(b) => b
    case Named(name) => if name == zero then 0 as bv64 else ValueOf(table, name)
  }

  function Parsed(parts: seq<Token>, zero: string, table: seq<FlagEntry>): bv64
  {
    if parts == [] then 0 as bv64
    else Or(Parsed(parts[..|parts| - 1], zero, table), BitsOf(parts[|parts| - 1], zero, table))
  }

  lemma {:induction false} ValueOfEntry(table: seq<FlagEntry>, i: nat)
    requires i < |table| && NamesDistinct(table)
    ensures ValueOf(table, table[i].name) == table[i].value
  {
    if i > 0 {
      assert NamesDistinct(table[1..]);
      assert table[1..][i - 1] == table[i];
      ValueOfEntry(table[1..], i - 1);
    }
  }

  /** A mask's bits taken away can be put back, and are not in what is left. */
  lemma PutBack(r: bv64, v: bv64)
    requires And(r, v) == v
    ensures Or(AndNot(r, v), v) == r && And(v, AndNot(r, v)) == 0
  {
  }

  lemma OrRegroups(p: bv64, v: bv64, r: bv64)
    ensures Or(Or(p, v), r) == Or(p, Or(r, v))
  {
  }

  lemma ApartFromBoth(p: bv64, v: bv64, r: bv64)
    requires And(p, r) == 0 && And(v, r) == 0
    ensures And(Or(p, v), r) == 0
  {
  }

  lemma ApartFromLess(p: bv64, r: bv64, v: bv64)
    requires And(p, r) == 0
    ensures And(p, AndNot(r, v)) == 0
  {
  }

  /** Taking a mask's bits away and adding them again changes nothing. */
  lemma TakeBack(r: bv64, v: bv64, p: bv64, raw: bv64)
    requires Or(p, r) == raw && And(p, r) == 0 && And(r, v) == v
    ensures Or(Or(p, v), AndNot(r, v)) == raw && And(Or(p, v), AndNot(r, v)) == 0
  {
    hide And, Or, AndNot;
    PutBack(r, v);
    OrRegroups(p, v, AndNot(r, v));
    ApartFromLess(p, r, v);
    ApartFromBoth(p, v, AndNot(r, v));
  }

  lemma NothingNamed(raw: bv64)
    ensures Or(0, raw) == raw && And(0, raw) == 0
  {
  }

  /** The bits printed by name and the bits left are disjoint and make up raw. */
  lemma {:induction false} NamesAndRest(raw: bv64, zero: string, table: seq<FlagEntry>, n: nat)
    requires n <= |table| && NamesDistinct(table) && !HasName(table, zero)
    ensures var named := Parsed(Names(raw, table, n), zero, table);
            var rest := Remaining(raw, table, n);
            Or(named, rest) == raw && And(named, rest) == 0
  {
    hide And, Or, AndNot;
    if n == 0 {
      NothingNamed(raw);
    } else {
      NamesAndRest(raw, zero, table, n - 1);
      var e := table[n - 1];
      var before := Names(raw, table, n - 1);
      if Taken(raw, table, n - 1) {
        ParsedMore(before, Named(e.name), zero, table);
        ValueOfEntry(table, n - 1);
        assert e.name != zero;
        TakeBack(Remaining(raw, table, n - 1), e.value, Parsed(before, zero, table), raw);
      } else {
        assert Names(raw, table, n) == before;
      }
    }
  }

  lemma ParsedMore(parts: seq<Token>, t: Token, zero: string, table: seq<FlagEntry>)
    ensures Parsed(parts + [t], zero, table) == Or(Parsed(parts, zero, table), BitsOf(t, zero, table))
  {
    hide Or, BitsOf;
    assert (parts + [t])[..|parts|] == parts;
  }

  /** Reading the printed names and hex back gives the word. */
  lemma PrintingLosesNothing(raw: bv64, zero: string, table: seq<FlagEntry>)
    ensures NamesDistinct(table) && !HasName(table, zero) ==> Parsed(Rendered(raw, zero, table), zero, table) == raw
  {
    hide And, Or, AndNot, Remaining, Names;
    if NamesDistinct(table) && !HasName(table, zero) {
      if raw == 0 && zero != "" {
        ParsedMore([], Named(zero), zero, table);
        NothingNamed(0);
        assert [] + [Named(zero)] == [Named(zero)];
      } else {
        NamesAndRest(raw, zero, table, |table|);
        var rest := Remaining(raw, table, |table|);
        ParsedMore(Names(raw, table, |table|), Hex(rest), zero, table);
        NothingLeft(Parsed(Names(raw, table, |table|), zero, table));
      }
    }
  }

  lemma NothingLeft(named: bv64)
    ensures Or(named, 0) == named
  {
  }

  lemma GoneAtOnce(r: bv64, v: bv64)
    ensures And(AndNot(r, v), v) == 0
  {
  }

  lemma StaysGone(r: bv64, v: bv64, w: bv64)
    requires And(r, v) == 0
    ensures And(AndNot(r, w), v) == 0
  {
  }

  lemma GoneMeansApart(r: bv64, v: bv64, w: bv64)
    requires And(r, v) == 0 && And(r, w) == w
    ensures And(v, w) == 0
  {
  }

  /** Bits taken once are gone for all later entries. */
  lemma {:induction false} TakenBitsGone(raw: bv64, table: seq<FlagEntry>, i: nat, n: nat)
    requires i < n <= |table| && Taken(raw, table, i)
    ensures And(Remaining(raw, table, n), table[i].value) == 0
  {
    hide And, AndNot;
    if n == i + 1 {
      GoneAtOnce(Remaining(raw, table, i), table[i].value);
    } else {
      TakenBitsGone(raw, table, i, n - 1);
      StaysGone(Remaining(raw, table, n - 1), table[i].value, table[n - 1].value);
    }
  }

  /**
   The printed masks are pairwise disjoint; so an entry that shares a bit with an
   earlier printed one, such as part of a composite mask, is not printed.
   */
  lemma PrintedMasksDisjoint(raw: bv64, table: seq<FlagEntry>, i: nat, j: nat)
    requires i < j < |table| && Taken(raw, table, i)
    ensures And(table[i].value, table[j].value) != 0 ==> !Taken(raw, table, j)
  {
    hide And, Remaining;
    TakenBitsGone(raw, table, i, j);
    if Taken(raw, table, j) {
      GoneMeansApart(Remaining(raw, table, j), table[i].value, table[j].value);
    }
  }

  // ---------------------------------------------------------------------
  // Greedy means complete

  /** Every mask of the table that is in raw is named, unless it shares a bit with one named before it. */
  ghost predicate NamesWhatItCan(raw: bv64, table: seq<FlagEntry>, parts: seq<Token>)
  {
    forall i :: 0 <= i < |table| && table[i].value != 0 && And(raw, table[i].value) == table[i].value ==>
      Named(table[i].name) in parts ||
      exists j :: 0 <= j < i && Named(table[j].name) in parts && And(table[j].value, table[i].value) != 0
  }

  /** Every named part is a mask of the table that is in raw, but for the word for zero. */
  ghost predicate NamesWhatIsThere(raw: bv64, zero: string, table: seq<FlagEntry>, parts: seq<Token>)
  {
    if raw == 0 && zero != "" then parts == [Named(zero)]
    else forall t :: t in parts && t.Named? ==>
           exists i :: 0 <= i < |table| && t == Named(table[i].name) && table[i].value != 0 && And(raw, table[i].value) == table[i].value
  }

  /** Bits in hex come last, contain no mask of the table whole, and are there only if they or all names are missing. */
  ghost predicate HexIsTheRest(raw: bv64, table: seq<FlagEntry>, parts: seq<Token>)
  {
    forall k :: 0 <= k < |parts| && parts[k].Hex? ==>
      && k == |parts| - 1
      && (forall i :: 0 <= i < |table| && table[i].value != 0 ==> And(parts[k].bits, table[i].value) != table[i].value)
      && (parts[k].bits != 0 || |parts| == 1)
  }

  lemma StaysIn(r: bv64, v: bv64, w: bv64)
    requires And(AndNot(r, w), v) == v
    ensures And(r, v) == v
  {
  }

  lemma LostToMask(r: bv64, v: bv64, w: bv64)
    requires And(r, v) == v && And(AndNot(r, w), v) != v
    ensures And(w, v) != 0
  {
  }

  /** What is left later was there before. */
  lemma {:induction false} RemainingShrinks(raw: bv64, table: seq<FlagEntry>, i: nat, n: nat, v: bv64)
    requires i <= n <= |table| && And(Remaining(raw, table, n), v) == v
    ensures And(Remaining(raw, table, i), v) == v
    decreases n
  {
    hide And, AndNot;
    if i < n {
      if Taken(raw, table, n - 1) {
        StaysIn(Remaining(raw, table, n - 1), v, table[n - 1].value);
      }
      RemainingShrinks(raw, table, i, n - 1, v);
    }
  }

  /** A mask that is no longer there whole lost a bit to some named entry. */
  lemma {:induction false} LostBit(raw: bv64, table: seq<FlagEntry>, n: nat, v: bv64) returns (j: nat)
    requires n <= |table| && And(raw, v) == v && And(Remaining(raw, table, n), v) != v
    ensures j < n && Taken(raw, table, j) && And(table[j].value, v) != 0
  {
    hide And, AndNot;
    assert n > 0;
    if And(Remaining(raw, table, n - 1), v) != v {
      j := LostBit(raw, table, n - 1, v);
    } else {
      j := n - 1;
      LostToMask(Remaining(raw, table, n - 1), v, table[n - 1].value);
    }
  }

  /** The names are those of the taken entries, in the table's order. */
  lemma {:induction false} NamesInOrder(raw: bv64, table: seq<FlagEntry>, n: nat) returns (at: seq<nat>)
    requires n <= |table|
    ensures |at| == |Names(raw, table, n)|
    ensures forall k :: 0 <= k < |at| ==> at[k] < n && Taken(raw, table, at[k]) && Names(raw, table, n)[k] == Named(table[at[k]].name)
    ensures forall k, l :: 0 <= k < l < |at| ==> at[k] < at[l]
    ensures forall i :: 0 <= i < n && Taken(raw, table, i) ==> i in at
  {
    hide Taken;
    at := [];
    if n > 0 {
      at := NamesInOrder(raw, table, n - 1);
      if Taken(raw, table, n - 1) {
        at := at + [n - 1];
      }
    }
  }

  lemma TakenIsNamed(raw: bv64, table: seq<FlagEntry>, i: nat)
    requires i < |table| && Taken(raw, table, i)
    ensures Named(table[i].name) in Names(raw, table, |table|)
  {
    hide Taken;
    var at := NamesInOrder(raw, table, |table|);
    var k :| 0 <= k < |at| && at[k] == i;
    assert Names(raw, table, |table|)[k] == Named(table[i].name);
  }

  lemma NothingContains(v: bv64)
    requires v != 0
    ensures And(0, v) != v
  {
  }

  /** No mask is left whole. */
  lemma RestHoldsNoMask(raw: bv64, table: seq<FlagEntry>, i: nat)
    requires i < |table| && table[i].value != 0
    ensures And(Remaining(raw, table, |table|), table[i].value) != table[i].value
  {
    hide And, AndNot, Remaining;
    if Taken(raw, table, i) {
      TakenBitsGone(raw, table, i, |table|);
    } else if And(Remaining(raw, table, |table|), table[i].value) == table[i].value {
      RemainingShrinks(raw, table, i, |table|, table[i].value);
    }
  }

  lemma NamedIfItCan(raw: bv64, zero: string, table: seq<FlagEntry>)
    ensures NamesWhatItCan(raw, table, Rendered(raw, zero, table))
  {
    hide And, AndNot, Remaining, Taken, Names;
    var parts := Rendered(raw, zero, table);
    forall i | 0 <= i < |table| && table[i].value != 0 && And(raw, table[i].value) == table[i].value
      ensures Named(table[i].name) in parts ||
              exists j :: 0 <= j < i && Named(table[j].name) in parts && And(table[j].value, table[i].value) != 0
    {
      if raw == 0 && zero != "" {
        NothingContains(table[i].value);
      } else if Taken(raw, table, i) {
        TakenIsNamed(raw, table, i);
      } else {
        NotTaken(raw, table, i);
        var j := LostBit(raw, table, i, table[i].value);
        TakenIsNamed(raw, table, j);
      }
    }
  }

  lemma NotTaken(raw: bv64, table: seq<FlagEntry>, i: nat)
    requires i < |table| && table[i].value != 0
    ensures Taken(raw, table, i) <==> And(Remaining(raw, table, i), table[i].value) == table[i].value
  {
  }

  lemma NamedIfThere(raw: bv64, zero: string, table: seq<FlagEntry>)
    ensures NamesWhatIsThere(raw, zero, table, Rendered(raw, zero, table))
  {
    hide And, AndNot, Remaining, Names;
    var names := Names(raw, table, |table|);
    var at := NamesInOrder(raw, table, |table|);
    StartsWhole(raw, table);
    forall k | 0 <= k < |names|
      ensures exists i :: 0 <= i < |table| && names[k] == Named(table[i].name) && table[i].value != 0 &&
                          And(raw, table[i].value) == table[i].value
    {
      RemainingShrinks(raw, table, 0, at[k], table[at[k]].value);
    }
  }

  lemma HexIsLeftOver(raw: bv64, zero: string, table: seq<FlagEntry>)
    ensures HexIsTheRest(raw, table, Rendered(raw, zero, table))
  {
    hide And, AndNot, Remaining, Taken, Names;
    var names := Names(raw, table, |table|);
    var at := NamesInOrder(raw, table, |table|);
    assert forall k :: 0 <= k < |names| ==> names[k].Named?;
    forall i | 0 <= i < |table| && table[i].value != 0
      ensures And(Remaining(raw, table, |table|), table[i].value) != table[i].value
    {
      RestHoldsNoMask(raw, table, i);
    }
  }

  /** The print is greedy and complete. */
  lemma PrintedGreedily(raw: bv64, zero: string, table: seq<FlagEntry>)
    ensures var parts := Rendered(raw, zero, table);
            && NamesWhatItCan(raw, table, parts)
            && NamesWhatIsThere(raw, zero, table, parts)
            && HexIsTheRest(raw, table, parts)
  {
    hide Rendered, NamesWhatItCan, NamesWhatIsThere, HexIsTheRest;
    NamedIfItCan(raw, zero, table);
    NamedIfThere(raw, zero, table);
    HexIsLeftOver(raw, zero, table);
  }

  lemma StartsWhole(raw: bv64, table: seq<FlagEntry>)
    ensures Remaining(raw, table, 0) == raw
  {
  }

  // ---------------------------------------------------------------------
  // open's flags: an access mode and the rest

  const O_ACCMODE: bv64 := 3

  function EnumToken(raw: bv64, table: seq<FlagEntry>): Token
  {
    if table == [] then Hex(raw)
    else if table[0].value == raw then Named(table[0].name)
    else EnumToken(raw, table[1..])
  }

  method FormatEnum(raw: bv64, table: seq<FlagEntry>) returns (t: Token)
    ensures t == EnumToken(raw, table)
  {
    for i := 0 to |table|
      invariant EnumToken(raw, table) == EnumToken(raw, table[i..])
    {
      if table[i].value == raw {
        return Named(table[i].name);
      }
    }
    return Hex(raw);
  }

  /** The access mode, and the other flags if there are any. */
  function OpenRendered(raw: bv64, modes: seq<FlagEntry>, table: seq<FlagEntry>): seq<Token>
  {
    var rest := AndNot(raw, O_ACCMODE);
    [EnumToken(And(raw, O_ACCMODE), modes)] + (if rest == 0 then [] else Rendered(rest, "", table))
  }

  method FormatOpenFlags(raw: bv64, modes: seq<FlagEntry>, table: seq<FlagEntry>) returns (parts: seq<Token>)
    ensures parts == OpenRendered(raw, modes, table)
    ensures NamesDistinct(modes) && NamesDistinct(table) && !HasName(table, "") ==> ParsedOpen(parts, modes, table) == raw
  {
    hide And, Or, AndNot, Parsed, Rendered;
    OpenFlagsLoseNothing(raw, modes, table);
    var access := FormatEnum(And(raw, O_ACCMODE), modes);
    var rest := AndNot(raw, O_ACCMODE);
    if rest == 0 {
      return [access];
    }
    var flags := FormatFlags(rest, "", table);
    return [access] + flags;
  }

  /** Reading the access mode and the other flags back gives the word. */
  lemma OpenFlagsLoseNothing(raw: bv64, modes: seq<FlagEntry>, table: seq<FlagEntry>)
    ensures NamesDistinct(modes) && NamesDistinct(table) && !HasName(table, "") ==>
              ParsedOpen(OpenRendered(raw, modes, table), modes, table) == raw
  {
    hide And, Or, AndNot, Parsed, Rendered;
    if NamesDistinct(modes) && NamesDistinct(table) && !HasName(table, "") {
      var rest := AndNot(raw, O_ACCMODE);
      EnumReadBack(And(raw, O_ACCMODE), modes);
      TwoParts(raw, O_ACCMODE);
      ParsedNothing("", table);
      PrintingLosesNothing(rest, "", table);
      var parts := OpenRendered(raw, modes, table);
      assert parts[1..] == if rest == 0 then [] else Rendered(rest, "", table);
    }
  }

  /** The access mode is named if the table has it, and comes first; the others are printed greedily behind it. */
  lemma OpenPrintedGreedily(raw: bv64, modes: seq<FlagEntry>, table: seq<FlagEntry>)
    ensures var parts := OpenRendered(raw, modes, table);
            var access, rest := And(raw, O_ACCMODE), AndNot(raw, O_ACCMODE);
            && |parts| >= 1
            && ((exists i :: 0 <= i < |modes| && modes[i].value == access) ==>
                exists i :: 0 <= i < |modes| && modes[i].value == access && parts[0] == Named(modes[i].name))
            && ((forall i :: 0 <= i < |modes| ==> modes[i].value != access) ==> parts[0] == Hex(access))
            && (|parts| == 1 <==> rest == 0)
            && (rest != 0 ==>
                NamesWhatItCan(rest, table, parts[1..]) && NamesWhatIsThere(rest, "", table, parts[1..]) && HexIsTheRest(rest, table, parts[1..]))
  {
    hide And, AndNot, Rendered, NamesWhatItCan, NamesWhatIsThere, HexIsTheRest;
    var access, rest := And(raw, O_ACCMODE), AndNot(raw, O_ACCMODE);
    EnumNamed(access, modes);
    PrintedGreedily(rest, "", table);
    SomethingPrinted(rest, table);
    var parts := OpenRendered(raw, modes, table);
    assert rest != 0 ==> parts[1..] == Rendered(rest, "", table);
  }

  lemma SomethingPrinted(raw: bv64, table: seq<FlagEntry>)
    ensures Rendered(raw, "", table) != []
  {
  }

  lemma TwoParts(raw: bv64, mask: bv64)
    ensures Or(And(raw, mask), AndNot(raw, mask)) == raw
    ensures AndNot(raw, mask) == 0 ==> Or(And(raw, mask), 0) == raw
  {
  }

  lemma ParsedNothing(zero: string, table: seq<FlagEntry>)
    ensures Parsed([], zero, table) == 0
  {
  }

  /** The first part by the access modes, the others by the flag table. */
  function ParsedOpen(parts: seq<Token>, modes: seq<FlagEntry>, table: seq<FlagEntry>): bv64
  {
    if parts == [] then 0 as bv64
    else
      var mode: bv64 := match parts[0] {
        case Hex(b) => b
        case Named(name) => ValueOf(modes, name)
      };
      Or(mode, Parsed(parts[1..], "", table))
  }

  /** A value in the table is named, by its first entry; any other is in hex. */
  lemma {:induction false} EnumNamed(raw: bv64, table: seq<FlagEntry>)
    ensures (exists i :: 0 <= i < |table| && table[i].value == raw) ==>
              exists i :: 0 <= i < |table| && table[i].value == raw && EnumToken(raw, table) == Named(table[i].name) &&
                          forall j :: 0 <= j < i ==> table[j].value != raw
    ensures (forall i :: 0 <= i < |table| ==> table[i].value != raw) ==> EnumToken(raw, table) == Hex(raw)
  {
    if table != [] && table[0].value != raw {
      var rest := table[1..];
      EnumNamed(raw, rest);
      assert forall i :: 0 <= i < |rest| ==> rest[i] == table[i + 1];
      if i :| 0 <= i < |table| && table[i].value == raw {
        assert rest[i - 1].value == raw;
        var k :| 0 <= k < |rest| && rest[k].value == raw && EnumToken(raw, rest) == Named(rest[k].name) &&
                 forall j :: 0 <= j < k ==> rest[j].value != raw;
        assert table[k + 1].value == raw;
        assert forall j :: 0 < j < k + 1 ==> table[j] == rest[j - 1];
      }
    }
  }

  lemma {:induction false} EnumReadBack(raw: bv64, modes: seq<FlagEntry>)
    requires NamesDistinct(modes)
    ensures match EnumToken(raw, modes)
            case Hex(b) => b == raw
            case Named(name) => HasName(modes, name) && ValueOf(modes, name) == raw
  {
    if modes != [] && modes[0].value != raw {
      assert NamesDistinct(modes[1..]);
      EnumReadBack(raw, modes[1..]);
      var t := EnumToken(raw, modes[1..]);
      if t.Named? {
        var i :| 0 <= i < |modes[1..]| && modes[1..][i].name == t.name;
        assert modes[i + 1].name == t.name;
      }
    }
  }
}
