/**
 Lexical slash-separated paths: Clean and Join of the path library the filter
 calls, and the filter's own prefix rewriting.  A path is split at its slashes,
 the pieces are reduced on a stack, and the stack is rendered again.
 */
module Paths {
  import opened Base

  const SLASH: U8 := 47
  const DOT: U8 := 46
  const DOTDOT: Bytes := [DOT, DOT]

  predicate IsAbs(s: Bytes)
  {
    s != [] && s[0] == SLASH
  }

  /** The pieces between slashes; there is always at least one. */
  function Split(s: Bytes): (parts: seq<Bytes>)
    ensures parts != []
  {
    if s == [] then [[]]
    else if s[0] == SLASH then [[]] + Split(s[1..])
    else
      var rest := Split(s[1..]);
      [[s[0]] + rest[0]] + rest[1..]
  }

  /** The pieces with a slash between neighbours. */
  function Glue(parts: seq<Bytes>): Bytes
  {
    if parts == [] then []
    else if |parts| == 1 then parts[0]
    else parts[0] + [SLASH] + Glue(parts[1..])
  }

  /** One piece against the stack of pieces kept so far. */
  function Push(rooted: bool, stack: seq<Bytes>, c: Bytes): seq<Bytes>
  {
    if c == [] || c == [DOT] then stack
    else if c != DOTDOT then stack + [c]
    else if stack != [] && stack[|stack| - 1] != DOTDOT then stack[..|stack| - 1]
    else if rooted then stack
    else stack + [c]
  }

  function Reduce(rooted: bool, stack: seq<Bytes>, parts: seq<Bytes>): seq<Bytes>
    decreases |parts|
  {
    if parts == [] then stack
    else Reduce(rooted, Push(rooted, stack, parts[0]), parts[1..])
  }

  function Render(rooted: bool, comps: seq<Bytes>): Bytes
  {
    if rooted then [SLASH] + Glue(comps)
    else if comps == [] then [DOT]
    else Glue(comps)
  }

  /** The components that remain of a path. */
  function Comps(s: Bytes): seq<Bytes>
  {
    Reduce(IsAbs(s), [], Split(s))
  }

  function Clean(s: Bytes): Bytes
  {
    Render(IsAbs(s), Comps(s))
  }

  /** Join of two elements: an empty first element is skipped. */
  function Join(a: Bytes, b: Bytes): Bytes
  {
    if a == [] && b == [] then []
    else if a == [] then Clean(b)
    else Clean(a + [SLASH] + b)
  }

  datatype Rewrite = Rewrite(path: Bytes, changed: bool)

  /** The filter's rewriting of a stored path when oldBase became newBase. */
  function RewritePathPrefix(path: Bytes, oldBase: Bytes, newBase: Bytes): Rewrite
  {
    var p := Clean(path);
    var o := Clean(oldBase);
    var n := Clean(newBase);
    if p == o then Rewrite(n, true)
    else
      var prefix := o + [SLASH];
      if |p| <= |prefix| || p[..|prefix|] != prefix then Rewrite(p, false)
      else Rewrite(Join(n, p[|prefix|..]), true)
  }

  // ---------------------------------------------------------------------
  // Splitting and gluing are inverse

  predicate NoSlash(c: Bytes)
  {
    SLASH !in c
  }

  predicate NoSlashes(parts: seq<Bytes>)
  {
    forall i :: 0 <= i < |parts| ==> NoSlash(parts[i])
  }

  lemma {:induction false} SplitPieces(s: Bytes)
    ensures NoSlashes(Split(s)) && Glue(Split(s)) == s
  {
    if s != [] {
      SplitPieces(s[1..]);
      var rest := Split(s[1..]);
      if s[0] == SLASH {
        assert ([[]] + rest)[1..] == rest;
      } else {
        var parts := [[s[0]] + rest[0]] + rest[1..];
        assert parts[1..] == rest[1..];
        assert s == [s[0]] + s[1..];
        forall i | 0 <= i < |parts| ensures NoSlash(parts[i]) {
          assert i > 0 ==> parts[i] == rest[i];
        }
      }
    }
  }

  lemma {:induction false} SplitPiece(c: Bytes)
    requires NoSlash(c)
    ensures Split(c) == [c]
  {
    if c != [] {
      assert NoSlash(c[1..]);
      SplitPiece(c[1..]);
      assert [c[0]] + c[1..] == c;
    }
  }

  lemma Prepended(c: U8, a: seq<Bytes>, b: seq<Bytes>)
    requires a != []
    ensures [[c] + (a + b)[0]] + (a + b)[1..] == [[c] + a[0]] + a[1..] + b
  {
  }

  /** A slash between two texts splits them apart. */
  lemma {:induction false} SplitAtSlash(x: Bytes, y: Bytes)
    ensures Split(x + [SLASH] + y) == Split(x) + Split(y)
  {
    var s := x + [SLASH] + y;
    if x == [] {
      assert s[1..] == y;
    } else {
      assert s[1..] == x[1..] + [SLASH] + y;
      SplitAtSlash(x[1..], y);
      var rest := Split(x[1..]);
      if x[0] == SLASH {
        assert [[]] + (rest + Split(y)) == [[]] + rest + Split(y);
      } else {
        Prepended(x[0], rest, Split(y));
      }
    }
  }

  lemma {:induction false} SplitGlue(parts: seq<Bytes>)
    requires parts != [] && NoSlashes(parts)
    ensures Split(Glue(parts)) == parts
  {
    SplitPiece(parts[0]);
    if |parts| > 1 {
      assert NoSlashes(parts[1..]);
      SplitGlue(parts[1..]);
      SplitAtSlash(parts[0], Glue(parts[1..]));
    }
  }

  lemma {:induction false} GlueAppend(a: seq<Bytes>, b: seq<Bytes>)
    requires a != [] && b != []
    ensures Glue(a + b) == Glue(a) + [SLASH] + Glue(b)
  {
    if |a| == 1 {
      assert (a + b)[1..] == b;
    } else {
      assert (a + b)[1..] == a[1..] + b;
      GlueAppend(a[1..], b);
    }
  }

  // ---------------------------------------------------------------------
  // Reducing

  lemma {:induction false} ReduceAppend(rooted: bool, stack: seq<Bytes>, a: seq<Bytes>, b: seq<Bytes>)
    ensures Reduce(rooted, stack, a + b) == Reduce(rooted, Reduce(rooted, stack, a), b)
    decreases |a|
  {
    if a == [] {
      assert a + b == b;
    } else {
      assert (a + b)[1..] == a[1..] + b;
      ReduceAppend(rooted, Push(rooted, stack, a[0]), a[1..], b);
    }
  }

  predicate Proper(c: Bytes)
  {
    NoSlash(c) && c != [] && c != [DOT] && c != DOTDOT
  }

  /** What reducing leaves: proper names, behind a run of ".." if not rooted. */
  predicate Normal(rooted: bool, comps: seq<Bytes>)
  {
    forall i :: 0 <= i < |comps| ==>
      Proper(comps[i]) ||
      (!rooted && comps[i] == DOTDOT && forall j :: 0 <= j < i ==> comps[j] == DOTDOT)
  }

  lemma {:induction false} ReduceNormal(rooted: bool, stack: seq<Bytes>, parts: seq<Bytes>)
    requires Normal(rooted, stack) && NoSlashes(parts)
    ensures Normal(rooted, Reduce(rooted, stack, parts))
    decreases |parts|
  {
    if parts != [] {
      var next := Push(rooted, stack, parts[0]);
      assert NoSlash(parts[0]);
      if parts[0] == DOTDOT && next == stack + [DOTDOT] && stack != [] {
        var last := |stack| - 1;
        assert stack[last] == DOTDOT;
        assert !Proper(stack[last]);
      }
      assert Normal(rooted, next);
      assert NoSlashes(parts[1..]);
      ReduceNormal(rooted, next, parts[1..]);
    }
  }

  lemma {:induction false} ReduceIdentity(rooted: bool, stack: seq<Bytes>, comps: seq<Bytes>)
    requires Normal(rooted, stack + comps)
    ensures Reduce(rooted, stack, comps) == stack + comps
    decreases |comps|
  {
    if comps != [] {
      var all := stack + comps;
      var c := all[|stack|];
      assert c == comps[0];
      if c == DOTDOT && stack != [] {
        assert all[|stack| - 1] == DOTDOT;
      }
      assert Push(rooted, stack, c) == stack + [c];
      assert stack + [c] + comps[1..] == all;
      ReduceIdentity(rooted, stack + [c], comps[1..]);
    }
  }

  lemma CompsNormal(s: Bytes)
    ensures Normal(IsAbs(s), Comps(s))
  {
    SplitPieces(s);
    ReduceNormal(IsAbs(s), [], Split(s));
  }

  lemma NormalNoSlashes(rooted: bool, comps: seq<Bytes>)
    requires Normal(rooted, comps)
    ensures NoSlashes(comps)
  {
    forall i | 0 <= i < |comps| ensures NoSlash(comps[i]) {
      assert Proper(comps[i]) || comps[i] == DOTDOT;
    }
  }

  /** Rendering a normal component list loses nothing. */
  lemma RenderComps(rooted: bool, comps: seq<Bytes>)
    requires Normal(rooted, comps)
    ensures IsAbs(Render(rooted, comps)) == rooted
    ensures Comps(Render(rooted, comps)) == comps
  {
    var s := Render(rooted, comps);
    NormalNoSlashes(rooted, comps);
    if comps == [] {
      if rooted {
        assert s == [SLASH] && s[1..] == [];
        var pieces: seq<Bytes> := [[], []];
        assert Split(s) == pieces && pieces[1..] == [[]];
        assert Push(true, [], []) == [];
        assert Reduce(true, [], [[], []]) == Reduce(true, [], [[]]) == Reduce(true, [], []);
      } else {
        SplitPiece([DOT]);
        assert Push(false, [], [DOT]) == [];
        assert Reduce(false, [], [[DOT]]) == Reduce(false, [], []);
      }
    } else {
      SplitGlue(comps);
      ReduceIdentity(rooted, [], comps);
      assert [] + comps == comps;
      if rooted {
        assert s[1..] == Glue(comps);
        ReduceAppend(true, [], [[]], comps);
        assert Reduce(true, [], [[]]) == [];
      } else {
        assert Proper(comps[0]) || comps[0] == DOTDOT;
        assert comps[0] != [] && NoSlash(comps[0]);
        assert comps[0][0] in comps[0];
        assert s[0] == comps[0][0];
      }
    }
  }

  /** Cleaning keeps the kind of path and its components, and is idempotent. */
  lemma CleanIdempotent(s: Bytes)
    ensures IsAbs(Clean(s)) == IsAbs(s) && Comps(Clean(s)) == Comps(s)
    ensures Clean(Clean(s)) == Clean(s) != []
  {
    CompsNormal(s);
    RenderComps(IsAbs(s), Comps(s));
    if !IsAbs(s) && Comps(s) != [] {
      var c := Comps(s)[0];
      assert Proper(c) || c == DOTDOT;
    }
  }

  // ---------------------------------------------------------------------
  // Clean absolute paths are exactly the renderings of proper component lists

  predicate CleanAbs(p: Bytes)
  {
    IsAbs(p) && Clean(p) == p
  }

  lemma CleanAbsOf(s: Bytes)
    requires IsAbs(s)
    ensures CleanAbs(Clean(s)) && Comps(Clean(s)) == Comps(s)
  {
    CleanIdempotent(s);
  }

  /** Joining onto a clean absolute base continues the reduction of the base. */
  lemma JoinComps(base: Bytes, q: Bytes)
    requires CleanAbs(base)
    ensures CleanAbs(Join(base, q))
    ensures Comps(Join(base, q)) == Reduce(true, Comps(base), Split(q))
  {
    var s := base + [SLASH] + q;
    assert IsAbs(s);
    SplitAtSlash(base, q);
    ReduceAppend(true, [], Split(base), Split(q));
    CleanAbsOf(s);
  }

  // ---------------------------------------------------------------------
  // What each component does.  Every path is a single component, one behind a
  // leading slash, or a shorter path, a slash and a component.

  /** A component that names nothing. */
  predicate Idle(c: Bytes)
  {
    c == [] || c == [DOT]
  }

  lemma ReduceLast(rooted: bool, parts: seq<Bytes>, c: Bytes)
    ensures Reduce(rooted, [], parts + [c]) == Push(rooted, Reduce(rooted, [], parts), c)
  {
    ReduceAppend(rooted, [], parts, [c]);
    assert [c][1..] == [];
    var stack := Reduce(rooted, [], parts);
    assert Reduce(rooted, stack, [c]) == Reduce(rooted, Push(rooted, stack, c), []);
  }

  /** A path of one component; ".." stays, but for at the root. */
  lemma CompsOfOne(c: Bytes)
    requires NoSlash(c)
    ensures Comps(c) == if Idle(c) then [] else [c]
    ensures Comps([SLASH] + c) == if Idle(c) || c == DOTDOT then [] else [c]
  {
    SplitPiece(c);
    ReduceLast(false, [], c);
    assert [] + [c] == [c];
    assert c != [] ==> c[0] in c;
    var s := [SLASH] + c;
    assert s[1..] == c;
    assert Split(s) == [[]] + [c];
    ReduceLast(true, [[]], c);
    ReduceLast(true, [], []);
    var piece: seq<Bytes> := [[]];
    assert [] + piece == piece;
  }

  /**
   A path with one more component: nothing new for "" and ".", a name is added, and
   ".." takes the last name away.  Where there is no name to take, ".." is nothing at
   the root, and stays if the path is relative.
   */
  lemma CompsOfLast(s: Bytes, c: Bytes)
    requires s != [] && NoSlash(c)
    ensures var k, r := Comps(s), Comps(s + [SLASH] + c);
            && (Idle(c) ==> r == k)
            && (!Idle(c) && c != DOTDOT ==> r == k + [c])
            && (c == DOTDOT && k != [] && k[|k| - 1] != DOTDOT ==> r == k[..|k| - 1])
            && (c == DOTDOT && IsAbs(s) && k == [] ==> r == [])
            && (c == DOTDOT && !IsAbs(s) && (k == [] || k[|k| - 1] == DOTDOT) ==> r == k + [DOTDOT])
            && (IsAbs(s) ==> DOTDOT !in k)
  {
    SplitAtSlash(s, c);
    SplitPiece(c);
    ReduceLast(IsAbs(s), Split(s), c);
    assert IsAbs(s + [SLASH] + c) == IsAbs(s);
    CompsNormal(s);
  }

  /** Joining one component onto a clean absolute base. */
  lemma JoinOne(base: Bytes, c: Bytes)
    requires CleanAbs(base) && NoSlash(c)
    ensures var k, r := Comps(base), Comps(Join(base, c));
            && (Idle(c) ==> r == k && Join(base, c) == base)
            && (!Idle(c) && c != DOTDOT ==> r == k + [c])
            && (c == DOTDOT ==> r == if k == [] then [] else k[..|k| - 1])
            && CleanAbs(Join(base, c))
  {
    CompsOfLast(base, c);
    CleanAbsOf(base + [SLASH] + c);
    if Idle(c) {
      EqualByComps(Join(base, c), base);
    }
    if c == DOTDOT && Comps(base) != [] {
      assert Comps(base)[|Comps(base)| - 1] in Comps(base);
    }
  }

  /** An empty element is skipped. */
  lemma JoinNothing(b: Bytes)
    ensures Join([], b) == if b == [] then [] else Clean(b)
  {
  }

  /** A cleaned path, split at its slashes: its components and nothing else. */
  lemma CleanPieces(s: Bytes)
    ensures var k := Comps(s);
            Split(Clean(s)) == if IsAbs(s) then [[]] + (if k == [] then [[]] else k)
                               else if k == [] then [[DOT]] else k
  {
    var k := Comps(s);
    CompsNormal(s);
    NormalNoSlashes(IsAbs(s), k);
    SplitPiece([]);
    SplitPiece([DOT]);
    if k != [] {
      SplitGlue(k);
    }
    if IsAbs(s) {
      assert Clean(s)[1..] == Glue(k);
    }
  }

  /** The path a process names by text s when its base directory is base. */
  function Resolved(base: Bytes, s: Bytes): Bytes
  {
    if IsAbs(s) then Clean(s) else Clean(Join(base, s))
  }

  /** Naming q inside what p names is naming "p/q". */
  lemma ResolutionComposes(base: Bytes, p: Bytes, q: Bytes)
    requires CleanAbs(base) && p != [] && !IsAbs(q)
    ensures CleanAbs(Resolved(base, p))
    ensures Resolved(Resolved(base, p), q) == Resolved(base, p + [SLASH] + q)
  {
    var pq := p + [SLASH] + q;
    SplitAtSlash(p, q);
    assert IsAbs(pq) == IsAbs(p);
    if IsAbs(p) {
      CleanAbsOf(p);
      ReduceAppend(true, [], Split(p), Split(q));
      CleanAbsOf(pq);
    } else {
      JoinComps(base, p);
      JoinComps(base, pq);
      ReduceAppend(true, Comps(base), Split(p), Split(q));
    }
    var r := Resolved(base, p);
    JoinComps(r, q);
    JoinComps(base, pq);
  }

  // ---------------------------------------------------------------------
  // Prefix rewriting is component-wise

  /** p lies at or below o. */
  predicate AtOrBelow(p: Bytes, o: Bytes)
  {
    Comps(o) <= Comps(p)
  }

  lemma RenderNothing(p: Bytes)
    requires CleanAbs(p)
    ensures Comps(p) == [] <==> p == [SLASH]
  {
    CompsNormal(p);
    if Comps(p) != [] {
      assert Proper(Comps(p)[0]);
    }
  }

  /** Clean absolute paths are told apart by their components. */
  lemma EqualByComps(p: Bytes, o: Bytes)
    requires CleanAbs(p) && CleanAbs(o) && Comps(p) == Comps(o)
    ensures p == o
  {
    hide Comps, Render;
  }

  lemma ProperPrefix(o: Bytes, p: Bytes)
    requires CleanAbs(o) && CleanAbs(p) && Comps(o) != [] && Comps(o) < Comps(p)
    ensures p == o + [SLASH] + Glue(Comps(p)[|Comps(o)|..])
    ensures Glue(Comps(p)[|Comps(o)|..]) != []
  {
    hide Comps, Split, Reduce;
    var a, b := Comps(o), Comps(p)[|Comps(o)|..];
    CompsNormal(p);
    assert a + b == Comps(p);
    GlueAppend(a, b);
    assert p == [SLASH] + Glue(a + b) && o == [SLASH] + Glue(a);
    assert Proper(b[0]) by {
      assert b[0] == Comps(p)[|a|];
    }
    GlueNotEmpty(b);
  }

  lemma GlueNotEmpty(parts: seq<Bytes>)
    requires parts != [] && parts[0] != []
    ensures Glue(parts) != []
  {
  }

  lemma PrefixIsProper(o: Bytes, p: Bytes, rest: Bytes)
    requires CleanAbs(o) && CleanAbs(p) && Comps(o) != [] && p == o + [SLASH] + rest
    ensures Comps(o) < Comps(p) && Split(rest) == Comps(p)[|Comps(o)|..]
  {
    CompsNormal(o);
    CompsNormal(p);
    NormalNoSlashes(true, Comps(o));
    NormalNoSlashes(true, Comps(p));
    var a := Glue(Comps(o));
    assert p == [SLASH] + a + [SLASH] + rest;
    assert p[1..] == a + [SLASH] + rest;
    SplitAtSlash(a, rest);
    SplitGlue(Comps(o));
    assert |p| > 1;
    assert Comps(p) != [];
    SplitGlue(Comps(p));
    assert p[1..] == Glue(Comps(p));
  }

  /** No clean absolute path starts with two slashes. */
  lemma NoDoubleSlash(p: Bytes)
    requires CleanAbs(p)
    ensures |p| < 2 || p[1] != SLASH
  {
    if |p| >= 2 {
      CompsNormal(p);
      assert Comps(p) != [];
      var c := Comps(p)[0];
      assert Proper(c);
      assert c[0] in c;
      assert p[1] == Glue(Comps(p))[0] == c[0];
    }
  }

  /**
   A stored path changes exactly when the old base's components are a prefix of
   its own, and then only that prefix is exchanged.  A rename of the root itself
   touches nothing but the root.
   */
  lemma RewriteIsComponentwise(p: Bytes, o: Bytes, n: Bytes)
    requires CleanAbs(p) && CleanAbs(o) && CleanAbs(n)
    ensures var r := RewritePathPrefix(p, o, n);
            && CleanAbs(r.path)
            && (r.changed <==> AtOrBelow(p, o) && (Comps(o) == [] ==> p == o))
            && Comps(r.path) == (if r.changed then Comps(n) + Comps(p)[|Comps(o)|..] else Comps(p))
            && (!r.changed ==> r.path == p)
  {
    hide Comps, Render, Split, Glue;
    var r := RewritePathPrefix(p, o, n);
    var prefix := o + [SLASH];
    RenderNothing(o);
    if Comps(o) == Comps(p) {
      EqualByComps(p, o);
    }
    if p == o {
      assert Comps(n) + Comps(p)[|Comps(o)|..] == Comps(n);
    } else if Comps(o) == [] {
      assert o == [SLASH];
      NoDoubleSlash(p);
      if |p| > 2 { assert p[..2][1] == p[1]; }
    } else if Comps(o) < Comps(p) {
      ProperPrefix(o, p);
      var rest := Glue(Comps(p)[|Comps(o)|..]);
      assert p == prefix + rest;
      assert p[..|prefix|] == prefix && p[|prefix|..] == rest;
      RewriteBelow(p, o, n, rest);
    } else {
      assert Comps(o) != Comps(p);
      if r.changed {
        assert p == prefix + p[|prefix|..];
        assert p == o + [SLASH] + p[|prefix|..];
        PrefixIsProper(o, p, p[|prefix|..]);
      }
    }
  }

  /** Were the root renamed to /b, the path /a below it would stay. */
  lemma RootRenameMovesNothingBelow()
    ensures var a, b, root: Bytes := [SLASH, 97], [SLASH, 98], [SLASH];
            AtOrBelow(a, root) && RewritePathPrefix(a, root, b) == Rewrite(a, false)
  {
    var a, b, root: Bytes := [SLASH, 97], [SLASH, 98], [SLASH];
    OneName(97);
    OneName(98);
    RenderComps(true, []);
    RewriteIsComponentwise(a, root, b);
  }

  lemma OneName(c: U8)
    requires c != SLASH && c != DOT
    ensures CleanAbs([SLASH, c]) && Comps([SLASH, c]) == [[c]]
  {
    assert Render(true, [[c]]) == [SLASH, c];
    RenderComps(true, [[c]]);
  }

  lemma RewriteBelow(p: Bytes, o: Bytes, n: Bytes, rest: Bytes)
    requires CleanAbs(p) && CleanAbs(o) && CleanAbs(n) && Comps(o) != []
    requires p == o + [SLASH] + rest && Comps(o) < Comps(p)
    ensures CleanAbs(Join(n, rest))
    ensures Comps(Join(n, rest)) == Comps(n) + Comps(p)[|Comps(o)|..]
  {
    PrefixIsProper(o, p, rest);
    JoinComps(n, rest);
    CompsNormal(p);
    CompsNormal(n);
    ReduceIdentity(true, Comps(n), Comps(p)[|Comps(o)|..]);
  }

  /** Renaming a to b and back to a restores any path that is not at or below b. */
  lemma RewriteThereAndBack(p: Bytes, a: Bytes, b: Bytes)
    requires CleanAbs(p) && CleanAbs(a) && CleanAbs(b)
    requires Comps(a) != [] && Comps(b) != [] && !AtOrBelow(p, b)
    ensures RewritePathPrefix(RewritePathPrefix(p, a, b).path, b, a).path == p
  {
    RewriteIsComponentwise(p, a, b);
    var r := RewritePathPrefix(p, a, b);
    RewriteIsComponentwise(r.path, b, a);
    if r.changed {
      var suffix := Comps(p)[|Comps(a)|..];
      assert (Comps(b) + suffix)[|Comps(b)|..] == suffix;
      assert Comps(a) + suffix == Comps(p);
    }
  }
}
