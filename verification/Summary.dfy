/** The -c summary: counters per system call, their totals, and the printed order. */
module Summary {
  import opened Base
  import opened Events

  datatype Stats = Stats(calls: U64, errors: U64, totalNs: U64)

  datatype Field = Calls | Errors | TotalNs

  function Value(s: Stats, f: Field): U64
  {
    match f
    case Calls => s.calls
    case Errors => s.errors
    case TotalNs => s.totalNs
  }

  /** What one event adds to a counter. */
  function Weight(ev: Event, f: Field): U64
  {
    match f
    case Calls => 1
    case Errors => if ev.ret < 0 then 1 else 0
    case TotalNs => ev.dur
  }

  type Table = map<I64, Stats>

  function StatsOf(t: Table, id: I64): Stats
  {
    if id in t then t[id] else Stats(0, 0, 0)
  }

  function Added(t: Table, ev: Event): Table
  {
    var s := StatsOf(t, ev.id);
    t[ev.id := Stats(Add64(s.calls, Weight(ev, Calls)), Add64(s.errors, Weight(ev, Errors)), Add64(s.totalNs, Weight(ev, TotalNs)))]
  }

  /** The table after all events, in order. */
  function Collected(evs: seq<Event>): Table
  {
    if evs == [] then map[] else Added(Collected(evs[..|evs| - 1]), evs[|evs| - 1])
  }

  /** The map that the run's loop updates in place. */
  class SummaryMap {
    var table: Table

    constructor ()
      ensures table == map[]
    {
      table := map[];
    }

    method AddEvent(ev: Event)
      modifies this
      ensures table == Added(old(table), ev)
    {
      var stats := if ev.id in table then table[ev.id] else Stats(0, 0, 0);
      stats := stats.(calls := Add64(stats.calls, 1));
      if ev.ret < 0 {
        stats := stats.(errors := Add64(stats.errors, 1));
      }
      stats := stats.(totalNs := Add64(stats.totalNs, ev.dur));
      table := table[ev.id := stats];
    }

    method AddAll(evs: seq<Event>)
      requires table == map[]
      modifies this
      ensures table == Collected(evs)
    {
      assert evs[..0] == [];
      for i := 0 to |evs|
        invariant table == Collected(evs[..i])
      {
        assert evs[..i + 1][..i] == evs[..i];
        AddEvent(evs[i]);
      }
      assert evs[..|evs|] == evs;
    }
  }

  // ---------------------------------------------------------------------
  // Totals

  ghost function Sum(t: Table, ids: set<I64>, f: Field): nat
    requires ids <= t.Keys
    decreases |ids|
  {
    if ids == {} then 0
    else
      var id :| id in ids;
      Value(t[id], f) + Sum(t, ids - {id}, f)
  }

  lemma {:induction false} SumTakesAny(t: Table, ids: set<I64>, f: Field, id: I64)
    requires ids <= t.Keys && id in ids
    ensures Sum(t, ids, f) == Value(t[id], f) + Sum(t, ids - {id}, f)
    decreases |ids|
  {
    var first :| first in ids && Sum(t, ids, f) == Value(t[first], f) + Sum(t, ids - {first}, f);
    if first != id {
      SumTakesAny(t, ids - {first}, f, id);
      SumTakesAny(t, ids - {id}, f, first);
      assert ids - {first} - {id} == ids - {id} - {first};
    }
  }

  lemma {:induction false} SumElsewhere(t: Table, u: Table, ids: set<I64>, f: Field)
    requires ids <= t.Keys && ids <= u.Keys && forall id :: id in ids ==> t[id] == u[id]
    ensures Sum(t, ids, f) == Sum(u, ids, f)
    decreases |ids|
  {
    if ids != {} {
      var id :| id in ids;
      SumTakesAny(t, ids, f, id);
      SumTakesAny(u, ids, f, id);
      SumElsewhere(t, u, ids - {id}, f);
    }
  }

  ghost function Total(t: Table, f: Field): nat
  {
    Sum(t, t.Keys, f)
  }

  function Weights(evs: seq<Event>, f: Field): nat
  {
    if evs == [] then 0 else Weights(evs[..|evs| - 1], f) + Weight(evs[|evs| - 1], f)
  }

  /** One event changes the total by its weight, but for a wrapped counter. */
  lemma AddedTotal(t: Table, ev: Event, f: Field)
    ensures var old_ := Value(StatsOf(t, ev.id), f);
            && Total(Added(t, ev), f) == Total(t, f) - old_ + Add64(old_, Weight(ev, f))
            && old_ <= Total(t, f)
  {
    var u := Added(t, ev);
    var rest := t.Keys - {ev.id};
    assert u.Keys - {ev.id} == rest;
    SumTakesAny(u, u.Keys, f, ev.id);
    SumElsewhere(t, u, rest, f);
    if ev.id in t {
      SumTakesAny(t, t.Keys, f, ev.id);
    } else {
      assert rest == t.Keys;
    }
  }

  lemma EmptyTotal(f: Field)
    ensures Total(map[], f) == 0
  {
  }

  lemma NoWrap(a: U64, b: U64)
    ensures a + b < TWO_64 ==> Add64(a, b) == a + b
  {
  }

  /** Nothing is lost or counted twice: without overflow the totals are the events' own. */
  lemma {:induction false} TotalsConserved(evs: seq<Event>, f: Field)
    requires Weights(evs, f) < TWO_64
    ensures Total(Collected(evs), f) == Weights(evs, f)
  {
    hide Total, Added, Value, Weight, StatsOf, Add64;
    assert Total(map[], f) == 0 by { EmptyTotal(f); }
    if evs != [] {
      var front, ev := evs[..|evs| - 1], evs[|evs| - 1];
      TotalsConserved(front, f);
      var t := Collected(front);
      AddedTotal(t, ev, f);
      NoWrap(Value(StatsOf(t, ev.id), f), Weight(ev, f));
      assert Collected(evs) == Added(t, ev);
      assert Weights(evs, f) == Weights(front, f) + Weight(ev, f);
    }
  }

  function Failures(evs: seq<Event>): nat
  {
    if evs == [] then 0 else Failures(evs[..|evs| - 1]) + (if evs[|evs| - 1].ret < 0 then 1 else 0)
  }

  /** The totals are the number of events, of failing events, and the time of all. */
  lemma {:induction false} WeightsMean(evs: seq<Event>)
    ensures Weights(evs, Calls) == |evs| && Weights(evs, Errors) == Failures(evs) <= |evs|
  {
    if evs != [] {
      WeightsMean(evs[..|evs| - 1]);
    }
  }

  // ---------------------------------------------------------------------
  // Rows

  datatype Row = Row(syscall: Bytes, stats: Stats)

  /** Byte-wise string order. */
  predicate Less(a: Bytes, b: Bytes)
  {
    b != [] && (a == [] || a[0] < b[0] || (a[0] == b[0] && Less(a[1..], b[1..])))
  }

  lemma {:induction false} LessTotal(a: Bytes, b: Bytes)
    ensures a == b || Less(a, b) || Less(b, a)
    ensures !(Less(a, b) && Less(b, a)) && !Less(a, a)
  {
    if a != [] && b != [] {
      LessTotal(a[1..], b[1..]);
      assert a == [a[0]] + a[1..] && b == [b[0]] + b[1..];
    }
    if a != [] {
      LessTotal(a[1..], a[1..]);
    }
  }

  lemma {:induction false} LessTransitive(a: Bytes, b: Bytes, c: Bytes)
    requires Less(a, b) && Less(b, c)
    ensures Less(a, c)
  {
    if a != [] && a[0] == b[0] == c[0] {
      LessTransitive(a[1..], b[1..], c[1..]);
    }
  }

  /** More time first, then by name. */
  predicate Before(a: Row, b: Row)
  {
    if a.stats.totalNs != b.stats.totalNs then a.stats.totalNs > b.stats.totalNs
    else Less(a.syscall, b.syscall)
  }

  lemma BeforeTransitive(a: Row, b: Row, c: Row)
    requires Before(a, b) && Before(b, c)
    ensures Before(a, c)
  {
    if a.stats.totalNs == b.stats.totalNs == c.stats.totalNs {
      LessTransitive(a.syscall, b.syscall, c.syscall);
    }
  }

  ghost predicate Ordered(rows: seq<Row>)
  {
    forall i, j :: 0 <= i < j < |rows| ==> Before(rows[i], rows[j])
  }

  lemma InsertedOrdered(rows: seq<Row>, row: Row, i: nat)
    requires i <= |rows| && Ordered(rows) && forall k :: 0 <= k < |rows| ==> rows[k].syscall != row.syscall
    requires forall k :: 0 <= k < i ==> Before(rows[k], row)
    requires i < |rows| ==> !Before(rows[i], row)
    ensures var r := rows[..i] + [row] + rows[i..];
            Ordered(r) && |r| == |rows| + 1 && forall x :: x in r <==> x in rows || x == row
  {
    hide Before, Less;
    var r := rows[..i] + [row] + rows[i..];
    forall k | i <= k < |rows| ensures Before(row, rows[k]) {
      OneWayOrOther(row, rows[i]);
      if k > i {
        BeforeTransitive(row, rows[i], rows[k]);
      }
    }
    forall x ensures x in r <==> x in rows || x == row {
      assert rows == rows[..i] + rows[i..];
    }
    forall a, b | 0 <= a < b < |r| ensures Before(r[a], r[b]) {
      assert r[a] == (if a < i then rows[a] else if a == i then row else rows[a - 1]);
      assert r[b] == (if b < i then rows[b] else if b == i then row else rows[b - 1]);
    }
  }

  lemma OneWayOrOther(a: Row, b: Row)
    requires a.syscall != b.syscall
    ensures Before(a, b) || Before(b, a)
  {
    LessTotal(a.syscall, b.syscall);
  }

  /** Inserts a row with a new name into ordered rows. */
  method InsertRow(rows: seq<Row>, row: Row) returns (r: seq<Row>)
    requires Ordered(rows) && forall k :: 0 <= k < |rows| ==> rows[k].syscall != row.syscall
    ensures Ordered(r) && |r| == |rows| + 1 && forall x :: x in r <==> x in rows || x == row
  {
    var i := 0;
    while i < |rows| && Before(rows[i], row)
      invariant 0 <= i <= |rows|
      invariant forall k :: 0 <= k < i ==> Before(rows[k], row)
    {
      i := i + 1;
    }
    r := rows[..i] + [row] + rows[i..];
    InsertedOrdered(rows, row, i);
  }

  ghost predicate NamesInjective(name: I64 -> Bytes)
  {
    forall i: I64, j: I64 :: name(i) == name(j) ==> i == j
  }

  function RowFor(t: Table, name: I64 -> Bytes, id: I64): Row
  {
    Row(name(id), StatsOf(t, id))
  }

  function AsSet(rows: seq<Row>): set<Row>
  {
    set r | r in rows
  }

  /** The rows are those of the given system calls, each once. */
  ghost predicate RowsOf(rows: seq<Row>, t: Table, ids: set<I64>, name: I64 -> Bytes)
  {
    |rows| == |ids| && AsSet(rows) == set id | id in ids :: RowFor(t, name, id)
  }

  datatype Report = Report(rows: seq<Row>, calls: U64, errors: U64, totalNs: U64)

  /** Rows and totals of a table: all its rows, ordered, and the sums that do not overflow. */
  ghost predicate ReportOf(r: Report, t: Table, name: I64 -> Bytes)
  {
    && RowsOf(r.rows, t, t.Keys, name) && Ordered(r.rows)
    && (Total(t, Calls) < TWO_64 ==> r.calls == Total(t, Calls))
    && (Total(t, Errors) < TWO_64 ==> r.errors == Total(t, Errors))
    && (Total(t, TotalNs) < TWO_64 ==> r.totalNs == Total(t, TotalNs))
  }

  ghost predicate DistinctNames(rows: seq<Row>)
  {
    forall i, j :: 0 <= i < j < |rows| ==> rows[i].syscall != rows[j].syscall
  }

  /** The rows in their order; a library sort of distinct rows has no other result. */
  method SortRows(rows: seq<Row>) returns (sorted: seq<Row>)
    requires DistinctNames(rows)
    ensures Ordered(sorted) && |sorted| == |rows| && forall x :: x in sorted <==> x in rows
  {
    sorted := [];
    for i := 0 to |rows|
      invariant Ordered(sorted) && |sorted| == i
      invariant forall x :: x in sorted <==> x in rows[..i]
    {
      forall k | 0 <= k < |sorted| ensures sorted[k].syscall != rows[i].syscall {
        assert sorted[k] in rows[..i];
      }
      sorted := InsertRow(sorted, rows[i]);
      assert rows[..i + 1] == rows[..i] + [rows[i]];
    }
    assert rows[..|rows|] == rows;
  }

  /** The first loop: totals and rows, visiting the map in any order. */
  method TotalRows(t: Table, name: I64 -> Bytes) returns (r: Report)
    requires NamesInjective(name)
    ensures RowsOf(r.rows, t, t.Keys, name) && DistinctNames(r.rows)
    ensures Counted(t, Calls, r.calls, {}) && Counted(t, Errors, r.errors, {}) && Counted(t, TotalNs, r.totalNs, {})
  {
    hide RowsOf, Add64, Counted;
    var rows: seq<Row> := [];
    var totalCalls: U64, totalErrors: U64, totalNs: U64 := 0, 0, 0;
    var todo := t.Keys;
    ghost var done: set<I64> := {};
    NoRows(t, name);
    NothingCounted(t);
    while todo != {}
      invariant todo <= t.Keys && done == t.Keys - todo
      invariant RowsOf(rows, t, done, name) && DistinctNames(rows)
      invariant Counted(t, Calls, totalCalls, todo)
      invariant Counted(t, Errors, totalErrors, todo)
      invariant Counted(t, TotalNs, totalNs, todo)
      decreases |todo|
    {
      var id :| id in todo;
      var stats := t[id];
      CountOne(t, Calls, totalCalls, todo, id);
      CountOne(t, Errors, totalErrors, todo, id);
      CountOne(t, TotalNs, totalNs, todo, id);
      NameIsNew(rows, t, done, name, id);
      OneMoreRow(rows, rows + [RowFor(t, name, id)], t, done, name, id);
      rows := rows + [RowFor(t, name, id)];
      totalCalls := Add64(totalCalls, stats.calls);
      totalErrors := Add64(totalErrors, stats.errors);
      totalNs := Add64(totalNs, stats.totalNs);
      todo := todo - {id};
      done := done + {id};
    }
    assert done == t.Keys;
    return Report(rows, totalCalls, totalErrors, totalNs);
  }

  lemma NothingCounted(t: Table)
    ensures forall f: Field :: Counted(t, f, 0, t.Keys)
  {
  }

  /** Totals and rows, then the sorted lines. */
  method FormatSummary(t: Table, name: I64 -> Bytes) returns (r: Report, lines: seq<Line>)
    requires NamesInjective(name)
    ensures ReportOf(r, t, name) && lines == Lines(r)
  {
    hide RowsOf, Percent, UsecsPerCall;
    r := TotalRows(t, name);
    var sorted := SortRows(r.rows);
    SameRows(r.rows, sorted, t, t.Keys, name);
    r := r.(rows := sorted);
    lines := [];
    for i := 0 to |sorted|
      invariant lines == RowLines(sorted[..i], r.totalNs)
    {
      assert sorted[..i + 1][..i] == sorted[..i];
      lines := lines + [LineFor(sorted[i], r.totalNs)];
    }
    assert sorted[..|sorted|] == sorted;
    lines := lines + [TotalLine(r)];
  }

  lemma SameRows(rows: seq<Row>, sorted: seq<Row>, t: Table, ids: set<I64>, name: I64 -> Bytes)
    requires RowsOf(rows, t, ids, name) && |sorted| == |rows| && forall x :: x in sorted <==> x in rows
    ensures RowsOf(sorted, t, ids, name)
  {
    assert AsSet(sorted) == AsSet(rows);
  }

  /** What is counted so far and what is still to count make up the total. */
  ghost predicate Counted(t: Table, f: Field, sofar: U64, todo: set<I64>)
    requires todo <= t.Keys
  {
    Total(t, f) < TWO_64 ==> sofar + Sum(t, todo, f) == Total(t, f)
  }

  lemma CountOne(t: Table, f: Field, sofar: U64, todo: set<I64>, id: I64)
    requires todo <= t.Keys && id in todo && Counted(t, f, sofar, todo)
    ensures Counted(t, f, Add64(sofar, Value(t[id], f)), todo - {id})
  {
    hide Total;
    SumTakesAny(t, todo, f, id);
    NoWrap(sofar, Value(t[id], f));
  }

  lemma NoRows(t: Table, name: I64 -> Bytes)
    ensures RowsOf([], t, {}, name)
  {
  }

  /** A row for one more system call. */
  lemma OneMoreRow(rows: seq<Row>, r: seq<Row>, t: Table, done: set<I64>, name: I64 -> Bytes, id: I64)
    requires id !in done && RowsOf(rows, t, done, name)
    requires |r| == |rows| + 1 && forall x :: x in r <==> x in rows || x == RowFor(t, name, id)
    ensures RowsOf(r, t, done + {id}, name)
  {
    var image := set i | i in done :: RowFor(t, name, i);
    var more := set i | i in done + {id} :: RowFor(t, name, i);
    forall x ensures x in more <==> x in image || x == RowFor(t, name, id) {
      if x == RowFor(t, name, id) {
        assert id in done + {id};
      }
    }
    assert forall x :: x in image <==> x in rows;
  }

  /** No row of another call has this call's name. */
  lemma NameIsNew(rows: seq<Row>, t: Table, done: set<I64>, name: I64 -> Bytes, id: I64)
    requires NamesInjective(name) && id !in done && RowsOf(rows, t, done, name)
    ensures forall k :: 0 <= k < |rows| ==> rows[k].syscall != name(id)
  {
    forall k | 0 <= k < |rows| ensures rows[k].syscall != name(id) {
      var image := set i | i in done :: RowFor(t, name, i);
      assert rows[k] in image;
      var i :| i in done && rows[k] == RowFor(t, name, i);
    }
  }

  lemma NotBothWays(a: Row, b: Row)
    requires Before(a, b)
    ensures !Before(b, a) && a != b
  {
    LessTotal(a.syscall, b.syscall);
  }

  lemma PlacesFollowOrder(rows: seq<Row>, k: nat, j: nat)
    requires k < |rows| && j < |rows| && Ordered(rows) && Before(rows[k], rows[j])
    ensures k < j
  {
    NotBothWays(rows[k], rows[j]);
  }

  /** The last row of a has a place in b, and the rows before it have theirs before that. */
  lemma LastPlace(a: seq<Row>, b: seq<Row>) returns (j: nat)
    requires Ordered(a) && Ordered(b) && a != [] && forall x :: x in a ==> x in b
    ensures j < |b| && b[j] == a[|a| - 1]
    ensures forall x :: x in a[..|a| - 1] ==> x in b[..j]
  {
    var n := |a| - 1;
    assert a[n] in b;
    j :| 0 <= j < |b| && b[j] == a[n];
    forall x | x in a[..n] ensures x in b[..j] {
      var i :| 0 <= i < n && a[i] == x;
      assert x in a;
      var k :| 0 <= k < |b| && b[k] == x;
      PlacesFollowOrder(b, k, j);
      assert b[..j][k] == x;
    }
  }

  /** Different rows need different places. */
  lemma {:induction false} DistinctFit(a: seq<Row>, b: seq<Row>)
    requires Ordered(a) && Ordered(b) && forall x :: x in a ==> x in b
    ensures |a| <= |b|
  {
    if a != [] {
      var j := LastPlace(a, b);
      DistinctFit(a[..|a| - 1], b[..j]);
    }
  }

  /** The printed order does not depend on the order the map was visited in. */
  lemma {:induction false} OrderDetermined(a: seq<Row>, b: seq<Row>)
    requires Ordered(a) && Ordered(b) && |a| == |b| && forall x :: x in a ==> x in b
    ensures a == b
  {
    if a != [] {
      var n := |a| - 1;
      var j := LastPlace(a, b);
      DistinctFit(a[..n], b[..j]);
      OrderDetermined(a[..n], b[..n]);
      assert a == a[..n] + [a[n]] && b == b[..n] + [b[n]];
    }
  }

  /** Any two reports on one table list the same rows in the same order. */
  lemma ReportDetermined(a: seq<Row>, b: seq<Row>, t: Table, name: I64 -> Bytes)
    requires RowsOf(a, t, t.Keys, name) && Ordered(a) && RowsOf(b, t, t.Keys, name) && Ordered(b)
    ensures a == b
  {
    assert AsSet(a) == AsSet(b);
    forall x | x in a ensures x in b {
      assert x in AsSet(a);
    }
    OrderDetermined(a, b);
  }

  // ---------------------------------------------------------------------
  // Microseconds per call

  function UsecsPerCall(totalNs: nat, calls: nat): nat
  {
    if calls == 0 then 0 else totalNs / 1000 / calls
  }

  lemma DivAtLeast(a: nat, c: nat, q: nat)
    requires c > 0
    ensures a / c >= q <==> a >= q * c
  {
    var d := a / c;
    assert a == d * c + a % c;
    if d >= q {
      assert d * c >= q * c;
    } else {
      assert (d + 1) * c <= q * c;
    }
  }

  lemma UsecsAtLeast(totalNs: nat, calls: nat, q: nat)
    requires calls > 0
    ensures UsecsPerCall(totalNs, calls) >= q <==> totalNs >= 1000 * (q * calls)
  {
    DivAtLeast(totalNs / 1000, calls, q);
    DivAtLeast(totalNs, 1000, q * calls);
  }

  lemma Distribute(q: nat, c: nat, rest: nat)
    ensures 1000 * (q * (c + rest)) == 1000 * (q * c) + 1000 * (q * rest)
  {
  }

  lemma {:induction false} SumsAtLeast(t: Table, ids: set<I64>, q: nat)
    requires ids <= t.Keys && forall id :: id in ids ==> t[id].totalNs >= 1000 * (q * t[id].calls)
    ensures Sum(t, ids, TotalNs) >= 1000 * (q * Sum(t, ids, Calls))
    decreases |ids|
  {
    if ids != {} {
      var id :| id in ids;
      SumTakesAny(t, ids, TotalNs, id);
      SumTakesAny(t, ids, Calls, id);
      SumsAtLeast(t, ids - {id}, q);
      Distribute(q, t[id].calls, Sum(t, ids - {id}, Calls));
    }
  }

  lemma {:induction false} SumsBelow(t: Table, ids: set<I64>, q: nat)
    requires ids != {} && ids <= t.Keys && forall id :: id in ids ==> t[id].totalNs < 1000 * (q * t[id].calls)
    ensures Sum(t, ids, TotalNs) < 1000 * (q * Sum(t, ids, Calls))
    decreases |ids|
  {
    var id :| id in ids;
    SumTakesAny(t, ids, TotalNs, id);
    SumTakesAny(t, ids, Calls, id);
    Distribute(q, t[id].calls, Sum(t, ids - {id}, Calls));
    if ids - {id} != {} {
      SumsBelow(t, ids - {id}, q);
    }
  }

  /** The overall figure lies between the smallest and the largest of the rows. */
  lemma OverallBetween(t: Table, low: nat, high: nat)
    requires t != map[] && forall id :: id in t ==> t[id].calls > 0
    requires forall id :: id in t ==> low <= UsecsPerCall(t[id].totalNs, t[id].calls) <= high
    ensures low <= UsecsPerCall(Total(t, TotalNs), Total(t, Calls)) <= high
  {
    var id :| id in t;
    SumTakesAny(t, t.Keys, Calls, id);
    forall i | i in t
      ensures t[i].totalNs >= 1000 * (low * t[i].calls) && t[i].totalNs < 1000 * ((high + 1) * t[i].calls)
    {
      UsecsAtLeast(t[i].totalNs, t[i].calls, low);
      UsecsAtLeast(t[i].totalNs, t[i].calls, high + 1);
    }
    SumsAtLeast(t, t.Keys, low);
    SumsBelow(t, t.Keys, high + 1);
    UsecsAtLeast(Total(t, TotalNs), Total(t, Calls), low);
    UsecsAtLeast(Total(t, TotalNs), Total(t, Calls), high + 1);
  }

  // ---------------------------------------------------------------------
  // The printed columns

  /** The exact fraction behind a percentage; nothing of nothing is none. */
  datatype Share = Share(part: nat, whole: nat)

  /** The columns of a line; the seconds as nanoseconds. */
  datatype Line = Line(share: Share, totalNs: nat, usecsPerCall: nat, calls: U64, errors: U64, syscall: Bytes)

  const TOTAL_LABEL: Bytes := [116, 111, 116, 97, 108]

  function Percent(totalNs: nat, allNs: nat): Share
  {
    if allNs == 0 then Share(0, 1) else Share(totalNs, allNs)
  }

  function LineFor(row: Row, allNs: nat): Line
  {
    var s := row.stats;
    Line(Percent(s.totalNs, allNs), s.totalNs, UsecsPerCall(s.totalNs, s.calls), s.calls, s.errors, row.syscall)
  }

  function TotalLine(r: Report): Line
  {
    Line(Percent(r.totalNs, r.totalNs), r.totalNs, UsecsPerCall(r.totalNs, r.calls), r.calls, r.errors, TOTAL_LABEL)
  }

  function RowLines(rows: seq<Row>, allNs: nat): seq<Line>
  {
    if rows == [] then [] else RowLines(rows[..|rows| - 1], allNs) + [LineFor(rows[|rows| - 1], allNs)]
  }

  /** The lines between the rules, and the total below them. */
  function Lines(r: Report): seq<Line>
  {
    RowLines(r.rows, r.totalNs) + [TotalLine(r)]
  }

  function RowSum(rows: seq<Row>, f: Field): nat
  {
    if rows == [] then 0 else RowSum(rows[..|rows| - 1], f) + Value(rows[|rows| - 1].stats, f)
  }

  /** The sum of the shares, as parts of their common whole. */
  function SharesSum(lines: seq<Line>): nat
  {
    if lines == [] then 0 else SharesSum(lines[..|lines| - 1]) + lines[|lines| - 1].share.part
  }

  function TimesSum(lines: seq<Line>): nat
  {
    if lines == [] then 0 else TimesSum(lines[..|lines| - 1]) + lines[|lines| - 1].totalNs
  }

  lemma OrderedNames(rows: seq<Row>, t: Table, ids: set<I64>, name: I64 -> Bytes)
    requires NamesInjective(name) && RowsOf(rows, t, ids, name) && Ordered(rows)
    ensures DistinctNames(rows)
  {
    forall i, j | 0 <= i < j < |rows| ensures rows[i].syscall != rows[j].syscall {
      NotBothWays(rows[i], rows[j]);
      var image := set id | id in ids :: RowFor(t, name, id);
      assert rows[i] in AsSet(rows) && rows[j] in AsSet(rows);
      var a :| a in ids && rows[i] == RowFor(t, name, a);
      var b :| b in ids && rows[j] == RowFor(t, name, b);
    }
  }

  /** The last row belongs to some call, and the other rows to the others. */
  lemma LastRowsCall(rows: seq<Row>, t: Table, ids: set<I64>, name: I64 -> Bytes) returns (id: I64)
    requires NamesInjective(name) && RowsOf(rows, t, ids, name) && DistinctNames(rows) && rows != []
    ensures id in ids && rows[|rows| - 1] == RowFor(t, name, id)
    ensures RowsOf(rows[..|rows| - 1], t, ids - {id}, name)
  {
    var n := |rows| - 1;
    var image := set i | i in ids :: RowFor(t, name, i);
    assert rows[n] in AsSet(rows);
    id :| id in ids && rows[n] == RowFor(t, name, id);
    var fewer := set i | i in ids - {id} :: RowFor(t, name, i);
    forall x ensures x in AsSet(rows[..n]) <==> x in fewer {
      if x in AsSet(rows[..n]) {
        var k :| 0 <= k < n && rows[k] == x;
        assert x in AsSet(rows);
        var i :| i in ids && x == RowFor(t, name, i);
        assert rows[k].syscall != rows[n].syscall;
        assert i in ids - {id};
      }
      if x in fewer {
        var i :| i in ids - {id} && x == RowFor(t, name, i);
        assert x in image;
        var k :| 0 <= k < |rows| && rows[k] == x;
        assert name(i) == x.syscall && name(id) == rows[n].syscall;
        assert rows[..n][k] == x;
      }
    }
  }

  lemma {:induction false} RowSumIsSum(rows: seq<Row>, t: Table, ids: set<I64>, name: I64 -> Bytes, f: Field)
    requires NamesInjective(name) && RowsOf(rows, t, ids, name) && DistinctNames(rows) && ids <= t.Keys
    ensures RowSum(rows, f) == Sum(t, ids, f)
  {
    if rows == [] {
      assert ids == {};
    } else {
      var id := LastRowsCall(rows, t, ids, name);
      RowSumIsSum(rows[..|rows| - 1], t, ids - {id}, name, f);
      SumTakesAny(t, ids, f, id);
    }
  }

  lemma {:induction false} ColumnsAdd(rows: seq<Row>, allNs: nat)
    ensures var lines := RowLines(rows, allNs);
            && TimesSum(lines) == RowSum(rows, TotalNs)
            && SharesSum(lines) == (if allNs == 0 then 0 else RowSum(rows, TotalNs))
            && forall k :: 0 <= k < |lines| ==> lines[k].share.whole == Percent(0, allNs).whole
  {
    hide UsecsPerCall;
    if rows != [] {
      var n := |rows| - 1;
      var front := RowLines(rows[..n], allNs);
      ColumnsAdd(rows[..n], allNs);
      assert (front + [LineFor(rows[n], allNs)])[..|front|] == front;
    }
  }

  /** Each line tells the numbers of its row, in the rows' order; the last line tells the totals. */
  ghost predicate LinesTell(r: Report, lines: seq<Line>)
  {
    && |lines| == |r.rows| + 1
    && (forall k :: 0 <= k < |r.rows| ==>
          && lines[k].syscall == r.rows[k].syscall && lines[k].calls == r.rows[k].stats.calls
          && lines[k].errors == r.rows[k].stats.errors && lines[k].totalNs == r.rows[k].stats.totalNs
          && lines[k].usecsPerCall == UsecsPerCall(r.rows[k].stats.totalNs, r.rows[k].stats.calls)
          && (r.totalNs > 0 ==> lines[k].share == Share(r.rows[k].stats.totalNs, r.totalNs)))
    && var total := lines[|r.rows|];
       && total.calls == r.calls && total.errors == r.errors && total.totalNs == r.totalNs
       && total.usecsPerCall == UsecsPerCall(r.totalNs, r.calls)
  }

  lemma {:induction false} RowLinesAt(rows: seq<Row>, allNs: nat)
    ensures |RowLines(rows, allNs)| == |rows|
    ensures forall k :: 0 <= k < |rows| ==> RowLines(rows, allNs)[k] == LineFor(rows[k], allNs)
  {
    hide UsecsPerCall;
    if rows != [] {
      RowLinesAt(rows[..|rows| - 1], allNs);
    }
  }

  lemma LinesTellTheReport(r: Report)
    ensures LinesTell(r, Lines(r))
  {
    hide UsecsPerCall;
    RowLinesAt(r.rows, r.totalNs);
  }

  /** All shares are of one whole, and they make it up if any time was spent; the times make up the total line's. */
  ghost predicate MakeUp(lines: seq<Line>, total: Line)
  {
    && (forall k :: 0 <= k < |lines| ==> lines[k].share.whole == total.share.whole)
    && SharesSum(lines) == total.share.part == (if total.totalNs == 0 then 0 else total.share.whole)
    && TimesSum(lines) == total.totalNs
  }

  /** The percentages of the rows make up the hundred of the total line, and the seconds its seconds. */
  lemma ColumnsMakeUpTheTotal(t: Table, name: I64 -> Bytes, r: Report)
    requires NamesInjective(name) && ReportOf(r, t, name) && Total(t, TotalNs) < TWO_64
    ensures MakeUp(RowLines(r.rows, r.totalNs), TotalLine(r))
  {
    hide RowsOf, UsecsPerCall;
    OrderedNames(r.rows, t, t.Keys, name);
    RowSumIsSum(r.rows, t, t.Keys, name, TotalNs);
    ColumnsAdd(r.rows, r.totalNs);
  }

  // ---------------------------------------------------------------------
  // From events to the report

  /** A call in the table was counted at least once. */
  lemma {:induction false} CallsCounted(evs: seq<Event>)
    requires |evs| < TWO_64
    ensures forall id :: id in Collected(evs) ==> 0 < Collected(evs)[id].calls <= |evs|
  {
    if evs != [] {
      CallsCounted(evs[..|evs| - 1]);
    }
  }

  lemma SomethingCollected(evs: seq<Event>)
    requires evs != []
    ensures Collected(evs) != map[]
  {
    assert evs[|evs| - 1].id in Collected(evs);
  }

  /**
   The report of a list of events, short of overflow: it counts every event, every
   failure and all the time, its shares make up the whole, and the overall
   microseconds per call lie between the smallest and the largest of the rows.
   */
  ghost predicate TellsEvents(r: Report, evs: seq<Event>)
  {
    |evs| < TWO_64 && Weights(evs, TotalNs) < TWO_64 ==>
      && r.calls == |evs| && r.errors == Failures(evs) && r.totalNs == Weights(evs, TotalNs)
      && MakeUp(RowLines(r.rows, r.totalNs), TotalLine(r))
      && (evs != [] ==> Between(r))
  }

  lemma ReportOfEvents(evs: seq<Event>, name: I64 -> Bytes, r: Report)
    requires NamesInjective(name) && ReportOf(r, Collected(evs), name)
    ensures TellsEvents(r, evs)
  {
    hide RowsOf, Collected, Ordered, MakeUp, UsecsPerCall, Percent;
    var t := Collected(evs);
    if |evs| < TWO_64 && Weights(evs, TotalNs) < TWO_64 {
      WeightsMean(evs);
      TotalsConserved(evs, Calls);
      TotalsConserved(evs, Errors);
      TotalsConserved(evs, TotalNs);
      ColumnsMakeUpTheTotal(t, name, r);
      if evs != [] {
        OverallOfRows(evs, name, r);
      }
    }
  }

  lemma OverallOfRows(evs: seq<Event>, name: I64 -> Bytes, r: Report)
    requires evs != [] && |evs| < TWO_64 && RowsOf(r.rows, Collected(evs), Collected(evs).Keys, name)
    requires r.calls == Total(Collected(evs), Calls) && r.totalNs == Total(Collected(evs), TotalNs)
    ensures Between(r)
  {
    hide RowsOf, Collected, Total, UsecsPerCall;
    var t := Collected(evs);
    CallsCounted(evs);
    SomethingCollected(evs);
    forall low: nat, high: nat | Bounds(low, r, high)
      ensures low <= UsecsPerCall(r.totalNs, r.calls) <= high
    {
      BoundsOfTable(t, name, r, low, high);
      OverallBetween(t, low, high);
    }
  }

  ghost predicate Bounds(low: nat, r: Report, high: nat)
  {
    forall k :: 0 <= k < |r.rows| ==> low <= UsecsPerCall(r.rows[k].stats.totalNs, r.rows[k].stats.calls) <= high
  }

  /** Whatever bounds the rows' figures bounds the overall one. */
  ghost predicate Between(r: Report)
  {
    forall low: nat, high: nat | Bounds(low, r, high) :: low <= UsecsPerCall(r.totalNs, r.calls) <= high
  }

  lemma BoundsOfTable(t: Table, name: I64 -> Bytes, r: Report, low: nat, high: nat)
    requires RowsOf(r.rows, t, t.Keys, name) && Bounds(low, r, high)
    ensures forall id :: id in t ==> low <= UsecsPerCall(t[id].totalNs, t[id].calls) <= high
  {
    forall id | id in t ensures low <= UsecsPerCall(t[id].totalNs, t[id].calls) <= high {
      assert RowFor(t, name, id) in AsSet(r.rows);
      var k :| 0 <= k < |r.rows| && r.rows[k] == RowFor(t, name, id);
    }
  }

  /** A run that prints the summary only. */
  method SummarizeRun(evs: seq<Event>, name: I64 -> Bytes) returns (r: Report, lines: seq<Line>)
    requires NamesInjective(name)
    ensures ReportOf(r, Collected(evs), name) && TellsEvents(r, evs) && lines == Lines(r)
  {
    hide ReportOf, TellsEvents, Lines;
    var summary := new SummaryMap();
    summary.AddAll(evs);
    r, lines := FormatSummary(summary.table, name);
    ReportOfEvents(evs, name, r);
  }

  // ---------------------------------------------------------------------
  // What the rows say, row by row

  /** The events of one system call. */
  function Only(evs: seq<Event>, id: I64): seq<Event>
  {
    if evs == [] then []
    else Only(evs[..|evs| - 1], id) + (if evs[|evs| - 1].id == id then [evs[|evs| - 1]] else [])
  }

  /** Each counter of a row is the sum over its call's own events, short of overflow; there are rows for calls that occur only. */
  lemma {:induction false} RowsCountTheirOwn(evs: seq<Event>, id: I64, f: Field)
    requires Weights(Only(evs, id), f) < TWO_64
    ensures id in Collected(evs) <==> exists k :: 0 <= k < |evs| && evs[k].id == id
    ensures Value(StatsOf(Collected(evs), id), f) == Weights(Only(evs, id), f)
  {
    hide Add64, Weight;
    if evs != [] {
      var n := |evs| - 1;
      var front, ev := evs[..n], evs[n];
      var own := Only(front, id);
      if ev.id == id {
        assert (own + [ev])[..|own|] == own;
        assert Weights(own + [ev], f) == Weights(own, f) + Weight(ev, f);
        RowsCountTheirOwn(front, id, f);
        NoWrap(Value(StatsOf(Collected(front), id), f), Weight(ev, f));
        assert evs[n].id == id;
      } else {
        assert own + [] == own;
        RowsCountTheirOwn(front, id, f);
        assert forall k :: 0 <= k < n ==> front[k] == evs[k];
      }
    }
  }

  /** Rows come by falling time, and those of equal time by rising name, byte by byte. */
  lemma OrderedMeans(rows: seq<Row>, i: nat, j: nat)
    requires Ordered(rows) && i < j < |rows|
    ensures rows[i].stats.totalNs >= rows[j].stats.totalNs
    ensures rows[i].stats.totalNs == rows[j].stats.totalNs ==> Rises(rows[i].syscall, rows[j].syscall)
  {
    assert Before(rows[i], rows[j]);
    if rows[i].stats.totalNs == rows[j].stats.totalNs {
      LessMeans(rows[i].syscall, rows[j].syscall);
    }
  }

  /** Up to some place the names agree; there the first has ended, or has the smaller byte. */
  ghost predicate Rises(a: Bytes, b: Bytes)
  {
    exists k: nat :: k <= |a| && k < |b| && a[..k] == b[..k] && (k == |a| || a[k] < b[k])
  }

  lemma {:induction false} LessMeans(a: Bytes, b: Bytes)
    requires Less(a, b)
    ensures Rises(a, b)
  {
    if a == [] || a[0] < b[0] {
      assert a[..0] == b[..0];
    } else {
      LessMeans(a[1..], b[1..]);
      var k: nat :| k <= |a[1..]| && k < |b[1..]| && a[1..][..k] == b[1..][..k] && (k == |a[1..]| || a[1..][k] < b[1..][k]);
      assert a[..k + 1] == [a[0]] + a[1..][..k] && b[..k + 1] == [b[0]] + b[1..][..k];
    }
  }

  /** The figure is the whole microseconds, of a thousand nanoseconds, that each call took at least; none for no calls. */
  lemma UsecsMeans(totalNs: nat, calls: nat, q: nat)
    ensures calls > 0 ==> (UsecsPerCall(totalNs, calls) == q <==> 1000 * (q * calls) <= totalNs < 1000 * ((q + 1) * calls))
    ensures UsecsPerCall(totalNs, 0) == 0
  {
    if calls > 0 {
      UsecsAtLeast(totalNs, calls, q);
      UsecsAtLeast(totalNs, calls, q + 1);
    }
  }
}
