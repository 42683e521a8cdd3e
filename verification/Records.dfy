/**
 The filter's per-process records as values, and what each small helper does to
 the table of records.  A record's fd set and fd map are either absent (nil) or
 present; the set is an index the helpers maintain by hand.
 */
module Records {
  import opened Base
  import opened FilterSpec

  datatype Rec = Rec(cwd: Bytes, tracked: Option<set<U64>>, fds: Option<map<U64, Bytes>>) {
    function FDs(): map<U64, Bytes>
    {
      if fds.None? then map[] else fds.value
    }

    function Tracked(): set<U64>
    {
      if tracked.None? then {} else tracked.value
    }

    predicate Blank()
    {
      cwd == [] && Tracked() == {} && FDs() == map[]
    }
  }

  type Table = map<U32, Rec>

  const EMPTY_REC := Rec([], None, None)

  function RecOf(t: Table, pid: U32): Rec
  {
    if pid in t then t[pid] else EMPTY_REC
  }

  function DropIfBlank(t: Table, pid: U32): Table
  {
    if pid in t && t[pid].Blank() then t - {pid} else t
  }

  function Track(t: Table, pid: U32, fd: U64): Table
  {
    var r := RecOf(t, pid);
    t[pid := r.(tracked := Some(r.Tracked() + {fd}))]
  }

  function Untrack(t: Table, pid: U32, fd: U64): Table
  {
    if pid !in t || t[pid].tracked.None? then t
    else
      var rest := t[pid].tracked.value - {fd};
      DropIfBlank(t[pid := t[pid].(tracked := if rest == {} then None else Some(rest))], pid)
  }

  function SetPath(t: Table, pid: U32, fd: U64, path: Bytes): Table
  {
    var r := RecOf(t, pid);
    t[pid := r.(fds := Some(r.FDs()[fd := path]))]
  }

  function UnsetPath(t: Table, pid: U32, fd: U64): Table
  {
    if pid !in t || t[pid].fds.None? then t
    else
      var rest := t[pid].fds.value - {fd};
      DropIfBlank(t[pid := t[pid].(fds := if rest == map[] then None else Some(rest))], pid)
  }

  function Sync(paths: set<Bytes>, t: Table, pid: U32, fd: U64, path: Bytes): Table
  {
    if path in paths then Track(t, pid, fd) else Untrack(t, pid, fd)
  }

  function SetCwd(t: Table, pid: U32, cwd: Bytes): Table
  {
    t[pid := RecOf(t, pid).(cwd := cwd)]
  }

  // ---------------------------------------------------------------------
  // The representation invariant of the table

  /** The index is exact: tracked are the fds whose stored path is wanted. */
  predicate Exact(paths: set<Bytes>, r: Rec)
  {
    r.Tracked() == set fd | fd in r.FDs() && r.FDs()[fd] in paths
  }

  /** Absent rather than empty, and never a record about nothing. */
  predicate Compact(r: Rec)
  {
    r.tracked != Some({}) && r.fds != Some(map[]) && (r.cwd != [] || r.fds.Some?)
  }

  predicate SoundRec(paths: set<Bytes>, r: Rec)
  {
    Exact(paths, r) && Compact(r) && forall fd :: fd in r.FDs() ==> r.FDs()[fd] != []
  }

  ghost predicate Sound(paths: set<Bytes>, t: Table)
  {
    forall pid :: pid in t ==> SoundRec(paths, t[pid])
  }

  /** Forgetting the index leaves a table of the reference machine. */
  function ProcOf(r: Rec): Proc
  {
    Proc(r.cwd, r.FDs())
  }

  function Abs(t: Table): Procs
  {
    map pid | pid in t :: ProcOf(t[pid])
  }

  /** t' differs from t at most in the record of pid, which now stands for p. */
  ghost predicate Became(paths: set<Bytes>, t: Table, pid: U32, p: Proc, t': Table)
  {
    && (forall q :: q != pid ==> (q in t' <==> q in t) && (q in t ==> t'[q] == t[q]))
    && (pid in t' ==> SoundRec(paths, t'[pid]))
    && ProcOf(RecOf(t', pid)) == p
  }

  lemma BecameSound(paths: set<Bytes>, t: Table, pid: U32, p: Proc, t': Table)
    requires Sound(paths, t) && Became(paths, t, pid, p, t')
    ensures Sound(paths, t') && Abs(t') == Put(Abs(t), pid, p)
    ensures Tidy(Abs(t)) && Get(Abs(t), pid) == ProcOf(RecOf(t, pid))
  {
    forall q | q in t' ensures SoundRec(paths, t'[q]) {
      assert q != pid ==> SoundRec(paths, t[q]);
    }
    SoundTidy(paths, t);
    hide Exact;
    if pid in t' {
      assert p != UNKNOWN;
      assert Abs(t') == Abs(t)[pid := p];
    } else {
      assert p == UNKNOWN;
      assert Abs(t') == Abs(t) - {pid};
    }
  }

  lemma SoundTidy(paths: set<Bytes>, t: Table)
    requires Sound(paths, t)
    ensures Tidy(Abs(t))
    ensures forall pid :: Get(Abs(t), pid) == ProcOf(RecOf(t, pid))
  {
    forall pid | pid in Abs(t) ensures Abs(t)[pid] != UNKNOWN {
      assert SoundRec(paths, t[pid]);
    }
  }

  /** Storing a path and then synchronising the index. */
  lemma StoreBecame(paths: set<Bytes>, t: Table, pid: U32, fd: U64, path: Bytes)
    requires (pid in t ==> SoundRec(paths, t[pid])) && path != []
    ensures var p := ProcOf(RecOf(t, pid));
            Became(paths, t, pid, p.(fds := p.fds[fd := path]), Sync(paths, SetPath(t, pid, fd, path), pid, fd, path))
  {
    var r := RecOf(t, pid);
    var t1 := SetPath(t, pid, fd, path);
    var t2 := Sync(paths, t1, pid, fd, path);
    assert fd in r.FDs()[fd := path];
    assert r.FDs()[fd := path] != map[];
    assert fd in t1[pid].FDs();
    assert pid in t2;
    assert t2[pid].FDs() == r.FDs()[fd := path];
  }

  lemma CwdBecame(paths: set<Bytes>, t: Table, pid: U32, cwd: Bytes)
    requires Sound(paths, t) && cwd != []
    ensures Became(paths, t, pid, ProcOf(RecOf(t, pid)).(cwd := cwd), SetCwd(t, pid, cwd))
  {
    var r, t' := RecOf(t, pid), SetCwd(t, pid, cwd);
    if pid in t {
      assert SoundRec(paths, t[pid]);
    } else {
      assert r.Tracked() == {} && r.FDs() == map[];
      assert Exact(paths, r);
    }
    assert t'[pid].Tracked() == r.Tracked() && t'[pid].FDs() == r.FDs();
  }

  /** The table with an fd forgotten: nil for what is emptied, no record for nothing. */
  function Forgotten(t: Table, pid: U32, fd: U64): Table
    requires pid in t
  {
    var r := t[pid];
    var tracked, fds := r.Tracked() - {fd}, r.FDs() - {fd};
    DropIfBlank(t[pid := Rec(r.cwd, if tracked == {} then None else Some(tracked), if fds == map[] then None else Some(fds))], pid)
  }

  /** Forgetting an fd, the index entry first or the path first. */
  lemma ForgetBecame(paths: set<Bytes>, t: Table, pid: U32, fd: U64)
    requires Sound(paths, t)
    ensures var p := ProcOf(RecOf(t, pid));
            && Became(paths, t, pid, p.(fds := p.fds - {fd}), UnsetPath(Untrack(t, pid, fd), pid, fd))
            && Untrack(UnsetPath(t, pid, fd), pid, fd) == UnsetPath(Untrack(t, pid, fd), pid, fd)
  {
    if pid in t {
      assert SoundRec(paths, t[pid]);
      BothOrders(paths, t, pid, fd);
      ForgottenBecame(paths, t, pid, fd);
    }
  }

  lemma BothOrders(paths: set<Bytes>, t: Table, pid: U32, fd: U64)
    requires pid in t && SoundRec(paths, t[pid])
    ensures UnsetPath(Untrack(t, pid, fd), pid, fd) == Forgotten(t, pid, fd) == Untrack(UnsetPath(t, pid, fd), pid, fd)
  {
    var r := t[pid];
    assert fd !in r.Tracked() ==> r.Tracked() - {fd} == r.Tracked();
    assert fd !in r.FDs() ==> r.FDs() - {fd} == r.FDs();
    TrackedMeansStored(paths, r);
    assert r.tracked.Some? ==> r.tracked.value != {};
  }

  lemma TrackedMeansStored(paths: set<Bytes>, r: Rec)
    requires SoundRec(paths, r)
    ensures r.Tracked() <= r.FDs().Keys
  {
  }

  lemma ForgottenBecame(paths: set<Bytes>, t: Table, pid: U32, fd: U64)
    requires pid in t && SoundRec(paths, t[pid])
    ensures var p := ProcOf(t[pid]);
            Became(paths, t, pid, p.(fds := p.fds - {fd}), Forgotten(t, pid, fd))
  {
    var r, t2 := t[pid], Forgotten(t, pid, fd);
    TrackedMeansStored(paths, r);
    if pid in t2 {
      assert t2[pid].FDs() == r.FDs() - {fd};
      assert t2[pid].Tracked() == r.Tracked() - {fd};
      assert Exact(paths, t2[pid]);
      assert t2[pid].fds.None? ==> t2[pid].tracked.None?;
    }
  }

  /** After target's fds were removed from a record, with nil for an emptied map. */
  lemma RemovalBecame(paths: set<Bytes>, t: Table, pid: U32, target: Bytes, r: Rec)
    requires pid in t && SoundRec(paths, t[pid])
    requires r.cwd == t[pid].cwd && r.FDs() == Without(t[pid].FDs(), target)
    requires Exact(paths, r) && r.tracked != Some({}) && r.fds != Some(map[])
    ensures var p := ProcOf(t[pid]);
            Became(paths, t, pid, p.(fds := Without(p.fds, target)), DropIfBlank(t[pid := r], pid))
  {
    var t2 := DropIfBlank(t[pid := r], pid);
    if pid in t2 {
      if r.tracked.Some? {
        assert r.tracked.value != {};
        var x :| x in r.tracked.value;
        assert x in r.FDs();
      }
    }
  }

  /** The child's record is the parent's by value, or gone if the parent has none. */
  function ForkTable(t: Table, parent: U32, child: U32): Table
  {
    if parent in t then t[child := t[parent]] else t - {child}
  }

  lemma ForkBecame(paths: set<Bytes>, t: Table, parent: U32, child: U32)
    requires Sound(paths, t)
    ensures Became(paths, t, child, ProcOf(RecOf(t, parent)), ForkTable(t, parent, child))
  {
    assert parent in t ==> SoundRec(paths, t[parent]);
  }
}
