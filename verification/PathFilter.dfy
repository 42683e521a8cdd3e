/**
 The path filter itself: a table of heap records, one per process, each with its
 own index object and path-map object.  Records are made when first needed and
 dropped when empty.  Every operation is proved against the reference machine.
 */
module PathFilter {
  import opened Base
  import opened Paths
  import opened Events
  import opened FilterSpec
  import opened Records

  /** A Go set of fds: an object of its own, made for one process. */
  class FDSet {
    ghost const owner: U32
    var fds: set<U64>

    constructor (ghost owner: U32, fds: set<U64>)
      ensures this.owner == owner && this.fds == fds
    {
      this.owner := owner;
      this.fds := fds;
    }
  }

  /** A Go map from fds to paths: an object of its own, made for one process. */
  class FDPathMap {
    ghost const owner: U32
    var paths: map<U64, Bytes>

    constructor (ghost owner: U32, paths: map<U64, Bytes>)
      ensures this.owner == owner && this.paths == paths
    {
      this.owner := owner;
      this.paths := paths;
    }
  }

  class ProcessPathState {
    ghost const owner: U32
    var cwd: Bytes
    var trackedFDs: FDSet?
    var fdPaths: FDPathMap?

    constructor (ghost owner: U32, cwd: Bytes, trackedFDs: FDSet?, fdPaths: FDPathMap?)
      ensures this.owner == owner && this.cwd == cwd && this.trackedFDs == trackedFDs && this.fdPaths == fdPaths
    {
      this.owner := owner;
      this.cwd, this.trackedFDs, this.fdPaths := cwd, trackedFDs, fdPaths;
    }

    /** The record as a value; nil and empty are kept apart. */
    ghost function Value(): Rec
      reads this, trackedFDs, fdPaths
    {
      Rec(cwd,
          if trackedFDs == null then None else Some(trackedFDs.fds),
          if fdPaths == null then None else Some(fdPaths.paths))
    }

    /** The record and its two objects were all made for pid. */
    ghost predicate MadeFor(pid: U32)
      reads this
    {
      && owner == pid
      && (trackedFDs != null ==> trackedFDs.owner == pid)
      && (fdPaths != null ==> fdPaths.owner == pid)
    }
  }

  class PathFilter {
    const cfg: Config
    const procfs: ProcFS
    var stateByPID: map<U32, ProcessPathState>
    var lookups: nat
    ghost var table: Table
    ghost var Repr: set<object>

    /** The record of process p, if any, is made of its own objects and is what the table says. */
    ghost predicate Entry(p: U32)
      reads this, Repr
    {
      && (p in stateByPID <==> p in table)
      && (p in stateByPID ==>
            && stateByPID[p] in Repr
            && (stateByPID[p].trackedFDs != null ==> stateByPID[p].trackedFDs in Repr)
            && (stateByPID[p].fdPaths != null ==> stateByPID[p].fdPaths in Repr)
            && stateByPID[p].MadeFor(p)
            && stateByPID[p].Value() == table[p])
    }

    /** Every object is in Repr, and no two processes share one. */
    ghost predicate Separated()
      reads this, Repr
    {
      this in Repr && forall p: U32 :: Entry(p)
    }

    /** Between events: separate objects, an exact index, nothing empty kept. */
    ghost predicate Valid()
      reads this, Repr
    {
      Separated() && Sound(cfg.paths, table)
    }

    /** The state of the reference machine this filter stands for. */
    ghost function Model(): World
      reads this
    {
      World(Abs(table), lookups)
    }

    constructor (cfg: Config, procfs: ProcFS)
      ensures Valid() && fresh(Repr)
      ensures this.cfg == cfg && this.procfs == procfs && Model() == START
    {
      this.cfg, this.procfs := cfg, procfs;
      stateByPID, table, lookups := map[], map[], 0;
      Repr := {this};
    }

    /** Two processes share neither a record nor a set nor a map. */
    lemma NoSharing(p: U32, q: U32)
      requires Separated() && p in stateByPID && q in stateByPID && p != q
      ensures stateByPID[p] != stateByPID[q]
      ensures stateByPID[p].trackedFDs != null ==> stateByPID[p].trackedFDs != stateByPID[q].trackedFDs
      ensures stateByPID[p].fdPaths != null ==> stateByPID[p].fdPaths != stateByPID[q].fdPaths
    {
      assert Entry(p) && Entry(q);
    }

    /** In a valid filter the index of every process is exact and nothing empty is kept. */
    lemma IndexExact(pid: U32)
      requires Valid() && pid in stateByPID
      ensures var st := stateByPID[pid];
              && (forall fd :: (st.trackedFDs != null && fd in st.trackedFDs.fds) <==>
                               (st.fdPaths != null && fd in st.fdPaths.paths && st.fdPaths.paths[fd] in cfg.paths))
              && (st.trackedFDs != null ==> st.trackedFDs.fds != {})
              && (st.fdPaths != null ==> st.fdPaths.paths != map[])
              && (st.cwd != [] || st.fdPaths != null)
    {
      assert Entry(pid);
      var r := table[pid];
      assert SoundRec(cfg.paths, r);
      assert forall fd :: fd in r.Tracked() <==> fd in r.FDs() && r.FDs()[fd] in cfg.paths;
      assert r.tracked.Some? ==> r.tracked.value != {};
      assert r.fds.Some? ==> r.fds.value != map[];
    }

    // ---------------------------------------------------------------------
    // Helpers on one record

    method StateForPID(pid: U32) returns (state: ProcessPathState)
      requires Separated()
      modifies this
      ensures Separated() && fresh(Repr - old(Repr)) && lookups == old(lookups)
      ensures table == old(table)[pid := RecOf(old(table), pid)]
      ensures pid in old(stateByPID) ==> stateByPID == old(stateByPID) && Repr == old(Repr)
      ensures pid in stateByPID && state == stateByPID[pid]
    {
      assert Entry(pid);
      if pid in stateByPID {
        state := stateByPID[pid];
      } else {
        state := new ProcessPathState(pid, [], null, null);
        stateByPID, table := stateByPID[pid := state], table[pid := EMPTY_REC];
        Repr := Repr + {state};
      }
      forall p | p != pid ensures Entry(p) {
        assert old(Entry(p));
      }
    }

    method MaybeDropPIDState(pid: U32)
      requires Separated()
      modifies this
      ensures Separated() && Repr == old(Repr) && lookups == old(lookups)
      ensures table == DropIfBlank(old(table), pid)
      ensures pid in old(stateByPID) && !RecOf(old(table), pid).Blank() ==> stateByPID == old(stateByPID)
    {
      assert Entry(pid);
      if pid !in stateByPID {
        return;
      }
      var state := stateByPID[pid];
      var hasCWD := state.cwd != [];
      var hasTrackedFDs := state.trackedFDs != null && |state.trackedFDs.fds| > 0;
      var hasFDPaths := state.fdPaths != null && |state.fdPaths.paths| > 0;
      assert state.Value() == table[pid];
      assert hasTrackedFDs <==> table[pid].Tracked() != {};
      assert hasFDPaths <==> table[pid].FDs() != map[];
      if hasCWD || hasTrackedFDs || hasFDPaths {
        return;
      }
      stateByPID, table := stateByPID - {pid}, table - {pid};
      forall p | p != pid ensures Entry(p) {
        assert old(Entry(p));
      }
    }

    /** The process's record with a set made for it if it had none. */
    method StateWithSet(pid: U32) returns (state: ProcessPathState)
      requires Separated()
      modifies Repr
      ensures Separated() && fresh(Repr - old(Repr)) && lookups == old(lookups)
      ensures var r := RecOf(old(table), pid); table == old(table)[pid := r.(tracked := Some(r.Tracked()))]
      ensures pid in old(stateByPID) ==> stateByPID == old(stateByPID) && stateByPID[pid].fdPaths == old(stateByPID[pid].fdPaths)
      ensures pid in stateByPID && state == stateByPID[pid] && state.trackedFDs != null
    {
      assert Entry(pid);
      state := StateForPID(pid);
      label Got:
      assert Entry(pid);
      if state.trackedFDs == null {
        state.trackedFDs := new FDSet(pid, {});
        Repr := Repr + {state.trackedFDs};
        table := table[pid := state.Value()];
      }
      forall p | p != pid ensures Entry(p) {
        assert old@Got(Entry(p));
      }
    }

    method TrackFD(pid: U32, fd: U64)
      requires Separated()
      modifies Repr
      ensures Separated() && fresh(Repr - old(Repr)) && lookups == old(lookups)
      ensures table == Track(old(table), pid, fd)
      ensures pid in old(stateByPID) ==> stateByPID == old(stateByPID) && stateByPID[pid].fdPaths == old(stateByPID[pid].fdPaths)
    {
      var state := StateWithSet(pid);
      label Got:
      assert Entry(pid);
      state.trackedFDs.fds := state.trackedFDs.fds + {fd};
      table := table[pid := state.Value()];
      forall p | p != pid ensures Entry(p) {
        assert old@Got(Entry(p));
      }
      assert table[pid].tracked == Some(RecOf(old(table), pid).Tracked() + {fd});
    }

    method UntrackFD(pid: U32, fd: U64)
      requires Separated()
      modifies Repr
      ensures Separated() && fresh(Repr - old(Repr)) && lookups == old(lookups)
      ensures table == Untrack(old(table), pid, fd)
      ensures pid in old(stateByPID) && RecOf(old(table), pid).FDs() != map[] ==>
                stateByPID == old(stateByPID) && stateByPID[pid].fdPaths == old(stateByPID[pid].fdPaths)
    {
      assert Entry(pid);
      if pid !in stateByPID || stateByPID[pid].trackedFDs == null {
        return;
      }
      var state := stateByPID[pid];
      state.trackedFDs.fds := state.trackedFDs.fds - {fd};
      if |state.trackedFDs.fds| == 0 {
        state.trackedFDs := null;
      }
      table := table[pid := state.Value()];
      forall p | p != pid ensures Entry(p) {
        assert old(Entry(p));
      }
      MaybeDropPIDState(pid);
    }

    method FDTracked(pid: U32, fd: U64) returns (r: bool)
      requires Separated()
      ensures r <==> fd in RecOf(table, pid).Tracked()
    {
      assert Entry(pid);
      if pid !in stateByPID || stateByPID[pid].trackedFDs == null {
        return false;
      }
      return fd in stateByPID[pid].trackedFDs.fds;
    }

    /** The process's record with a map made for it if it had none. */
    method StateWithMap(pid: U32) returns (state: ProcessPathState)
      requires Separated()
      modifies Repr
      ensures Separated() && fresh(Repr - old(Repr)) && lookups == old(lookups)
      ensures var r := RecOf(old(table), pid); table == old(table)[pid := r.(fds := Some(r.FDs()))]
      ensures pid in stateByPID && state == stateByPID[pid] && state.fdPaths != null
    {
      assert Entry(pid);
      state := StateForPID(pid);
      label Got:
      assert Entry(pid);
      if state.fdPaths == null {
        state.fdPaths := new FDPathMap(pid, map[]);
        Repr := Repr + {state.fdPaths};
        table := table[pid := state.Value()];
      }
      forall p | p != pid ensures Entry(p) {
        assert old@Got(Entry(p));
      }
    }

    method SetFDPath(pid: U32, fd: U64, path: Bytes)
      requires Separated()
      modifies Repr
      ensures Separated() && fresh(Repr - old(Repr)) && lookups == old(lookups)
      ensures table == SetPath(old(table), pid, fd, path)
    {
      var state := StateWithMap(pid);
      label Got:
      assert Entry(pid);
      state.fdPaths.paths := state.fdPaths.paths[fd := path];
      table := table[pid := state.Value()];
      forall p | p != pid ensures Entry(p) {
        assert old@Got(Entry(p));
      }
      assert table[pid].fds == Some(RecOf(old(table), pid).FDs()[fd := path]);
    }

    method SyncTrackedFD(pid: U32, fd: U64, path: Bytes)
      requires Separated()
      modifies Repr
      ensures Separated() && fresh(Repr - old(Repr)) && lookups == old(lookups)
      ensures table == Sync(cfg.paths, old(table), pid, fd, path)
      ensures pid in old(stateByPID) && RecOf(old(table), pid).FDs() != map[] ==>
                stateByPID == old(stateByPID) && stateByPID[pid].fdPaths == old(stateByPID[pid].fdPaths)
    {
      assert Entry(pid);
      if path in cfg.paths {
        TrackFD(pid, fd);
        return;
      }
      UntrackFD(pid, fd);
    }

    method UnsetFDPath(pid: U32, fd: U64)
      requires Separated()
      modifies Repr
      ensures Separated() && fresh(Repr - old(Repr)) && lookups == old(lookups)
      ensures table == UnsetPath(old(table), pid, fd)
    {
      assert Entry(pid);
      if pid !in stateByPID || stateByPID[pid].fdPaths == null {
        return;
      }
      var state := stateByPID[pid];
      state.fdPaths.paths := state.fdPaths.paths - {fd};
      table := table[pid := state.Value()];
      forall p | p != pid ensures Entry(p) {
        assert old(Entry(p));
      }
      NilIfEmpty(pid, state);
    }

    method FDPath(pid: U32, fd: U64) returns (r: Option<Bytes>)
      requires Separated()
      ensures Sound(cfg.paths, table) ==> r != Some([])
      ensures r == var fds := RecOf(table, pid).FDs(); if fd in fds then Some(fds[fd]) else None
    {
      assert Entry(pid);
      if pid !in stateByPID || stateByPID[pid].fdPaths == null {
        return None;
      }
      var paths := stateByPID[pid].fdPaths.paths;
      assert Sound(cfg.paths, table) ==> SoundRec(cfg.paths, table[pid]);
      assert paths == table[pid].FDs();
      return if fd in paths then Some(paths[fd]) else None;
    }

    // ---------------------------------------------------------------------
    // Resolving

    method CwdForPID(pid: U32) returns (r: Option<Bytes>)
      requires Valid()
      modifies Repr
      ensures Valid() && fresh(Repr - old(Repr))
      ensures var res := CwdOf(procfs, At(old(Model()), pid));
              r == res.path && Model() == Update(old(Model()), pid, res.local)
    {
      SoundTidy(cfg.paths, table);
      PutLaws(Abs(table), pid, UNKNOWN, UNKNOWN);
      assert Entry(pid);
      if pid in stateByPID && stateByPID[pid].cwd != [] {
        return Some(stateByPID[pid].cwd);
      }
      var answer := procfs(lookups);
      lookups := lookups + 1;
      assert Separated() by {
        forall p ensures Entry(p) {
          assert old(Entry(p));
        }
      }
      if answer == None {
        return None;
      }
      var cwd := Clean(answer.value);
      CleanIdempotent(answer.value);
      SetCWD(pid, cwd);
      return Some(cwd);
    }

    /** Gives the process a working directory, and a record if it has none. */
    method SetCWD(pid: U32, cwd: Bytes)
      requires Valid() && cwd != []
      modifies Repr
      ensures Valid() && fresh(Repr - old(Repr))
      ensures var l := At(old(Model()), pid);
              Model() == Update(old(Model()), pid, l.(proc := l.proc.(cwd := cwd)))
    {
      hide Exact, Compact;
      ghost var t := table;
      var state := StateForPID(pid);
      label Got:
      assert Entry(pid);
      state.cwd := cwd;
      table := table[pid := state.Value()];
      forall p | p != pid ensures Entry(p) {
        assert old@Got(Entry(p));
      }
      assert table == SetCwd(t, pid, cwd);
      SoundTidy(cfg.paths, t);
      CwdBecame(cfg.paths, t, pid, cwd);
      BecameSound(cfg.paths, t, pid, ProcOf(RecOf(t, pid)).(cwd := cwd), table);
    }

    method ResolvePathBase(ev: Event, argIndex: nat) returns (r: Option<Bytes>)
      requires Valid()
      modifies Repr
      ensures Valid() && fresh(Repr - old(Repr))
      ensures var res := ResolveBase(procfs, At(old(Model()), ev.pid), ev, argIndex);
              r == res.path && Model() == Update(old(Model()), ev.pid, res.local)
    {
      SoundTidy(cfg.paths, table);
      PutLaws(Abs(table), ev.pid, UNKNOWN, UNKNOWN);
      var dirfdArgIndex := PathBaseFDArgIndex(ev.id, argIndex);
      if dirfdArgIndex == None {
        r := CwdForPID(ev.pid);
        return;
      }
      if dirfdArgIndex.value >= ev.argCount {
        return None;
      }
      var dirfd := SignedLow32(ev.args[dirfdArgIndex.value]);
      if dirfd == AT_FDCWD {
        r := CwdForPID(ev.pid);
        return;
      }
      r := FDPath(ev.pid, Low32(ev.args[dirfdArgIndex.value]));
    }

    method ResolvePath(ev: Event, argIndex: nat, path: Bytes) returns (r: Option<Bytes>)
      requires Valid()
      modifies Repr
      ensures Valid() && fresh(Repr - old(Repr))
      ensures var res := ResolveText(procfs, At(old(Model()), ev.pid), ev, argIndex, path);
              r == res.path && Model() == Update(old(Model()), ev.pid, res.local)
    {
      SoundTidy(cfg.paths, table);
      PutLaws(Abs(table), ev.pid, UNKNOWN, UNKNOWN);
      if path == [] {
        return None;
      }
      if IsAbs(path) {
        return Some(Clean(path));
      }
      var base := ResolvePathBase(ev, argIndex);
      if base == None {
        return None;
      }
      return Some(Clean(Join(base.value, path)));
    }

    method ResolvePathAt(ev: Event, argIndex: nat) returns (r: Option<Bytes>)
      requires Valid()
      modifies Repr
      ensures Valid() && fresh(Repr - old(Repr))
      ensures var res := ResolveAt(procfs, At(old(Model()), ev.pid), ev, argIndex);
              r == res.path && Model() == Update(old(Model()), ev.pid, res.local)
    {
      SoundTidy(cfg.paths, table);
      PutLaws(Abs(table), ev.pid, UNKNOWN, UNKNOWN);
      var path := EventTracePathAt(ev, argIndex);
      if path == None {
        return None;
      }
      r := ResolvePath(ev, argIndex, path.value);
    }

    // ---------------------------------------------------------------------
    // Deciding

    method MatchesPathAt(ev: Event, argIndex: nat) returns (r: bool)
      requires Valid()
      modifies Repr
      ensures Valid() && fresh(Repr - old(Repr))
      ensures var res := ResolveAt(procfs, At(old(Model()), ev.pid), ev, argIndex);
              && r == (res.path.Some? && res.path.value in cfg.paths)
              && Model() == Update(old(Model()), ev.pid, res.local)
    {
      var path := ResolvePathAt(ev, argIndex);
      return path.Some? && path.value in cfg.paths;
    }

    method MatchesPath(ev: Event) returns (r: bool)
      requires Valid()
      modifies Repr
      ensures Valid() && fresh(Repr - old(Repr))
      ensures var d := MatchArgs(cfg, procfs, At(old(Model()), ev.pid), ev, PathArgs(ev.id));
              r == d.yes && Model() == Update(old(Model()), ev.pid, d.local)
    {
      ghost var l := At(Model(), ev.pid);
      SoundTidy(cfg.paths, table);
      MatchUnfolds(cfg, procfs, l, ev, 0, 0);
      MatchUnfolds(cfg, procfs, l, ev, 1, 1);
      if ev.id == SYS_OPEN {
        r := MatchesPathAt(ev, 0);
      } else if ev.id in {SYS_OPENAT, SYS_OPENAT2, SYS_NEWFSTATAT, SYS_FACCESSAT, SYS_STATX, SYS_FACCESSAT2} {
        r := MatchesPathAt(ev, 1);
      } else if ev.id in {SYS_ACCESS, SYS_STAT, SYS_LSTAT, SYS_CHDIR, SYS_UNLINK} {
        r := MatchesPathAt(ev, 0);
      } else if ev.id == SYS_RENAME {
        r := MatchesEither(ev, 0, 1);
      } else if ev.id == SYS_UNLINKAT {
        r := MatchesPathAt(ev, 1);
      } else if ev.id == SYS_RENAMEAT || ev.id == SYS_RENAMEAT2 {
        r := MatchesEither(ev, 1, 3);
      } else {
        PutLaws(Abs(table), ev.pid, UNKNOWN, UNKNOWN);
        r := false;
      }
    }

    /** Whether the first path argument matches, or else the second. */
    method MatchesEither(ev: Event, first: nat, second: nat) returns (r: bool)
      requires Valid()
      modifies Repr
      ensures Valid() && fresh(Repr - old(Repr))
      ensures var d := MatchArgs(cfg, procfs, At(old(Model()), ev.pid), ev, [first, second]);
              r == d.yes && Model() == Update(old(Model()), ev.pid, d.local)
    {
      ghost var l := At(Model(), ev.pid);
      MatchUnfolds(cfg, procfs, l, ev, first, second);
      r := MatchesPathAt(ev, first);
      if !r {
        SoundTidy(cfg.paths, old(table));
        ghost var l1 := ResolveAt(procfs, l, ev, first).local;
        ghost var l2 := ResolveAt(procfs, l1, ev, second).local;
        MatchUnfolds(cfg, procfs, l1, ev, second, second);
        PutLaws(old(Abs(table)), ev.pid, l1.proc, l2.proc);
        r := MatchesPathAt(ev, second);
      }
    }

    method HasTrackedFDArg(ev: Event) returns (r: bool)
      requires Valid()
      ensures r <==> HasWatchedArg(cfg, At(Model(), ev.pid).proc, ev)
    {
      SoundTidy(cfg.paths, table);
      ghost var p := At(Model(), ev.pid).proc;
      var i := 0;
      while i < ev.argCount && i < 6
        invariant 0 <= i <= 6
        invariant forall k :: 0 <= k < i ==> !WatchedArg(cfg, p, ev, k)
      {
        if ev.argTypes[i] == ARG_FD {
          var tracked := FDTracked(ev.pid, Low32(ev.args[i]));
          TrackedIsWatched(ev.pid, Low32(ev.args[i]));
          if tracked {
            assert WatchedArg(cfg, p, ev, i);
            return true;
          }
        }
        i := i + 1;
      }
      return false;
    }

    method ArgTracked(ev: Event, idx: nat) returns (r: bool)
      requires Valid() && idx < 6
      ensures r <==> WatchedArg(cfg, At(Model(), ev.pid).proc, ev, idx)
    {
      if idx >= ev.argCount {
        return false;
      }
      if ev.argTypes[idx] != ARG_FD {
        return false;
      }
      r := FDTracked(ev.pid, Low32(ev.args[idx]));
      TrackedIsWatched(ev.pid, Low32(ev.args[idx]));
    }

    /** The index answers what the reference machine recomputes. */
    lemma TrackedIsWatched(pid: U32, fd: U64)
      requires Valid()
      ensures fd in RecOf(table, pid).Tracked() <==> Watched(cfg, At(Model(), pid).proc, fd)
    {
      SoundTidy(cfg.paths, table);
      if pid in table {
        assert SoundRec(cfg.paths, table[pid]);
      }
    }

    method ShouldPrint(ev: Event) returns (r: bool)
      requires Valid()
      modifies Repr
      ensures Valid() && fresh(Repr - old(Repr))
      ensures var d := Decide(cfg, procfs, At(old(Model()), ev.pid), ev);
              r == d.yes && Model() == Update(old(Model()), ev.pid, d.local)
    {
      ghost var l := At(Model(), ev.pid);
      SoundTidy(cfg.paths, table);
      if !UserAllows(cfg, ev.id) {
        PutLaws(Abs(table), ev.pid, UNKNOWN, UNKNOWN);
        return false;
      }
      ghost var d := MatchArgs(cfg, procfs, l, ev, PathArgs(ev.id));
      PutLaws(Abs(table), ev.pid, d.local.proc, UNKNOWN);
      r := MatchesPath(ev);
      if !r {
        r := HasTrackedFDArg(ev);
      }
    }

    // ---------------------------------------------------------------------
    // Observing

    /** Stores the path and then puts the index right. */
    method StoreFDPath(pid: U32, fd: U64, path: Bytes)
      requires Valid() && path != []
      modifies Repr
      ensures Valid() && fresh(Repr - old(Repr))
      ensures Model() == Update(old(Model()), pid, WithFD(At(old(Model()), pid), fd, path))
    {
      ghost var t := table;
      SoundTidy(cfg.paths, t);
      StoreBecame(cfg.paths, t, pid, fd, path);
      SetFDPath(pid, fd, path);
      SyncTrackedFD(pid, fd, path);
      BecameSound(cfg.paths, t, pid, WithFD(Local(ProcOf(RecOf(t, pid)), lookups), fd, path).proc, table);
    }

    method ObserveOpen(ev: Event, pathArgIndex: nat)
      requires Valid()
      modifies Repr
      ensures Valid() && fresh(Repr - old(Repr))
      ensures Model() == Update(old(Model()), ev.pid, Open(procfs, At(old(Model()), ev.pid), ev, pathArgIndex))
    {
      SoundTidy(cfg.paths, table);
      ghost var l := At(Model(), ev.pid);
      PutLaws(Abs(table), ev.pid, ResolveAt(procfs, l, ev, pathArgIndex).local.proc, Open(procfs, l, ev, pathArgIndex).proc);
      if ev.ret < 0 {
        return;
      }
      var path := ResolvePathAt(ev, pathArgIndex);
      if path == None {
        return;
      }
      ResolvedNonEmpty(procfs, l, ev, pathArgIndex);
      StoreFDPath(ev.pid, ev.ret, path.value);
    }

    method ObserveDupRet(ev: Event)
      requires Valid()
      modifies Repr
      ensures Valid() && fresh(Repr - old(Repr))
      ensures Model() == Update(old(Model()), ev.pid, Dup(At(old(Model()), ev.pid), ev))
    {
      SoundTidy(cfg.paths, table);
      ghost var l := At(Model(), ev.pid);
      PutLaws(Abs(table), ev.pid, Dup(l, ev).proc, UNKNOWN);
      if ev.ret < 0 || 0 >= ev.argCount {
        return;
      }
      var srcFD := Low32(ev.args[0]);
      var path := FDPath(ev.pid, srcFD);
      if path.Some? {
        StoreFDPath(ev.pid, ev.ret, path.value);
      }
      var tracked := ArgTracked(ev, 0);
      if !tracked {
        return;
      }
      TrackAgain(ev.pid, ev.ret);
    }

    /** Tracking an fd whose stored path is wanted: the index had it already. */
    method TrackAgain(pid: U32, fd: U64)
      requires Valid() && Watched(cfg, At(Model(), pid).proc, fd)
      modifies Repr
      ensures Valid() && fresh(Repr - old(Repr)) && Model() == old(Model()) && table == old(table)
    {
      SoundTidy(cfg.paths, table);
      TrackedIsWatched(pid, fd);
      assert SoundRec(cfg.paths, table[pid]);
      ghost var r := RecOf(table, pid);
      assert r.Tracked() + {fd} == r.Tracked();
      assert Track(table, pid, fd) == table;
      TrackFD(pid, fd);
    }

    /** Forgets the path and the index entry of an fd, in either order. */
    method ForgetFD(pid: U32, fd: U64, pathFirst: bool)
      requires Valid()
      modifies Repr
      ensures Valid() && fresh(Repr - old(Repr))
      ensures var l := At(old(Model()), pid);
              Model() == Update(old(Model()), pid, l.(proc := l.proc.(fds := l.proc.fds - {fd})))
    {
      ghost var t := table;
      SoundTidy(cfg.paths, t);
      ForgetBecame(cfg.paths, t, pid, fd);
      if pathFirst {
        UnsetFDPath(pid, fd);
        UntrackFD(pid, fd);
      } else {
        UntrackFD(pid, fd);
        UnsetFDPath(pid, fd);
      }
      ghost var p := ProcOf(RecOf(t, pid));
      BecameSound(cfg.paths, t, pid, p.(fds := p.fds - {fd}), table);
    }

    method ObserveDupPair(ev: Event)
      requires Valid()
      modifies Repr
      ensures Valid() && fresh(Repr - old(Repr))
      ensures Model() == Update(old(Model()), ev.pid, DupPair(At(old(Model()), ev.pid), ev))
    {
      SoundTidy(cfg.paths, table);
      ghost var l := At(Model(), ev.pid);
      PutLaws(Abs(table), ev.pid, DupPair(l, ev).proc, UNKNOWN);
      if ev.argCount < 2 || ev.ret < 0 {
        return;
      }
      var oldfd, newfd := Low32(ev.args[0]), Low32(ev.args[1]);
      var path := FDPath(ev.pid, oldfd);
      if path.Some? {
        StoreFDPath(ev.pid, newfd, path.value);
      } else {
        ForgetFD(ev.pid, newfd, true);
      }
      SoundTidy(cfg.paths, table);
      TrackedIsWatched(ev.pid, oldfd);
      TrackedIsWatched(ev.pid, newfd);
      var tracked := FDTracked(ev.pid, oldfd);
      if tracked {
        TrackAgain(ev.pid, newfd);
        return;
      }
      UntrackAgain(ev.pid, newfd);
    }

    /** Untracking an fd that is not in the index changes nothing. */
    method UntrackAgain(pid: U32, fd: U64)
      requires Valid() && !Watched(cfg, At(Model(), pid).proc, fd)
      modifies Repr
      ensures Valid() && fresh(Repr - old(Repr)) && Model() == old(Model()) && table == old(table)
    {
      TrackedIsWatched(pid, fd);
      assert pid in table ==> SoundRec(cfg.paths, table[pid]);
      ghost var r := RecOf(table, pid);
      assert r.Tracked() - {fd} == r.Tracked();
      assert Untrack(table, pid, fd) == table;
      UntrackFD(pid, fd);
    }

    method ObserveFcntl(ev: Event)
      requires Valid()
      modifies Repr
      ensures Valid() && fresh(Repr - old(Repr))
      ensures Model() == Update(old(Model()), ev.pid, Fcntl(cfg, At(old(Model()), ev.pid), ev))
    {
      SoundTidy(cfg.paths, table);
      ghost var l := At(Model(), ev.pid);
      PutLaws(Abs(table), ev.pid, Fcntl(cfg, l, ev).proc, UNKNOWN);
      if ev.argCount < 2 || ev.ret < 0 {
        return;
      }
      var tracked := ArgTracked(ev, 0);
      if !tracked {
        return;
      }
      var cmd := Signed64(ev.args[1]);
      if cmd != F_DUPFD && cmd != F_DUPFD_CLOEXEC {
        return;
      }
      var path := FDPath(ev.pid, Low32(ev.args[0]));
      if path.Some? {
        StoreFDPath(ev.pid, ev.ret, path.value);
      }
      TrackAgain(ev.pid, ev.ret);
    }

    method ObserveClose(ev: Event)
      requires Valid()
      modifies Repr
      ensures Valid() && fresh(Repr - old(Repr))
      ensures Model() == Update(old(Model()), ev.pid, Close(At(old(Model()), ev.pid), ev))
    {
      SoundTidy(cfg.paths, table);
      PutLaws(Abs(table), ev.pid, UNKNOWN, UNKNOWN);
      if ev.ret < 0 || ev.argCount < 1 {
        return;
      }
      ForgetFD(ev.pid, Low32(ev.args[0]), false);
    }

    method ObserveChdir(ev: Event)
      requires Valid()
      modifies Repr
      ensures Valid() && fresh(Repr - old(Repr))
      ensures Model() == Update(old(Model()), ev.pid, Chdir(procfs, At(old(Model()), ev.pid), ev))
    {
      SoundTidy(cfg.paths, table);
      ghost var l := At(Model(), ev.pid);
      PutLaws(Abs(table), ev.pid, ResolveAt(procfs, l, ev, 0).local.proc, Chdir(procfs, l, ev).proc);
      if ev.ret < 0 {
        return;
      }
      var path := ResolvePathAt(ev, 0);
      if path == None {
        return;
      }
      ResolvedNonEmpty(procfs, l, ev, 0);
      SetCWD(ev.pid, path.value);
    }

    method ObserveFchdir(ev: Event)
      requires Valid()
      modifies Repr
      ensures Valid() && fresh(Repr - old(Repr))
      ensures Model() == Update(old(Model()), ev.pid, Fchdir(At(old(Model()), ev.pid), ev))
    {
      SoundTidy(cfg.paths, table);
      PutLaws(Abs(table), ev.pid, UNKNOWN, UNKNOWN);
      if ev.ret < 0 || ev.argCount < 1 {
        return;
      }
      var path := FDPath(ev.pid, Low32(ev.args[0]));
      if path == None {
        return;
      }
      SetCWD(ev.pid, path.value);
    }

    method ObserveRename(ev: Event, oldIndex: nat, newIndex: nat)
      requires Valid()
      modifies Repr
      ensures Valid() && fresh(Repr - old(Repr))
      ensures Model() == Update(old(Model()), ev.pid, Rename(procfs, At(old(Model()), ev.pid), ev, oldIndex, newIndex))
    {
      SoundTidy(cfg.paths, table);
      ghost var l := At(Model(), ev.pid);
      ghost var l1 := ResolveAt(procfs, l, ev, oldIndex).local;
      ghost var l2 := ResolveAt(procfs, l1, ev, newIndex).local;
      PutLaws(Abs(table), ev.pid, l1.proc, l2.proc);
      PutLaws(Abs(table), ev.pid, l2.proc, Rename(procfs, l, ev, oldIndex, newIndex).proc);
      if ev.ret < 0 {
        return;
      }
      var oldPath := ResolvePathAt(ev, oldIndex);
      if oldPath == None {
        return;
      }
      var newPath := ResolvePathAt(ev, newIndex);
      if newPath == None {
        return;
      }
      RewritePIDPaths(ev.pid, oldPath.value, newPath.value);
    }

    /** The loop may visit the fds in any order. */
    method RewritePIDPaths(pid: U32, oldPath: Bytes, newPath: Bytes)
      requires Valid()
      modifies Repr
      ensures Valid() && fresh(Repr - old(Repr))
      ensures var l := At(old(Model()), pid);
              Model() == Update(old(Model()), pid, l.(proc := RewriteProc(l.proc, oldPath, newPath)))
    {
      hide RewritePathPrefix, Exact, Compact;
      ghost var t, was := table, ProcOf(RecOf(table, pid));
      ghost var goal := RewriteProc(was, oldPath, newPath);
      SoundTidy(cfg.paths, t);
      assert Entry(pid);
      if pid !in stateByPID {
        assert goal == UNKNOWN;
        BecameSound(cfg.paths, t, pid, goal, table);
        return;
      }
      var state := stateByPID[pid];
      assert SoundRec(cfg.paths, t[pid]);
      RewriteCWD(pid, state, oldPath, newPath);
      if state.fdPaths == null {
        assert goal.fds == was.fds;
        BecameSound(cfg.paths, t, pid, goal, table);
        return;
      }
      RewriteLoop(pid, state, oldPath, newPath);
      assert table[pid].FDs() == goal.fds;
      BecameSound(cfg.paths, t, pid, goal, table);
    }

    /** The loop over the stored paths. */
    method RewriteLoop(pid: U32, state: ProcessPathState, oldPath: Bytes, newPath: Bytes)
      requires Separated() && pid in stateByPID && stateByPID[pid] == state && state.fdPaths != null
      requires pid in table && SoundRec(cfg.paths, table[pid])
      modifies Repr
      ensures Separated() && fresh(Repr - old(Repr)) && lookups == old(lookups)
      ensures pid in table && SoundRec(cfg.paths, table[pid]) && table[pid].cwd == old(table[pid].cwd)
      ensures table[pid].FDs() == RewriteFDs(old(table[pid].FDs()), oldPath, newPath)
      ensures forall q :: q != pid ==> (q in table <==> q in old(table)) && (q in table ==> table[q] == old(table)[q])
    {
      hide RewritePathPrefix, Exact, Compact;
      ghost var t := table;
      ghost var was := t[pid].FDs();
      assert Entry(pid);
      var m := state.fdPaths;
      var todo := m.paths.Keys;
      while todo != {}
        invariant Separated() && fresh(Repr - old(Repr)) && lookups == old(lookups)
        invariant pid in stateByPID && stateByPID[pid] == state && state.fdPaths == m
        invariant pid in table && SoundRec(cfg.paths, table[pid]) && table[pid].cwd == t[pid].cwd
        invariant m.paths == table[pid].FDs() && m.paths.Keys == was.Keys && todo <= m.paths.Keys
        invariant forall fd :: fd in m.paths ==>
                    m.paths[fd] == if fd in todo then was[fd] else Moved(was[fd], oldPath, newPath)
        invariant forall q :: q != pid ==> (q in table <==> q in t) && (q in t ==> table[q] == t[q])
        decreases |todo|
      {
        var fd :| fd in todo;
        todo := todo - {fd};
        var path := m.paths[fd];
        var r := RewritePathPrefix(path, oldPath, newPath);
        MovedNonEmpty(path, oldPath, newPath);
        if r.changed {
          RewriteOne(pid, state, fd, r.path);
        }
      }
    }

    /** The rewriting of the working directory. */
    method RewriteCWD(pid: U32, state: ProcessPathState, oldPath: Bytes, newPath: Bytes)
      requires Separated() && pid in stateByPID && stateByPID[pid] == state
      requires pid in table && SoundRec(cfg.paths, table[pid])
      modifies this, state
      ensures Separated() && Repr == old(Repr) && lookups == old(lookups)
      ensures stateByPID == old(stateByPID) && state.fdPaths == old(state.fdPaths)
      ensures table == old(table)[pid := old(table)[pid].(cwd := RewriteProc(ProcOf(old(table)[pid]), oldPath, newPath).cwd)]
      ensures SoundRec(cfg.paths, table[pid]) && table[pid].FDs() == old(table)[pid].FDs()
    {
      assert Entry(pid);
      ghost var r0 := table[pid];
      if state.cwd != [] {
        var r := RewritePathPrefix(state.cwd, oldPath, newPath);
        MovedNonEmpty(state.cwd, oldPath, newPath);
        if r.changed {
          state.cwd := r.path;
          table := table[pid := state.Value()];
        }
      }
      forall p | p != pid ensures Entry(p) {
        assert old(Entry(p));
      }
      assert table[pid].Tracked() == r0.Tracked() && table[pid].FDs() == r0.FDs();
    }

    /** One changed path: stored in the map, then the index put right. */
    method RewriteOne(pid: U32, state: ProcessPathState, fd: U64, path: Bytes)
      requires Separated() && pid in stateByPID && stateByPID[pid] == state && state.fdPaths != null
      requires pid in table && SoundRec(cfg.paths, table[pid]) && fd in state.fdPaths.paths && path != []
      modifies Repr
      ensures Separated() && fresh(Repr - old(Repr)) && lookups == old(lookups)
      ensures stateByPID == old(stateByPID) && state.fdPaths == old(state.fdPaths)
      ensures pid in table && SoundRec(cfg.paths, table[pid]) && table[pid].cwd == old(table[pid].cwd)
      ensures state.fdPaths.paths == old(state.fdPaths.paths)[fd := path] == table[pid].FDs()
      ensures forall q :: q != pid ==> (q in table <==> q in old(table)) && (q in table ==> table[q] == old(table)[q])
    {
      ghost var t := table;
      assert Entry(pid);
      state.fdPaths.paths := state.fdPaths.paths[fd := path];
      table := table[pid := state.Value()];
      forall p | p != pid ensures Entry(p) {
        assert old(Entry(p));
      }
      assert table == SetPath(t, pid, fd, path);
      assert fd in table[pid].FDs();
      SyncTrackedFD(pid, fd, path);
      assert Entry(pid);
      StoreBecame(cfg.paths, t, pid, fd, path);
    }

    method ObserveUnlink(ev: Event, pathIndex: nat)
      requires Valid()
      modifies Repr
      ensures Valid() && fresh(Repr - old(Repr))
      ensures Model() == Update(old(Model()), ev.pid, Unlink(procfs, At(old(Model()), ev.pid), ev, pathIndex))
    {
      SoundTidy(cfg.paths, table);
      ghost var l := At(Model(), ev.pid);
      PutLaws(Abs(table), ev.pid, ResolveAt(procfs, l, ev, pathIndex).local.proc, Unlink(procfs, l, ev, pathIndex).proc);
      if ev.ret < 0 {
        return;
      }
      var path := ResolvePathAt(ev, pathIndex);
      if path == None {
        return;
      }
      DropPIDPaths(ev.pid, path.value);
    }

    /** The record is not dropped before the loop is through, whatever the order. */
    method DropPIDPaths(pid: U32, target: Bytes)
      requires Valid()
      modifies Repr
      ensures Valid() && fresh(Repr - old(Repr))
      ensures var l := At(old(Model()), pid);
              Model() == Update(old(Model()), pid, l.(proc := l.proc.(fds := Without(l.proc.fds, target))))
    {
      ghost var t, was := table, ProcOf(RecOf(table, pid));
      ghost var goal := was.(fds := Without(was.fds, target));
      SoundTidy(cfg.paths, t);
      assert Entry(pid);
      if pid !in stateByPID || stateByPID[pid].fdPaths == null {
        assert goal == was;
        assert pid in t ==> SoundRec(cfg.paths, t[pid]);
        BecameSound(cfg.paths, t, pid, goal, table);
        return;
      }
      var state := stateByPID[pid];
      assert SoundRec(cfg.paths, t[pid]);
      DropLoop(pid, state, target);
      ghost var r := table[pid].(fds := if goal.fds == map[] then None else table[pid].fds);
      assert table[pid := r] == t[pid := r];
      RemovalBecame(cfg.paths, t, pid, target, r);
      NilIfEmpty(pid, state);
      BecameSound(cfg.paths, t, pid, goal, table);
    }

    /** An emptied map becomes nil, and an emptied record is dropped. */
    method NilIfEmpty(pid: U32, state: ProcessPathState)
      requires Separated() && pid in stateByPID && stateByPID[pid] == state && state.fdPaths != null
      modifies this, state
      ensures Separated() && Repr == old(Repr) && lookups == old(lookups)
      ensures var r := RecOf(old(table), pid);
              table == DropIfBlank(old(table)[pid := r.(fds := if r.FDs() == map[] then None else r.fds)], pid)
    {
      assert Entry(pid);
      if |state.fdPaths.paths| == 0 {
        state.fdPaths := null;
      }
      table := table[pid := state.Value()];
      forall p | p != pid ensures Entry(p) {
        assert old(Entry(p));
      }
      MaybeDropPIDState(pid);
    }

    /** The loop over the stored paths; afterwards the map may be empty but present. */
    method DropLoop(pid: U32, state: ProcessPathState, target: Bytes)
      requires Separated() && pid in stateByPID && stateByPID[pid] == state && state.fdPaths != null
      requires pid in table && SoundRec(cfg.paths, table[pid])
      modifies Repr
      ensures Separated() && fresh(Repr - old(Repr)) && lookups == old(lookups)
      ensures pid in stateByPID && stateByPID[pid] == state && state.fdPaths != null
      ensures pid in table && table[pid].cwd == old(table[pid].cwd)
      ensures Exact(cfg.paths, table[pid]) && table[pid].tracked != Some({})
      ensures table[pid].FDs() == Without(old(table[pid].FDs()), target)
      ensures forall q :: q != pid ==> (q in table <==> q in old(table)) && (q in table ==> table[q] == old(table)[q])
    {
      ghost var t := table;
      ghost var was := t[pid].FDs();
      assert Entry(pid);
      var m := state.fdPaths;
      var todo := m.paths.Keys;
      while todo != {}
        invariant Separated() && fresh(Repr - old(Repr)) && lookups == old(lookups)
        invariant pid in stateByPID && stateByPID[pid] == state && state.fdPaths == m
        invariant pid in table && table[pid].cwd == t[pid].cwd
        invariant Exact(cfg.paths, table[pid]) && table[pid].tracked != Some({})
        invariant m.paths == table[pid].FDs()
        invariant m.paths.Keys <= was.Keys && todo <= m.paths.Keys
        invariant forall fd :: fd in was ==> (fd in m.paths <==> fd in todo || was[fd] != target)
        invariant forall fd :: fd in m.paths ==> m.paths[fd] == was[fd]
        invariant forall q :: q != pid ==> (q in table <==> q in t) && (q in t ==> table[q] == t[q])
        decreases |todo|
      {
        var fd :| fd in todo;
        todo := todo - {fd};
        if m.paths[fd] == target {
          DropOne(pid, state, fd);
        }
      }
    }

    /** One matching fd: out of the index, then out of the map. */
    method DropOne(pid: U32, state: ProcessPathState, fd: U64)
      requires Separated() && pid in stateByPID && stateByPID[pid] == state && state.fdPaths != null
      requires pid in table && Exact(cfg.paths, table[pid]) && table[pid].tracked != Some({}) && fd in state.fdPaths.paths
      modifies Repr
      ensures Separated() && fresh(Repr - old(Repr)) && lookups == old(lookups)
      ensures stateByPID == old(stateByPID) && state.fdPaths == old(state.fdPaths)
      ensures pid in table && Exact(cfg.paths, table[pid]) && table[pid].cwd == old(table[pid].cwd) && table[pid].tracked != Some({})
      ensures state.fdPaths.paths == old(state.fdPaths.paths) - {fd} == table[pid].FDs()
      ensures forall q :: q != pid ==> (q in table <==> q in old(table)) && (q in table ==> table[q] == old(table)[q])
    {
      assert Entry(pid);
      assert fd in table[pid].FDs();
      ghost var r := table[pid];
      UntrackFD(pid, fd);
      label Untracked:
      assert Entry(pid);
      state.fdPaths.paths := state.fdPaths.paths - {fd};
      table := table[pid := state.Value()];
      forall p | p != pid ensures Entry(p) {
        assert old@Untracked(Entry(p));
      }
      assert table[pid].Tracked() == r.Tracked() - {fd};
      assert table[pid].FDs() == r.FDs() - {fd};
    }

    // ---------------------------------------------------------------------
    // Forking

    /** The child gets a record of its own, or loses a stale one. */
    method ObserveForkChild(parentPID: U32, childPID: U32)
      requires Valid()
      modifies this
      ensures Valid() && fresh(Repr - old(Repr)) && lookups == old(lookups)
      ensures table == ForkTable(old(table), parentPID, childPID)
      ensures Model().procs == Put(old(Model().procs), childPID, Get(old(Model().procs), parentPID))
    {
      ghost var t := table;
      SoundTidy(cfg.paths, t);
      ForkBecame(cfg.paths, t, parentPID, childPID);
      assert Entry(parentPID) && Entry(childPID);
      var state: ProcessPathState? := null;
      if parentPID in stateByPID {
        assert SoundRec(cfg.paths, t[parentPID]);
        state := CloneProcessPathState(stateByPID[parentPID], childPID);
        assert state != null && state.Value() == t[parentPID];
      }
      ReplaceState(childPID, state);
      BecameSound(cfg.paths, t, childPID, ProcOf(RecOf(t, parentPID)), table);
    }

    /** Removes the record of a process, or makes a new one its record. */
    method ReplaceState(pid: U32, state: ProcessPathState?)
      requires Separated()
      requires state != null ==> state.MadeFor(pid)
      modifies this
      ensures Separated() && lookups == old(lookups)
      ensures Repr <= old(Repr) + ObjectsOf(state)
      ensures table == if state == null then old(table) - {pid} else old(table)[pid := state.Value()]
    {
      assert Entry(pid);
      if state == null {
        stateByPID, table := stateByPID - {pid}, table - {pid};
      } else {
        stateByPID, table := stateByPID[pid := state], table[pid := state.Value()];
        Repr := Repr + ObjectsOf(state);
      }
      forall q | q != pid ensures Entry(q) {
        assert old(Entry(q));
      }
    }

    method ObserveProcessClone(ev: Event)
      requires Valid()
      modifies Repr
      ensures Valid() && fresh(Repr - old(Repr))
      ensures Model() == Fork(old(Model()), ev)
    {
      var childPID := ChildOf(ev);
      if childPID == None {
        return;
      }
      ObserveForkChild(ev.pid, childPID.value);
    }

    // ---------------------------------------------------------------------
    // One event

    method Observe(ev: Event)
      requires Valid()
      modifies Repr
      ensures Valid() && fresh(Repr - old(Repr))
      ensures var w := Fork(old(Model()), ev);
              Model() == Update(w, ev.pid, Effect(cfg, procfs, At(w, ev.pid), ev))
    {
      ObserveProcessClone(ev);
      SoundTidy(cfg.paths, table);
      PutLaws(Abs(table), ev.pid, UNKNOWN, UNKNOWN);
      if ev.id == SYS_OPEN {
        ObserveOpen(ev, 0);
      } else if ev.id == SYS_OPENAT {
        ObserveOpen(ev, 1);
      } else if ev.id == SYS_OPENAT2 {
        ObserveOpen(ev, 1);
      } else if ev.id == SYS_DUP {
        ObserveDupRet(ev);
      } else if ev.id == SYS_DUP2 || ev.id == SYS_DUP3 {
        ObserveDupPair(ev);
      } else if ev.id == SYS_FCNTL {
        ObserveFcntl(ev);
      } else if ev.id == SYS_CLOSE {
        ObserveClose(ev);
      } else if ev.id == SYS_CHDIR {
        ObserveChdir(ev);
      } else if ev.id == SYS_FCHDIR {
        ObserveFchdir(ev);
      } else if ev.id == SYS_RENAME {
        ObserveRename(ev, 0, 1);
      } else if ev.id == SYS_RENAMEAT || ev.id == SYS_RENAMEAT2 {
        ObserveRename(ev, 1, 3);
      } else if ev.id == SYS_UNLINK {
        ObserveUnlink(ev, 0);
      } else if ev.id == SYS_UNLINKAT {
        ObserveUnlink(ev, 1);
      }
    }

    /** The filter's answer and its new state are the reference machine's. */
    method ShouldOutput(ev: Event) returns (r: bool)
      requires Valid()
      modifies Repr
      ensures Valid() && fresh(Repr - old(Repr))
      ensures var o := Step(cfg, procfs, old(Model()), ev);
              r == o.shown && Model() == o.world
    {
      if cfg.paths == {} {
        return true;
      }
      r := ShouldPrint(ev);
      Observe(ev);
    }
  }

  ghost function ObjectsOf(state: ProcessPathState?): set<object>
    reads state
  {
    if state == null then {}
    else
      var tracked: set<object> := if state.trackedFDs == null then {} else {state.trackedFDs};
      var paths: set<object> := if state.fdPaths == null then {} else {state.fdPaths};
      {state} + tracked + paths
  }

  // ---------------------------------------------------------------------
  // Deep copies

  method CloneTrackedFDSet(src: FDSet?, ghost owner: U32) returns (dst: FDSet?)
    ensures if src == null || src.fds == {} then dst == null
            else dst != null && fresh(dst) && dst.owner == owner && dst.fds == src.fds
  {
    if src == null || |src.fds| == 0 {
      return null;
    }
    dst := new FDSet(owner, {});
    var todo := src.fds;
    while todo != {}
      invariant dst != null && fresh(dst) && dst.owner == owner
      invariant todo !! dst.fds && todo + dst.fds == src.fds
      decreases |todo|
    {
      var fd :| fd in todo;
      todo := todo - {fd};
      dst.fds := dst.fds + {fd};
    }
  }

  method CloneFDPaths(src: FDPathMap?, ghost owner: U32) returns (dst: FDPathMap?)
    ensures if src == null || src.paths == map[] then dst == null
            else dst != null && fresh(dst) && dst.owner == owner && dst.paths == src.paths
  {
    if src == null || |src.paths| == 0 {
      return null;
    }
    dst := new FDPathMap(owner, map[]);
    var todo := src.paths.Keys;
    while todo != {}
      invariant dst != null && fresh(dst) && dst.owner == owner
      invariant todo <= src.paths.Keys && dst.paths.Keys == src.paths.Keys - todo
      invariant forall fd :: fd in dst.paths ==> dst.paths[fd] == src.paths[fd]
      decreases |todo|
    {
      var fd :| fd in todo;
      todo := todo - {fd};
      dst.paths := dst.paths[fd := src.paths[fd]];
    }
    assert dst.paths == src.paths;
  }

  /** All the objects of the copy are new. */
  method CloneProcessPathState(src: ProcessPathState, ghost owner: U32) returns (dst: ProcessPathState?)
    ensures if src.Value().Blank() then dst == null
            else
              && dst != null && fresh(dst) && dst.MadeFor(owner)
              && (dst.trackedFDs != null ==> fresh(dst.trackedFDs))
              && (dst.fdPaths != null ==> fresh(dst.fdPaths))
              && dst.Value().cwd == src.Value().cwd
              && dst.Value().tracked == (if src.Value().Tracked() == {} then None else src.Value().tracked)
              && dst.Value().fds == (if src.Value().FDs() == map[] then None else src.Value().fds)
  {
    var trackedFDs := CloneTrackedFDSet(src.trackedFDs, owner);
    var fdPaths := CloneFDPaths(src.fdPaths, owner);
    dst := new ProcessPathState(owner, src.cwd, trackedFDs, fdPaths);
    if dst.cwd == [] && dst.trackedFDs == null && dst.fdPaths == null {
      return null;
    }
  }

  /** The reading loop of a run that prints events. */
  method PrintRun(filter: PathFilter, evs: seq<Event>) returns (printed: seq<Event>)
    requires filter.Valid() && filter.Model() == START
    modifies filter.Repr
    ensures filter.Valid()
    ensures Result(printed, filter.Model()) == Run(filter.cfg, filter.procfs, START, evs)
  {
    hide Step;
    printed := [];
    var i := 0;
    while i < |evs|
      invariant 0 <= i <= |evs|
      invariant filter.Valid() && fresh(filter.Repr - old(filter.Repr))
      invariant var rest := Run(filter.cfg, filter.procfs, filter.Model(), evs[i..]);
                Result(printed + rest.printed, rest.world) == Run(filter.cfg, filter.procfs, START, evs)
    {
      assert evs[i..][1..] == evs[i + 1..];
      var shown := filter.ShouldOutput(evs[i]);
      if shown {
        printed := printed + [evs[i]];
      }
      i := i + 1;
    }
  }
}
