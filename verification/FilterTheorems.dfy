/** What the path filter keeps over whole runs, proved on the reference machine. */
module FilterTheorems {
  import opened Base
  import opened Paths
  import opened Events
  import opened FilterSpec

  // ---------------------------------------------------------------------
  // Every stored path is absolute and clean

  /** The kernel names working directories by absolute paths. */
  ghost predicate AbsoluteAnswers(fs: ProcFS)
  {
    forall k: nat :: fs(k).Some? ==> IsAbs(fs(k).value)
  }

  ghost predicate CleanProc(p: Proc)
  {
    && (p.cwd != [] ==> CleanAbs(p.cwd))
    && forall fd :: fd in p.fds ==> CleanAbs(p.fds[fd])
  }

  ghost predicate CleanWorld(w: World)
  {
    Tidy(w.procs) && forall pid :: pid in w.procs ==> CleanProc(w.procs[pid])
  }

  lemma ResolveClean(fs: ProcFS, l: Local, ev: Event, argIndex: nat)
    requires AbsoluteAnswers(fs) && CleanProc(l.proc)
    ensures var r := ResolveAt(fs, l, ev, argIndex);
            CleanProc(r.local.proc) && (r.path.Some? ==> CleanAbs(r.path.value))
  {
    var text := EventTracePathAt(ev, argIndex);
    if text.Some? && text.value != [] {
      if fs(l.lookups).Some? {
        CleanAbsOf(fs(l.lookups).value);
      }
      if IsAbs(text.value) {
        CleanAbsOf(text.value);
      } else {
        var base := ResolveBase(fs, l, ev, argIndex);
        if base.path.Some? {
          JoinComps(base.path.value, text.value);
        }
      }
    }
  }

  lemma {:induction false} MatchClean(cfg: Config, fs: ProcFS, l: Local, ev: Event, idxs: seq<nat>)
    requires AbsoluteAnswers(fs) && CleanProc(l.proc)
    ensures CleanProc(MatchArgs(cfg, fs, l, ev, idxs).local.proc)
    decreases |idxs|
  {
    if idxs != [] {
      ResolveClean(fs, l, ev, idxs[0]);
      MatchClean(cfg, fs, ResolveAt(fs, l, ev, idxs[0]).local, ev, idxs[1..]);
    }
  }

  lemma RewriteClean(p: Proc, o: Bytes, n: Bytes)
    requires CleanProc(p) && CleanAbs(o) && CleanAbs(n)
    ensures CleanProc(RewriteProc(p, o, n))
  {
    if p.cwd != [] {
      RewriteIsComponentwise(p.cwd, o, n);
    }
    forall fd | fd in p.fds ensures CleanAbs(RewriteFDs(p.fds, o, n)[fd]) {
      RewriteIsComponentwise(p.fds[fd], o, n);
    }
  }

  lemma RenameClean(fs: ProcFS, l: Local, ev: Event, i: nat, j: nat)
    requires AbsoluteAnswers(fs) && CleanProc(l.proc)
    ensures CleanProc(Rename(fs, l, ev, i, j).proc)
  {
    ResolveClean(fs, l, ev, i);
    var o := ResolveAt(fs, l, ev, i);
    ResolveClean(fs, o.local, ev, j);
    var n := ResolveAt(fs, o.local, ev, j);
    if o.path.Some? && n.path.Some? {
      RewriteClean(n.local.proc, o.path.value, n.path.value);
    }
  }

  lemma EffectClean(cfg: Config, fs: ProcFS, l: Local, ev: Event)
    requires AbsoluteAnswers(fs) && CleanProc(l.proc)
    ensures CleanProc(Effect(cfg, fs, l, ev).proc)
  {
    hide ResolveAt, RewriteProc;
    ResolveClean(fs, l, ev, 0);
    ResolveClean(fs, l, ev, 1);
    RenameClean(fs, l, ev, 0, 1);
    RenameClean(fs, l, ev, 1, 3);
  }

  lemma UpdateClean(w: World, pid: U32, l: Local)
    requires CleanWorld(w) && CleanProc(l.proc)
    ensures CleanWorld(Update(w, pid, l)) && CleanProc(At(w, pid).proc)
  {
    PutLaws(w.procs, pid, l.proc, l.proc);
    assert CleanProc(UNKNOWN);
  }

  lemma StepClean(cfg: Config, fs: ProcFS, w: World, ev: Event)
    requires AbsoluteAnswers(fs) && CleanWorld(w)
    ensures CleanWorld(Step(cfg, fs, w, ev).world)
  {
    hide Effect, MatchArgs;
    var l := At(w, ev.pid);
    UpdateClean(w, ev.pid, Local(UNKNOWN, 0));
    MatchClean(cfg, fs, l, ev, PathArgs(ev.id));
    var d := Decide(cfg, fs, l, ev);
    UpdateClean(w, ev.pid, d.local);
    var w1 := Update(w, ev.pid, d.local);
    UpdateClean(w1, ev.pid, Local(UNKNOWN, 0));
    if ChildOf(ev).Some? {
      UpdateClean(w1, ChildOf(ev).value, At(w1, ev.pid));
    }
    var w2 := Fork(w1, ev);
    assert CleanWorld(w2);
    UpdateClean(w2, ev.pid, Local(UNKNOWN, 0));
    EffectClean(cfg, fs, At(w2, ev.pid), ev);
    UpdateClean(w2, ev.pid, Effect(cfg, fs, At(w2, ev.pid), ev));
  }

  /** In every reachable state every stored path is absolute and clean, and no process is stored for nothing. */
  lemma {:induction false} StoredPathsClean(cfg: Config, fs: ProcFS, w: World, evs: seq<Event>)
    requires AbsoluteAnswers(fs) && CleanWorld(w)
    ensures CleanWorld(RunWorld(cfg, fs, w, evs))
    decreases |evs|
  {
    hide Step;
    if evs != [] {
      StepClean(cfg, fs, w, evs[0]);
      StoredPathsClean(cfg, fs, Step(cfg, fs, w, evs[0]).world, evs[1..]);
    }
  }

  // ---------------------------------------------------------------------
  // Pushing the syscall selection down to the tracer

  const SUPPORT_IDS: seq<I64> := [
    SYS_OPEN, SYS_OPENAT, SYS_CLOSE, SYS_DUP, SYS_DUP2, SYS_DUP3, SYS_FCNTL, SYS_CHDIR, SYS_FCHDIR,
    SYS_RENAME, SYS_RENAMEAT, SYS_RENAMEAT2, SYS_UNLINK, SYS_UNLINKAT, SYS_ACCESS, SYS_STAT, SYS_LSTAT,
    SYS_NEWFSTATAT, SYS_FACCESSAT, SYS_STATX, SYS_OPENAT2, SYS_FACCESSAT2
  ]

  const FORK_IDS: seq<I64> := [SYS_FORK, SYS_VFORK, SYS_CLONE, SYS_CLONE3]

  function Members(ids: seq<I64>): set<I64>
  {
    set id | id in ids
  }

  /** The system calls the tracer has to report. */
  function HandleIDs(cfg: Config): set<I64>
  {
    if cfg.paths == {} || cfg.ids == {} then cfg.ids
    else cfg.ids + Members(SUPPORT_IDS) + (if cfg.followForks then Members(FORK_IDS) else {})
  }

  method HandleTraceSyscallIDs(cfg: Config) returns (ids: set<I64>)
    ensures ids == HandleIDs(cfg)
  {
    if cfg.paths == {} || cfg.ids == {} {
      return cfg.ids;
    }
    ids := cfg.ids;
    for i := 0 to |SUPPORT_IDS|
      invariant ids == cfg.ids + Members(SUPPORT_IDS[..i])
    {
      assert SUPPORT_IDS[..i + 1] == SUPPORT_IDS[..i] + [SUPPORT_IDS[i]];
      ids := ids + {SUPPORT_IDS[i]};
    }
    assert SUPPORT_IDS[..|SUPPORT_IDS|] == SUPPORT_IDS;
    if cfg.followForks {
      ghost var before := ids;
      for i := 0 to |FORK_IDS|
        invariant ids == before + Members(FORK_IDS[..i])
      {
        assert FORK_IDS[..i + 1] == FORK_IDS[..i] + [FORK_IDS[i]];
        ids := ids + {FORK_IDS[i]};
      }
      assert FORK_IDS[..|FORK_IDS|] == FORK_IDS;
    }
  }

  function Kept(keep: Event -> bool, evs: seq<Event>): seq<Event>
  {
    if evs == [] then [] else (if keep(evs[0]) then [evs[0]] else []) + Kept(keep, evs[1..])
  }

  /** The tracer sets the clone flag on fork calls only. */
  ghost predicate CloneFlagsOnForks(evs: seq<Event>)
  {
    forall k :: 0 <= k < |evs| ==> CreatesProcess(evs[k]) ==> evs[k].id in FORK_IDS
  }

  /** An event outside the selection that creates no process is a no-op. */
  lemma SkippedStep(cfg: Config, fs: ProcFS, w: World, ev: Event)
    requires cfg.paths != {} && cfg.ids != {} && Tidy(w.procs)
    requires ev.id !in HandleIDs(cfg) && ChildOf(ev) == None
    ensures Step(cfg, fs, w, ev) == Outcome(false, w)
  {
    PutLaws(w.procs, ev.pid, UNKNOWN, UNKNOWN);
    assert forall id: I64 :: id in SUPPORT_IDS ==> id in Members(SUPPORT_IDS);
    assert SUPPORT_IDS[0] == SYS_OPEN && SUPPORT_IDS[1] == SYS_OPENAT && SUPPORT_IDS[2] == SYS_CLOSE;
    assert SUPPORT_IDS[3] == SYS_DUP && SUPPORT_IDS[4] == SYS_DUP2 && SUPPORT_IDS[5] == SYS_DUP3;
    assert SUPPORT_IDS[6] == SYS_FCNTL && SUPPORT_IDS[7] == SYS_CHDIR && SUPPORT_IDS[8] == SYS_FCHDIR;
    assert SUPPORT_IDS[9] == SYS_RENAME && SUPPORT_IDS[10] == SYS_RENAMEAT && SUPPORT_IDS[11] == SYS_RENAMEAT2;
    assert SUPPORT_IDS[12] == SYS_UNLINK && SUPPORT_IDS[13] == SYS_UNLINKAT && SUPPORT_IDS[20] == SYS_OPENAT2;
    assert !UserAllows(cfg, ev.id);
    assert Effect(cfg, fs, At(w, ev.pid), ev) == At(w, ev.pid);
  }

  /** Dropping events that are not needed and create no process changes nothing. */
  lemma {:induction false} DroppingIsLossless(cfg: Config, fs: ProcFS, w: World, evs: seq<Event>, keep: Event -> bool)
    requires cfg.paths != {} && cfg.ids != {} && Tidy(w.procs)
    requires forall k :: 0 <= k < |evs| ==> keep(evs[k]) || (evs[k].id !in HandleIDs(cfg) && ChildOf(evs[k]) == None)
    ensures Run(cfg, fs, w, Kept(keep, evs)) == Run(cfg, fs, w, evs)
    decreases |evs|
  {
    hide Step;
    if evs != [] {
      var ev, rest := evs[0], evs[1..];
      assert forall k :: 0 <= k < |rest| ==> rest[k] == evs[k + 1];
      StepTidy(cfg, fs, w, ev);
      DroppingIsLossless(cfg, fs, Step(cfg, fs, w, ev).world, rest, keep);
      if keep(ev) {
        assert Kept(keep, evs) == [ev] + Kept(keep, rest);
        assert Kept(keep, evs)[1..] == Kept(keep, rest);
      } else {
        SkippedStep(cfg, fs, w, ev);
        assert Kept(keep, evs) == Kept(keep, rest);
      }
    }
  }

  /**
   Dropping events outside the selection before the filter sees them changes
   neither what is printed nor the final state, if forks are followed or there
   are none.
   */
  lemma LosslessPushdown(cfg: Config, fs: ProcFS, w: World, evs: seq<Event>, keep: Event -> bool)
    requires cfg.paths != {} && cfg.ids != {} && Tidy(w.procs)
    requires forall k :: 0 <= k < |evs| ==> evs[k].id in HandleIDs(cfg) ==> keep(evs[k])
    requires CloneFlagsOnForks(evs)
    requires cfg.followForks || forall k :: 0 <= k < |evs| ==> !CreatesProcess(evs[k])
    ensures Run(cfg, fs, w, Kept(keep, evs)) == Run(cfg, fs, w, evs)
  {
    forall k | 0 <= k < |evs|
      ensures keep(evs[k]) || (evs[k].id !in HandleIDs(cfg) && ChildOf(evs[k]) == None)
    {
      assert CreatesProcess(evs[k]) ==> evs[k].id in Members(FORK_IDS);
    }
    DroppingIsLossless(cfg, fs, w, evs, keep);
  }

  /** The tracer's selection as a predicate on events. */
  function Selected(cfg: Config): Event -> bool
  {
    (ev: Event) => ev.id in HandleIDs(cfg)
  }

  /**
   Pushing down is lossless, for what is printed and for the state, from every state
   and for all event sequences with clone flags on fork calls only.
   */
  ghost predicate PushdownLossless(cfg: Config, fs: ProcFS)
  {
    forall w: World, evs: seq<Event> | Tidy(w.procs) && CloneFlagsOnForks(evs) ::
      Run(cfg, fs, w, Kept(Selected(cfg), evs)) == Run(cfg, fs, w, evs)
  }

  /** A successful fork of process 1 that made process 2. */
  function ForkEvent(id: I64): Event
  {
    Event(0, 0, id, 2, seq(6, _ => 0), seq(6, _ => NO_DESC), seq(512, _ => 0), 1, 1, 1, 0, 0, 0,
          seq(6, _ => ARG_NONE), EVENT_FLAG_PROCESS_CLONE)
  }

  /** Process 1 works in the root directory. */
  const KNOWN_PARENT := World(map[1 := Proc([SLASH], map[])], 0)

  /**
   Without -f and with a fork call left out of -e, the directory the child inherits is
   known if all events are seen, and unknown after the selection.
   */
  lemma UnselectedForkIsLost(cfg: Config, fs: ProcFS, id: I64)
    requires cfg.paths != {} && cfg.ids != {} && !cfg.followForks && id in FORK_IDS && id !in cfg.ids
    ensures var evs := [ForkEvent(id)];
            && CloneFlagsOnForks(evs) && Tidy(KNOWN_PARENT.procs)
            && Get(RunWorld(cfg, fs, KNOWN_PARENT, evs).procs, 2).cwd == [SLASH]
            && Get(RunWorld(cfg, fs, KNOWN_PARENT, Kept(Selected(cfg), evs)).procs, 2) == UNKNOWN
    ensures !PushdownLossless(cfg, fs)
  {
    hide Step;
    var ev := ForkEvent(id);
    assert ChildOf(ev) == Some(2) && ev.pid == 1;
    ForkedChild(cfg, fs, KNOWN_PARENT, ev);
    OneEventRun(cfg, fs, KNOWN_PARENT, ev);
    NotKept(cfg, ev);
  }

  lemma OneEventRun(cfg: Config, fs: ProcFS, w: World, ev: Event)
    ensures RunWorld(cfg, fs, w, [ev]) == Step(cfg, fs, w, ev).world
    ensures RunWorld(cfg, fs, w, []) == w
  {
    hide Step;
    assert [ev][1..] == [];
    assert Run(cfg, fs, Step(cfg, fs, w, ev).world, []) == Result([], Step(cfg, fs, w, ev).world);
  }

  lemma NotKept(cfg: Config, ev: Event)
    requires !cfg.followForks && ev.id in FORK_IDS && ev.id !in cfg.ids
    ensures Kept(Selected(cfg), [ev]) == []
  {
    hide ForkEvent;
    assert ev.id !in Members(SUPPORT_IDS);
    assert [ev][1..] == [];
  }

  /** Pushing down is lossless exactly if forks are followed or selected. */
  lemma PushdownExactly(cfg: Config, fs: ProcFS)
    requires cfg.paths != {} && cfg.ids != {}
    ensures PushdownLossless(cfg, fs) <==> cfg.followForks || forall id: I64 :: id in FORK_IDS ==> id in cfg.ids
  {
    if cfg.followForks || forall id: I64 :: id in FORK_IDS ==> id in cfg.ids {
      assert forall id: I64 :: id in FORK_IDS ==> id in Members(FORK_IDS);
      forall w: World, evs: seq<Event> | Tidy(w.procs) && CloneFlagsOnForks(evs)
        ensures Run(cfg, fs, w, Kept(Selected(cfg), evs)) == Run(cfg, fs, w, evs)
      {
        DroppingIsLossless(cfg, fs, w, evs, Selected(cfg));
      }
    } else {
      var id: I64 :| id in FORK_IDS && id !in cfg.ids;
      UnselectedForkIsLost(cfg, fs, id);
    }
  }

  // ---------------------------------------------------------------------
  // Forks copy, and then processes are independent

  /** The child of a fork call starts with what was known about the parent; nobody else changes. */
  lemma ForkedChild(cfg: Config, fs: ProcFS, w: World, ev: Event)
    requires cfg.paths != {} && Tidy(w.procs) && ev.id in FORK_IDS && ChildOf(ev).Some?
    ensures var w' := Step(cfg, fs, w, ev).world;
            && Get(w'.procs, ChildOf(ev).value) == Get(w.procs, ev.pid)
            && w'.lookups == w.lookups
            && forall q :: q != ChildOf(ev).value ==> Get(w'.procs, q) == Get(w.procs, q)
  {
    PutLaws(w.procs, ev.pid, UNKNOWN, UNKNOWN);
    var l := At(w, ev.pid);
    assert PathArgs(ev.id) == [];
    assert Decide(cfg, fs, l, ev).local == l;
    var w2 := Fork(w, ev);
    assert Update(w, ev.pid, l) == w;
    assert Effect(cfg, fs, At(w2, ev.pid), ev) == At(w2, ev.pid);
    PutLaws(w2.procs, ev.pid, UNKNOWN, UNKNOWN);
    assert Step(cfg, fs, w, ev).world == w2;
  }

  /** Every event is by process pid and creates none. */
  ghost predicate OnlyBy(pid: U32, evs: seq<Event>)
  {
    forall k :: 0 <= k < |evs| ==> evs[k].pid == pid && ChildOf(evs[k]) == None
  }

  lemma {:induction false} OthersUntouched(cfg: Config, fs: ProcFS, w: World, pid: U32, q: U32, evs: seq<Event>)
    requires OnlyBy(pid, evs) && q != pid
    ensures Get(RunWorld(cfg, fs, w, evs).procs, q) == Get(w.procs, q)
    decreases |evs|
  {
    hide Decide, Effect;
    if evs != [] {
      assert forall k :: 0 <= k < |evs[1..]| ==> evs[1..][k] == evs[k + 1];
      OthersUntouched(cfg, fs, Step(cfg, fs, w, evs[0]).world, pid, q, evs[1..]);
    }
  }

  /** After a fork, whatever either side does, the other still has what it had at the fork. */
  lemma ForkIsolation(cfg: Config, fs: ProcFS, w: World, ev: Event, evs: seq<Event>, actor: U32, other: U32)
    requires cfg.paths != {} && Tidy(w.procs) && ev.id in FORK_IDS && ChildOf(ev).Some?
    requires {actor, other} == {ev.pid, ChildOf(ev).value} && actor != other && OnlyBy(actor, evs)
    ensures Get(RunWorld(cfg, fs, w, [ev] + evs).procs, other) == Get(w.procs, ev.pid)
  {
    hide Step;
    ForkedChild(cfg, fs, w, ev);
    var w' := Step(cfg, fs, w, ev).world;
    assert ([ev] + evs)[1..] == evs;
    OthersUntouched(cfg, fs, w', actor, other, evs);
    assert other in {ev.pid, ChildOf(ev).value};
  }

  // ---------------------------------------------------------------------
  // Resolution composes

  /** A path-taking event of process pid whose text for argument i is p. */
  ghost predicate Names(ev: Event, pid: U32, i: nat, p: Bytes)
  {
    ev.pid == pid && EventTracePathAt(ev, i) == Some(p)
  }

  /** Argument i of ev is relative to the working directory, or to fd of the process. */
  ghost predicate RelativeTo(ev: Event, i: nat, fd: Option<U32>)
  {
    match PathBaseFDArgIndex(ev.id, i)
    case None => fd == None
    case Some(dir) =>
      dir < ev.argCount &&
      if SignedLow32(ev.args[dir]) == AT_FDCWD then fd == None else fd == Some(Low32(ev.args[dir]))
  }

  /** The path ev's argument i stands for in process state l. */
  function Meaning(fs: ProcFS, l: Local, ev: Event, i: nat): Option<Bytes>
  {
    ResolveAt(fs, l, ev, i).path
  }

  /** A successful open of path p, named relative to the working directory or absolutely. */
  ghost predicate Opens(ev: Event, pid: U32, p: Bytes)
  {
    && ev.id in {SYS_OPEN, SYS_OPENAT, SYS_OPENAT2} && ev.ret >= 0
    && Names(ev, pid, PathArgs(ev.id)[0], p)
    && (IsAbs(p) || RelativeTo(ev, PathArgs(ev.id)[0], None))
  }

  /**
   From a known working directory, naming q after chdir(p), or relative to the
   directory fd that opening p returned, or after fchdir to that fd, is naming p/q
   at first.  An fd argument is read as 32 bits: had the open returned more, the fd
   would stand for what its low half stood for before.
   */
  lemma NamingComposes(cfg: Config, fs: ProcFS, l: Local, pid: U32, p: Bytes, q: Bytes,
                       chdir: Event, open: Event, fchdir: Event,
                       relative: Event, i: nat, atFD: Event, j: nat, direct: Event, k: nat)
    requires CleanAbs(l.proc.cwd) && p != [] && q != [] && !IsAbs(q)
    requires Names(chdir, pid, 0, p) && chdir.id == SYS_CHDIR && chdir.ret >= 0
    requires Opens(open, pid, p)
    requires fchdir.id == SYS_FCHDIR && fchdir.ret >= 0 && fchdir.argCount >= 1 && Low32(fchdir.args[0]) == Low32(open.ret)
    requires Names(relative, pid, i, q) && RelativeTo(relative, i, None)
    requires Names(atFD, pid, j, q) && RelativeTo(atFD, j, Some(Low32(open.ret)))
    requires Names(direct, pid, k, p + [SLASH] + q) && RelativeTo(direct, k, None)
    ensures var whole := Meaning(fs, l, direct, k);
            var after := Effect(cfg, fs, l, open);
            && whole == Some(Resolved(Resolved(l.proc.cwd, p), q))
            && Meaning(fs, Effect(cfg, fs, l, chdir), relative, i) == whole
            && Meaning(fs, after, atFD, j) == (if open.ret < TWO_32 then whole else Meaning(fs, l, atFD, j))
            && Meaning(fs, Effect(cfg, fs, after, fchdir), relative, i) ==
               (if open.ret < TWO_32 then whole else Meaning(fs, Effect(cfg, fs, l, fchdir), relative, i))
  {
    hide Clean, Join, CleanAbs, Meaning, Effect, Resolved, RelativeTo, Names;
    ResolutionComposes(l.proc.cwd, p, q);
    var dir := Resolved(l.proc.cwd, p);
    NotEmpty(l.proc.cwd);
    NotEmpty(dir);
    OpenStores(cfg, fs, l, open, pid, p);
    ChdirMoves(cfg, fs, l, chdir, pid, p);
    var after := Effect(cfg, fs, l, open);
    FchdirMoves(cfg, fs, l, fchdir);
    FchdirMoves(cfg, fs, after, fchdir);
    FromDirectory(fs, l, direct, pid, k, p + [SLASH] + q);
    FromDirectory(fs, Effect(cfg, fs, l, chdir), relative, pid, i, q);
    FromFD(fs, l, atFD, pid, j, Low32(open.ret), q);
    FromFD(fs, after, atFD, pid, j, Low32(open.ret), q);
    FromDirectory(fs, Effect(cfg, fs, after, fchdir), relative, pid, i, q);
    SameDirectory(fs, Effect(cfg, fs, after, fchdir), Effect(cfg, fs, l, fchdir), relative, pid, i, q);
  }

  lemma SameDirectory(fs: ProcFS, l: Local, l': Local, ev: Event, pid: U32, i: nat, text: Bytes)
    requires Names(ev, pid, i, text) && RelativeTo(ev, i, None)
    ensures l.proc.cwd == l'.proc.cwd && l.lookups == l'.lookups ==> Meaning(fs, l, ev, i) == Meaning(fs, l', ev, i)
  {
    hide Clean, Join;
  }

  /** What a text means relative to a known working directory. */
  lemma FromDirectory(fs: ProcFS, l: Local, ev: Event, pid: U32, i: nat, text: Bytes)
    requires text != [] && Names(ev, pid, i, text) && RelativeTo(ev, i, None)
    ensures l.proc.cwd != [] ==> Meaning(fs, l, ev, i) == Some(Resolved(l.proc.cwd, text))
  {
    hide Clean, Join;
  }

  /** What a relative text means at a directory fd. */
  lemma FromFD(fs: ProcFS, l: Local, ev: Event, pid: U32, i: nat, fd: U32, text: Bytes)
    requires text != [] && !IsAbs(text) && Names(ev, pid, i, text) && RelativeTo(ev, i, Some(fd))
    ensures Meaning(fs, l, ev, i) == if fd in l.proc.fds then Some(Resolved(l.proc.fds[fd], text)) else None
  {
    hide Clean, Join;
  }

  lemma FchdirMoves(cfg: Config, fs: ProcFS, l: Local, fchdir: Event)
    requires fchdir.id == SYS_FCHDIR && fchdir.ret >= 0 && fchdir.argCount >= 1
    ensures var fd := Low32(fchdir.args[0]);
            Effect(cfg, fs, l, fchdir) == if fd in l.proc.fds then l.(proc := l.proc.(cwd := l.proc.fds[fd])) else l
  {
  }

  lemma NotEmpty(p: Bytes)
    requires CleanAbs(p)
    ensures p != []
  {
  }

  lemma OpenStores(cfg: Config, fs: ProcFS, l: Local, open: Event, pid: U32, p: Bytes)
    requires l.proc.cwd != [] && p != [] && Opens(open, pid, p)
    ensures Effect(cfg, fs, l, open) == WithFD(l, open.ret, Resolved(l.proc.cwd, p))
  {
    hide Clean, Join;
  }

  lemma ChdirMoves(cfg: Config, fs: ProcFS, l: Local, chdir: Event, pid: U32, p: Bytes)
    requires l.proc.cwd != [] && p != [] && Names(chdir, pid, 0, p) && chdir.id == SYS_CHDIR && chdir.ret >= 0
    ensures Effect(cfg, fs, l, chdir) == l.(proc := l.proc.(cwd := Resolved(l.proc.cwd, p)))
  {
    hide Clean, Join;
  }

  // ---------------------------------------------------------------------
  // Renaming there and back

  /** Nothing the process knows lies at or below b. */
  ghost predicate NothingBelow(p: Proc, b: Bytes)
  {
    && (p.cwd != [] ==> !AtOrBelow(p.cwd, b))
    && forall fd :: fd in p.fds ==> !AtOrBelow(p.fds[fd], b)
  }

  lemma RewriteProcThereAndBack(p: Proc, a: Bytes, b: Bytes)
    requires CleanProc(p) && CleanAbs(a) && CleanAbs(b) && Comps(a) != [] && Comps(b) != [] && NothingBelow(p, b)
    ensures RewriteProc(RewriteProc(p, a, b), b, a) == p
  {
    hide RewritePathPrefix;
    if p.cwd != [] {
      MovedThereAndBack(p.cwd, a, b);
    }
    forall fd | fd in p.fds ensures Moved(Moved(p.fds[fd], a, b), b, a) == p.fds[fd] {
      MovedThereAndBack(p.fds[fd], a, b);
    }
    assert RewriteFDs(RewriteFDs(p.fds, a, b), b, a) == p.fds;
  }

  lemma MovedThereAndBack(s: Bytes, a: Bytes, b: Bytes)
    requires CleanAbs(s) && CleanAbs(a) && CleanAbs(b) && Comps(a) != [] && Comps(b) != [] && !AtOrBelow(s, b)
    ensures Moved(s, a, b) != [] && Moved(Moved(s, a, b), b, a) == s
  {
    hide RewritePathPrefix;
    RewriteThereAndBack(s, a, b);
    RewriteIsComponentwise(s, a, b);
    RewriteIsComponentwise(Moved(s, a, b), b, a);
  }

  predicate IsRename(id: I64)
  {
    id in {SYS_RENAME, SYS_RENAMEAT, SYS_RENAMEAT2}
  }

  /** A successful rename, by any of the three calls, with texts a and b, that creates no process. */
  ghost predicate Renames(ev: Event, a: Bytes, b: Bytes)
  {
    && IsRename(ev.id) && ev.ret >= 0 && ChildOf(ev) == None
    && EventTracePathAt(ev, PathArgs(ev.id)[0]) == Some(a) && EventTracePathAt(ev, PathArgs(ev.id)[1]) == Some(b)
  }

  /** Two rename calls that undo each other leave the world as it was. */
  lemma RenameCallsThereAndBack(cfg: Config, fs: ProcFS, w: World, there: Event, back: Event, a: Bytes, b: Bytes)
    requires cfg.paths != {} && CleanWorld(w) && there.pid == back.pid
    requires Renames(there, a, b) && Renames(back, b, a)
    requires IsAbs(a) && IsAbs(b) && Clean(a) != [SLASH] && Clean(b) != [SLASH]
    requires NothingBelow(Get(w.procs, there.pid), Clean(b))
    ensures RunWorld(cfg, fs, w, [there, back]) == w
  {
    hide Clean, Step, RewriteProc;
    var pid, l := there.pid, At(w, there.pid);
    UpdateClean(w, pid, l);
    var l1 := l.(proc := RewriteProc(l.proc, Clean(a), Clean(b)));
    var w1 := Update(w, pid, l1);
    CleanAbsOf(a);
    CleanAbsOf(b);
    RenderNothing(Clean(a));
    RenderNothing(Clean(b));
    RewriteProcThereAndBack(l.proc, Clean(a), Clean(b));
    PutLaws(w.procs, pid, l1.proc, l.proc);
    AbsoluteRename(cfg, fs, w, there, a, b);
    AbsoluteRename(cfg, fs, w1, back, b, a);
    assert [there, back][1..] == [back];
    OneEventRun(cfg, fs, w1, back);
    assert Run(cfg, fs, w, [there, back]).world == RunWorld(cfg, fs, w1, [back]);
  }

  /** A rename call with absolute texts does nothing but rewrite what is known about its process. */
  lemma AbsoluteRename(cfg: Config, fs: ProcFS, w: World, ev: Event, a: Bytes, b: Bytes)
    requires cfg.paths != {} && Tidy(w.procs) && Renames(ev, a, b) && IsAbs(a) && IsAbs(b)
    ensures var l := At(w, ev.pid);
            Step(cfg, fs, w, ev).world == Update(w, ev.pid, l.(proc := RewriteProc(l.proc, Clean(a), Clean(b))))
  {
    hide Clean, RewriteProc;
    var l, i, j := At(w, ev.pid), PathArgs(ev.id)[0], PathArgs(ev.id)[1];
    PutLaws(w.procs, ev.pid, UNKNOWN, UNKNOWN);
    assert PathArgs(ev.id) == [i, j];
    MatchUnfolds(cfg, fs, l, ev, i, j);
    MatchUnfolds(cfg, fs, l, ev, j, j);
    assert Decide(cfg, fs, l, ev).local == l;
  }
}
