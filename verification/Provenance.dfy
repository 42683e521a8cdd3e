/**
 Where a stored path comes from.  A slot is one fd of one process.  Each event
 has a fate for each slot; a lineage follows a path from the open that named it
 through copies and renames to the slot that holds it now.
 */
module Provenance {
  import opened Base
  import opened Paths
  import opened Events
  import opened FilterSpec

  /** The path stored for fd of pid. */
  function Slot(w: World, pid: U32, fd: U64): Option<Bytes>
  {
    var fds := Get(w.procs, pid).fds;
    if fd in fds then Some(fds[fd]) else None
  }

  datatype Fate =
    | Same
    | Opened(path: Bytes)
    | CopyOf(pid: U32, fd: U64)
    | Renamed(before: Bytes, after: Bytes)
    | Unlinked(target: Bytes)
    | Closed

  /** The world an event's effect applies to: path arguments were compared, a child was made. */
  function Observing(cfg: Config, fs: ProcFS, w: World, ev: Event): World
  {
    Fork(Update(w, ev.pid, Decide(cfg, fs, At(w, ev.pid), ev).local), ev)
  }

  /** What an open of argument i does to the slot fd of its own process. */
  function OpenFate(fs: ProcFS, l: Local, ev: Event, i: nat, fd: U64): Fate
  {
    var path := ResolveAt(fs, l, ev, i).path;
    if ev.ret == fd && path.Some? then Opened(path.value) else Same
  }

  function RenameFate(fs: ProcFS, l: Local, ev: Event, i: nat, j: nat): Fate
  {
    var o := ResolveAt(fs, l, ev, i);
    if ev.ret < 0 || o.path.None? then Same
    else
      var n := ResolveAt(fs, o.local, ev, j).path;
      if n.None? then Same else Renamed(o.path.value, n.value)
  }

  function UnlinkFate(fs: ProcFS, l: Local, ev: Event, i: nat): Fate
  {
    var path := ResolveAt(fs, l, ev, i).path;
    if ev.ret >= 0 && path.Some? then Unlinked(path.value) else Same
  }

  /** What an event does to the slot fd of the process that caused it, in state l. */
  function OwnFate(cfg: Config, fs: ProcFS, l: Local, ev: Event, fd: U64): Fate
  {
    var pid, first, second := ev.pid, Low32(ev.args[0]), Low32(ev.args[1]);
    if ev.id == SYS_OPEN then OpenFate(fs, l, ev, 0, fd)
    else if ev.id == SYS_OPENAT || ev.id == SYS_OPENAT2 then OpenFate(fs, l, ev, 1, fd)
    else if ev.id == SYS_DUP && ev.ret == fd && ev.argCount >= 1 && first in l.proc.fds then CopyOf(pid, first)
    else if (ev.id == SYS_DUP2 || ev.id == SYS_DUP3) && ev.ret >= 0 && ev.argCount >= 2 && fd == second then CopyOf(pid, first)
    else if ev.id == SYS_FCNTL && ev.ret == fd && ev.argCount >= 2 && WatchedArg(cfg, l.proc, ev, 0)
            && Signed64(ev.args[1]) in {F_DUPFD, F_DUPFD_CLOEXEC} then CopyOf(pid, first)
    else if ev.id == SYS_CLOSE && ev.ret >= 0 && ev.argCount >= 1 && fd == first then Closed
    else if ev.id == SYS_RENAME then RenameFate(fs, l, ev, 0, 1)
    else if ev.id == SYS_RENAMEAT || ev.id == SYS_RENAMEAT2 then RenameFate(fs, l, ev, 1, 3)
    else if ev.id == SYS_UNLINK then UnlinkFate(fs, l, ev, 0)
    else if ev.id == SYS_UNLINKAT then UnlinkFate(fs, l, ev, 1)
    else Same
  }

  /** What an event does to the slot fd of process pid. */
  function FateOf(cfg: Config, fs: ProcFS, w: World, ev: Event, pid: U32, fd: U64): Fate
  {
    if cfg.paths == {} then Same
    else if ev.pid == pid then OwnFate(cfg, fs, At(Observing(cfg, fs, w, ev), pid), ev, fd)
    else if ChildOf(ev) == Some(pid) then CopyOf(ev.pid, fd)
    else Same
  }

  function Apply(w: World, fate: Fate, pid: U32, fd: U64): Option<Bytes>
  {
    var here := Slot(w, pid, fd);
    match fate
    case Same => here
    case Opened(path) => Some(path)
    case CopyOf(q, g) => Slot(w, q, g)
    case Renamed(o, n) => if here.None? then None else Some(Moved(here.value, o, n))
    case Unlinked(target) => if here == Some(target) then None else here
    case Closed => None
  }

  // ---------------------------------------------------------------------
  // Every event acts slot by slot

  lemma LookupKeepsFDs(fs: ProcFS, l: Local, ev: Event, i: nat)
    ensures ResolveAt(fs, l, ev, i).local.proc.fds == l.proc.fds
  {
  }

  lemma {:induction false} MatchKeepsFDs(cfg: Config, fs: ProcFS, l: Local, ev: Event, idxs: seq<nat>)
    ensures MatchArgs(cfg, fs, l, ev, idxs).local.proc.fds == l.proc.fds
    decreases |idxs|
  {
    if idxs != [] {
      LookupKeepsFDs(fs, l, ev, idxs[0]);
      MatchKeepsFDs(cfg, fs, ResolveAt(fs, l, ev, idxs[0]).local, ev, idxs[1..]);
    }
  }

  lemma EffectOnSlot(cfg: Config, fs: ProcFS, w: World, ev: Event, fd: U64)
    ensures var l := At(w, ev.pid);
            var fds := Effect(cfg, fs, l, ev).proc.fds;
            Apply(w, OwnFate(cfg, fs, l, ev, fd), ev.pid, fd) == (if fd in fds then Some(fds[fd]) else None)
  {
    hide ResolveAt, RewritePathPrefix;
    var l := At(w, ev.pid);
    LookupKeepsFDs(fs, l, ev, 0);
    LookupKeepsFDs(fs, l, ev, 1);
    LookupKeepsFDs(fs, ResolveAt(fs, l, ev, 0).local, ev, 1);
    LookupKeepsFDs(fs, ResolveAt(fs, l, ev, 1).local, ev, 3);
  }

  /** Deciding touches no slot, and a fork copies the parent's slots. */
  lemma ObservingSlots(cfg: Config, fs: ProcFS, w: World, ev: Event)
    requires Tidy(w.procs)
    ensures var w2 := Observing(cfg, fs, w, ev);
            forall q: U32, g: U64 :: Slot(w2, q, g) == if ChildOf(ev) == Some(q) then Slot(w, ev.pid, g) else Slot(w, q, g)
  {
    hide MatchArgs;
    MatchKeepsFDs(cfg, fs, At(w, ev.pid), ev, PathArgs(ev.id));
  }

  lemma SlotStep(cfg: Config, fs: ProcFS, w: World, ev: Event, pid: U32, fd: U64)
    requires Tidy(w.procs)
    ensures Slot(Step(cfg, fs, w, ev).world, pid, fd) == Apply(w, FateOf(cfg, fs, w, ev, pid, fd), pid, fd)
  {
    hide Effect, OwnFate, Decide, Fork, ChildOf;
    if cfg.paths != {} {
      var w2 := Observing(cfg, fs, w, ev);
      ObservingSlots(cfg, fs, w, ev);
      EffectOnSlot(cfg, fs, w2, ev, fd);
      var fate := OwnFate(cfg, fs, At(w2, ev.pid), ev, fd);
      OwnCopies(cfg, fs, At(w2, ev.pid), ev, fd);
      assert Step(cfg, fs, w, ev).world == Update(w2, ev.pid, Effect(cfg, fs, At(w2, ev.pid), ev));
    }
  }

  /** Copies an event makes for its own process come from that process. */
  lemma OwnCopies(cfg: Config, fs: ProcFS, l: Local, ev: Event, fd: U64)
    ensures var fate := OwnFate(cfg, fs, l, ev, fd); fate.CopyOf? ==> fate.pid == ev.pid
  {
    hide ResolveAt;
  }

  // ---------------------------------------------------------------------
  // Lineages

  /** After event at, the slot held path. */
  datatype Stop = Stop(at: nat, pid: U32, fd: U64, path: Bytes)

  function WorldAt(cfg: Config, fs: ProcFS, evs: seq<Event>, n: nat): World
    requires n <= |evs|
  {
    RunWorld(cfg, fs, START, evs[..n])
  }

  function FateAt(cfg: Config, fs: ProcFS, evs: seq<Event>, k: nat, pid: U32, fd: U64): Fate
    requires k < |evs|
  {
    FateOf(cfg, fs, WorldAt(cfg, fs, evs, k), evs[k], pid, fd)
  }

  /** No event after the stop and before n touches its slot; unlinks of other paths do not. */
  ghost predicate Quiet(cfg: Config, fs: ProcFS, evs: seq<Event>, s: Stop, n: nat)
    requires n <= |evs|
  {
    forall k :: s.at < k < n ==>
      var fate := FateAt(cfg, fs, evs, k, s.pid, s.fd);
      fate == Same || (fate.Unlinked? && fate.target != s.path)
  }

  /** The path of stop s was next copied to, or renamed in, the slot of stop t. */
  ghost predicate Carried(cfg: Config, fs: ProcFS, evs: seq<Event>, s: Stop, t: Stop)
  {
    && s.at < t.at < |evs|
    && Quiet(cfg, fs, evs, s, t.at)
    && var fate := FateAt(cfg, fs, evs, t.at, t.pid, t.fd);
       || (fate == CopyOf(s.pid, s.fd) && t.path == s.path)
       || (fate.Renamed? && t.pid == s.pid && t.fd == s.fd && t.path == Moved(s.path, fate.before, fate.after))
  }

  /** The stops lead from a successful open to the path the slot holds before event n. */
  ghost predicate Lineage(cfg: Config, fs: ProcFS, evs: seq<Event>, n: nat, stops: seq<Stop>, pid: U32, fd: U64, path: Bytes)
    requires n <= |evs|
  {
    && stops != []
    && stops[0].at < |evs|
    && FateAt(cfg, fs, evs, stops[0].at, stops[0].pid, stops[0].fd) == Opened(stops[0].path)
    && (forall i :: 0 < i < |stops| ==> Carried(cfg, fs, evs, stops[i - 1], stops[i]))
    && var last := stops[|stops| - 1];
       last.at < n && last.pid == pid && last.fd == fd && last.path == path && Quiet(cfg, fs, evs, last, n)
  }

  lemma WorldStep(cfg: Config, fs: ProcFS, evs: seq<Event>, n: nat)
    requires n < |evs|
    ensures WorldAt(cfg, fs, evs, n + 1) == Step(cfg, fs, WorldAt(cfg, fs, evs, n), evs[n]).world
  {
    hide Step;
    assert evs[..n + 1] == evs[..n] + [evs[n]];
    RunAppend(cfg, fs, START, evs[..n], [evs[n]]);
    assert [evs[n]][1..] == [];
    var w := WorldAt(cfg, fs, evs, n);
    assert Run(cfg, fs, w, [evs[n]]).world == Step(cfg, fs, w, evs[n]).world;
  }

  lemma {:induction false} WorldTidy(cfg: Config, fs: ProcFS, evs: seq<Event>, n: nat)
    requires n <= |evs|
    ensures Tidy(WorldAt(cfg, fs, evs, n).procs)
  {
    hide Step;
    if n > 0 {
      WorldTidy(cfg, fs, evs, n - 1);
      WorldStep(cfg, fs, evs, n - 1);
      StepTidy(cfg, fs, WorldAt(cfg, fs, evs, n - 1), evs[n - 1]);
    }
  }

  lemma SlotAfter(cfg: Config, fs: ProcFS, evs: seq<Event>, k: nat, pid: U32, fd: U64)
    requires k < |evs|
    ensures Slot(WorldAt(cfg, fs, evs, k + 1), pid, fd) ==
            Apply(WorldAt(cfg, fs, evs, k), FateAt(cfg, fs, evs, k, pid, fd), pid, fd)
  {
    hide Step, FateOf;
    WorldTidy(cfg, fs, evs, k);
    WorldStep(cfg, fs, evs, k);
    SlotStep(cfg, fs, WorldAt(cfg, fs, evs, k), evs[k], pid, fd);
  }

  /** Every stored path has a lineage. */
  lemma {:induction false} StoredHasLineage(cfg: Config, fs: ProcFS, evs: seq<Event>, n: nat, pid: U32, fd: U64)
      returns (stops: seq<Stop>)
    requires n <= |evs| && Slot(WorldAt(cfg, fs, evs, n), pid, fd).Some?
    ensures Lineage(cfg, fs, evs, n, stops, pid, fd, Slot(WorldAt(cfg, fs, evs, n), pid, fd).value)
    decreases n
  {
    hide Step, FateOf, Moved;
    assert evs[..0] == [];
    assert n != 0;
    var k := n - 1;
    var fate := FateAt(cfg, fs, evs, k, pid, fd);
    var path := Slot(WorldAt(cfg, fs, evs, n), pid, fd).value;
    SlotAfter(cfg, fs, evs, k, pid, fd);
    match fate {
      case Same =>
        stops := StoredHasLineage(cfg, fs, evs, k, pid, fd);
      case Unlinked(target) =>
        stops := StoredHasLineage(cfg, fs, evs, k, pid, fd);
      case Opened(_) =>
        stops := [Stop(k, pid, fd, path)];
      case CopyOf(q, g) =>
        var before := StoredHasLineage(cfg, fs, evs, k, q, g);
        stops := before + [Stop(k, pid, fd, path)];
      case Renamed(o, n') =>
        var before := StoredHasLineage(cfg, fs, evs, k, pid, fd);
        stops := before + [Stop(k, pid, fd, path)];
    }
  }

  /** A slot nothing touches keeps its path. */
  lemma {:induction false} QuietKeeps(cfg: Config, fs: ProcFS, evs: seq<Event>, s: Stop, n: nat)
    requires s.at < n <= |evs| && Quiet(cfg, fs, evs, s, n)
    requires Slot(WorldAt(cfg, fs, evs, s.at + 1), s.pid, s.fd) == Some(s.path)
    ensures Slot(WorldAt(cfg, fs, evs, n), s.pid, s.fd) == Some(s.path)
    decreases n
  {
    hide Step, FateOf;
    if n > s.at + 1 {
      assert Quiet(cfg, fs, evs, s, n - 1);
      QuietKeeps(cfg, fs, evs, s, n - 1);
      SlotAfter(cfg, fs, evs, n - 1, s.pid, s.fd);
    }
  }

  lemma {:induction false} StopHolds(cfg: Config, fs: ProcFS, evs: seq<Event>, stops: seq<Stop>, i: nat)
    requires i < |stops| && stops[0].at < |evs|
    requires FateAt(cfg, fs, evs, stops[0].at, stops[0].pid, stops[0].fd) == Opened(stops[0].path)
    requires forall i :: 0 < i < |stops| ==> Carried(cfg, fs, evs, stops[i - 1], stops[i])
    ensures stops[i].at < |evs|
    ensures Slot(WorldAt(cfg, fs, evs, stops[i].at + 1), stops[i].pid, stops[i].fd) == Some(stops[i].path)
    decreases i
  {
    hide Step, FateOf, Moved;
    var t := stops[i];
    if i > 0 {
      var s := stops[i - 1];
      StopHolds(cfg, fs, evs, stops, i - 1);
      assert Carried(cfg, fs, evs, s, t);
      QuietKeeps(cfg, fs, evs, s, t.at);
    }
    SlotAfter(cfg, fs, evs, t.at, t.pid, t.fd);
  }

  /** A slot holds a path exactly if a lineage leads from some open to it. */
  lemma StoredPathsHaveLineages(cfg: Config, fs: ProcFS, evs: seq<Event>, pid: U32, fd: U64, path: Bytes)
    ensures Slot(RunWorld(cfg, fs, START, evs), pid, fd) == Some(path) <==>
            exists stops :: Lineage(cfg, fs, evs, |evs|, stops, pid, fd, path)
  {
    hide Step, FateOf;
    assert evs[..|evs|] == evs;
    if Slot(RunWorld(cfg, fs, START, evs), pid, fd) == Some(path) {
      var stops := StoredHasLineage(cfg, fs, evs, |evs|, pid, fd);
    }
    forall stops | Lineage(cfg, fs, evs, |evs|, stops, pid, fd, path)
      ensures Slot(RunWorld(cfg, fs, START, evs), pid, fd) == Some(path)
    {
      StopHolds(cfg, fs, evs, stops, |stops| - 1);
      QuietKeeps(cfg, fs, evs, stops[|stops| - 1], |evs|);
    }
  }
}
