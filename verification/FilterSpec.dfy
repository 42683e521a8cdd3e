/**
 The path filter as a reference machine.  A process has a working directory (empty
 when unknown) and a map from its fds to paths, and nothing else: which fds matter
 is recomputed from the paths at every event.  Processes about which nothing is
 known are not in the table.
 */
module FilterSpec {
  import opened Base
  import opened Paths
  import opened Events

  /** -P paths, -e system calls and -f of the command line. */
  datatype Config = Config(paths: set<Bytes>, ids: set<I64>, followForks: bool)

  /** The answer to the k-th look at /proc/PID/cwd, or nothing if it failed. */
  type ProcFS = nat -> Option<Bytes>

  datatype Proc = Proc(cwd: Bytes, fds: map<U64, Bytes>)

  type Procs = map<U32, Proc>

  const UNKNOWN := Proc([], map[])

  function Get(procs: Procs, pid: U32): Proc
  {
    if pid in procs then procs[pid] else UNKNOWN
  }

  function Put(procs: Procs, pid: U32, p: Proc): Procs
  {
    if p == UNKNOWN then procs - {pid} else procs[pid := p]
  }

  datatype World = World(procs: Procs, lookups: nat)

  const START := World(map[], 0)

  /** One process and the number of looks at /proc so far. */
  datatype Local = Local(proc: Proc, lookups: nat)

  function At(w: World, pid: U32): Local
  {
    Local(Get(w.procs, pid), w.lookups)
  }

  /** Process pid became l; nobody else changed. */
  function Update(w: World, pid: U32, l: Local): World
  {
    World(Put(w.procs, pid, l.proc), l.lookups)
  }

  datatype Resolution = Resolution(path: Option<Bytes>, local: Local)

  // ---------------------------------------------------------------------
  // Resolving a path argument

  /** The working directory, looked up and remembered if it is not known yet. */
  function CwdOf(fs: ProcFS, l: Local): Resolution
  {
    if l.proc.cwd != [] then Resolution(Some(l.proc.cwd), l)
    else match fs(l.lookups)
      case None => Resolution(None, l.(lookups := l.lookups + 1))
      case Some(answer) =>
        var cwd := Clean(answer);
        Resolution(Some(cwd), Local(l.proc.(cwd := cwd), l.lookups + 1))
  }

  /** Which argument holds the directory fd a path argument is relative to. */
  function PathBaseFDArgIndex(id: I64, argIndex: nat): Option<nat>
  {
    if id in {SYS_OPENAT, SYS_OPENAT2, SYS_UNLINKAT, SYS_NEWFSTATAT, SYS_FACCESSAT, SYS_STATX, SYS_FACCESSAT2} then
      if argIndex == 1 then Some(0) else None
    else if id in {SYS_RENAMEAT, SYS_RENAMEAT2} then
      if argIndex == 1 then Some(0) else if argIndex == 3 then Some(2) else None
    else None
  }

  function ResolveBase(fs: ProcFS, l: Local, ev: Event, argIndex: nat): Resolution
  {
    match PathBaseFDArgIndex(ev.id, argIndex)
    case None => CwdOf(fs, l)
    case Some(dir) =>
      if dir >= ev.argCount then Resolution(None, l)
      else if SignedLow32(ev.args[dir]) == AT_FDCWD then CwdOf(fs, l)
      else
        var fd := Low32(ev.args[dir]);
        Resolution(if fd in l.proc.fds then Some(l.proc.fds[fd]) else None, l)
  }

  function ResolveText(fs: ProcFS, l: Local, ev: Event, argIndex: nat, text: Bytes): Resolution
  {
    if text == [] then Resolution(None, l)
    else if IsAbs(text) then Resolution(Some(Clean(text)), l)
    else
      var base := ResolveBase(fs, l, ev, argIndex);
      match base.path
      case None => base
      case Some(dir) => base.(path := Some(Clean(Join(dir, text))))
  }

  function ResolveAt(fs: ProcFS, l: Local, ev: Event, argIndex: nat): Resolution
  {
    match EventTracePathAt(ev, argIndex)
    case None => Resolution(None, l)
    case Some(text) => ResolveText(fs, l, ev, argIndex, text)
  }

  lemma ResolvedNonEmpty(fs: ProcFS, l: Local, ev: Event, argIndex: nat)
    ensures ResolveAt(fs, l, ev, argIndex).path != Some([])
  {
    var text := EventTracePathAt(ev, argIndex);
    if text.Some? {
      CleanIdempotent(text.value);
      var base := ResolveBase(fs, l, ev, argIndex);
      if base.path.Some? {
        CleanIdempotent(Join(base.path.value, text.value));
      }
    }
  }

  // ---------------------------------------------------------------------
  // Deciding

  datatype Decision = Decision(yes: bool, local: Local)

  /** The path arguments compared with the -P set, in order. */
  function PathArgs(id: I64): seq<nat>
  {
    if id in {SYS_OPEN, SYS_ACCESS, SYS_STAT, SYS_LSTAT, SYS_CHDIR, SYS_UNLINK} then [0]
    else if id in {SYS_OPENAT, SYS_OPENAT2, SYS_NEWFSTATAT, SYS_FACCESSAT, SYS_STATX, SYS_FACCESSAT2, SYS_UNLINKAT} then [1]
    else if id == SYS_RENAME then [0, 1]
    else if id in {SYS_RENAMEAT, SYS_RENAMEAT2} then [1, 3]
    else []
  }

  /** Compares path arguments until one matches; later ones are not even resolved. */
  function MatchArgs(cfg: Config, fs: ProcFS, l: Local, ev: Event, idxs: seq<nat>): Decision
    decreases |idxs|
  {
    if idxs == [] then Decision(false, l)
    else
      var r := ResolveAt(fs, l, ev, idxs[0]);
      if r.path.Some? && r.path.value in cfg.paths then Decision(true, r.local)
      else MatchArgs(cfg, fs, r.local, ev, idxs[1..])
  }

  /** One argument; and two, the second only if the first does not match. */
  lemma MatchUnfolds(cfg: Config, fs: ProcFS, l: Local, ev: Event, i: nat, j: nat)
    ensures var r := ResolveAt(fs, l, ev, i);
            var hit := r.path.Some? && r.path.value in cfg.paths;
            && MatchArgs(cfg, fs, l, ev, [i]) == Decision(hit, r.local)
            && MatchArgs(cfg, fs, l, ev, [i, j]) ==
               (if hit then Decision(true, r.local) else MatchArgs(cfg, fs, r.local, ev, [j]))
  {
    assert [i][1..] == [];
    assert [i, j][1..] == [j];
  }

  /** The fd has a stored path, and it is one of the -P paths. */
  predicate Watched(cfg: Config, p: Proc, fd: U64)
  {
    fd in p.fds && p.fds[fd] in cfg.paths
  }

  /** Argument i is tagged as an fd, and that fd is watched. */
  predicate WatchedArg(cfg: Config, p: Proc, ev: Event, i: nat)
  {
    i < ev.argCount && i < 6 && ev.argTypes[i] == ARG_FD && Watched(cfg, p, Low32(ev.args[i]))
  }

  predicate HasWatchedArg(cfg: Config, p: Proc, ev: Event)
  {
    exists i :: 0 <= i < 6 && WatchedArg(cfg, p, ev, i)
  }

  predicate UserAllows(cfg: Config, id: I64)
  {
    cfg.ids == {} || id in cfg.ids
  }

  function Decide(cfg: Config, fs: ProcFS, l: Local, ev: Event): Decision
  {
    if !UserAllows(cfg, ev.id) then Decision(false, l)
    else
      var d := MatchArgs(cfg, fs, l, ev, PathArgs(ev.id));
      if d.yes then d
      else d.(yes := HasWatchedArg(cfg, d.local.proc, ev))
  }

  // ---------------------------------------------------------------------
  // Observing

  function WithFD(l: Local, fd: U64, path: Bytes): Local
  {
    l.(proc := l.proc.(fds := l.proc.fds[fd := path]))
  }

  function Open(fs: ProcFS, l: Local, ev: Event, argIndex: nat): Local
  {
    if ev.ret < 0 then l
    else
      var r := ResolveAt(fs, l, ev, argIndex);
      if r.path.None? then r.local else WithFD(r.local, ev.ret, r.path.value)
  }

  function Dup(l: Local, ev: Event): Local
  {
    var src := Low32(ev.args[0]);
    if ev.ret < 0 || ev.argCount < 1 || src !in l.proc.fds then l
    else WithFD(l, ev.ret, l.proc.fds[src])
  }

  /** dup2 and dup3: the new fd becomes what the old one is, known or unknown. */
  function DupPair(l: Local, ev: Event): Local
  {
    var oldfd, newfd := Low32(ev.args[0]), Low32(ev.args[1]);
    if ev.argCount < 2 || ev.ret < 0 then l
    else if oldfd in l.proc.fds then WithFD(l, newfd, l.proc.fds[oldfd])
    else l.(proc := l.proc.(fds := l.proc.fds - {newfd}))
  }

  /** fcntl duplicates are followed only from watched fds. */
  function Fcntl(cfg: Config, l: Local, ev: Event): Local
  {
    if ev.argCount < 2 || ev.ret < 0 || !WatchedArg(cfg, l.proc, ev, 0) then l
    else if Signed64(ev.args[1]) != F_DUPFD && Signed64(ev.args[1]) != F_DUPFD_CLOEXEC then l
    else WithFD(l, ev.ret, l.proc.fds[Low32(ev.args[0])])
  }

  function Close(l: Local, ev: Event): Local
  {
    if ev.ret < 0 || ev.argCount < 1 then l
    else l.(proc := l.proc.(fds := l.proc.fds - {Low32(ev.args[0])}))
  }

  function Chdir(fs: ProcFS, l: Local, ev: Event): Local
  {
    if ev.ret < 0 then l
    else
      var r := ResolveAt(fs, l, ev, 0);
      if r.path.None? then r.local else r.local.(proc := r.local.proc.(cwd := r.path.value))
  }

  function Fchdir(l: Local, ev: Event): Local
  {
    var fd := Low32(ev.args[0]);
    if ev.ret < 0 || ev.argCount < 1 || fd !in l.proc.fds then l
    else l.(proc := l.proc.(cwd := l.proc.fds[fd]))
  }

  function RewriteFDs(fds: map<U64, Bytes>, oldPath: Bytes, newPath: Bytes): map<U64, Bytes>
  {
    map fd | fd in fds :: Moved(fds[fd], oldPath, newPath)
  }

  /** A stored path after oldPath was renamed to newPath. */
  function Moved(path: Bytes, oldPath: Bytes, newPath: Bytes): Bytes
  {
    var r := RewritePathPrefix(path, oldPath, newPath);
    if r.changed then r.path else path
  }

  lemma MovedNonEmpty(path: Bytes, oldPath: Bytes, newPath: Bytes)
    requires path != []
    ensures Moved(path, oldPath, newPath) != []
  {
    CleanIdempotent(newPath);
    var rest := Clean(path);
    var prefix := Clean(oldPath) + [SLASH];
    if |prefix| <= |rest| {
      CleanIdempotent(Clean(newPath) + [SLASH] + rest[|prefix|..]);
    }
  }

  function RewriteProc(p: Proc, oldPath: Bytes, newPath: Bytes): Proc
  {
    Proc(if p.cwd == [] then [] else Moved(p.cwd, oldPath, newPath), RewriteFDs(p.fds, oldPath, newPath))
  }

  function Rename(fs: ProcFS, l: Local, ev: Event, oldIndex: nat, newIndex: nat): Local
  {
    if ev.ret < 0 then l
    else
      var o := ResolveAt(fs, l, ev, oldIndex);
      if o.path.None? then o.local
      else
        var n := ResolveAt(fs, o.local, ev, newIndex);
        if n.path.None? then n.local
        else n.local.(proc := RewriteProc(n.local.proc, o.path.value, n.path.value))
  }

  /** The fds that survive the removal of target. */
  function Without(fds: map<U64, Bytes>, target: Bytes): map<U64, Bytes>
  {
    map fd | fd in fds && fds[fd] != target :: fds[fd]
  }

  function Unlink(fs: ProcFS, l: Local, ev: Event, argIndex: nat): Local
  {
    if ev.ret < 0 then l
    else
      var r := ResolveAt(fs, l, ev, argIndex);
      if r.path.None? then r.local
      else
        var p := r.local.proc;
        r.local.(proc := p.(fds := Without(p.fds, r.path.value)))
  }

  /** What an event does to the process that caused it. */
  function Effect(cfg: Config, fs: ProcFS, l: Local, ev: Event): Local
  {
    if ev.id == SYS_OPEN then Open(fs, l, ev, 0)
    else if ev.id == SYS_OPENAT || ev.id == SYS_OPENAT2 then Open(fs, l, ev, 1)
    else if ev.id == SYS_DUP then Dup(l, ev)
    else if ev.id == SYS_DUP2 || ev.id == SYS_DUP3 then DupPair(l, ev)
    else if ev.id == SYS_FCNTL then Fcntl(cfg, l, ev)
    else if ev.id == SYS_CLOSE then Close(l, ev)
    else if ev.id == SYS_CHDIR then Chdir(fs, l, ev)
    else if ev.id == SYS_FCHDIR then Fchdir(l, ev)
    else if ev.id == SYS_RENAME then Rename(fs, l, ev, 0, 1)
    else if ev.id == SYS_RENAMEAT || ev.id == SYS_RENAMEAT2 then Rename(fs, l, ev, 1, 3)
    else if ev.id == SYS_UNLINK then Unlink(fs, l, ev, 0)
    else if ev.id == SYS_UNLINKAT then Unlink(fs, l, ev, 1)
    else l
  }

  /** The process a clone event created, if it created one. */
  function ChildOf(ev: Event): Option<U32>
  {
    if ev.ret <= 0 || !CreatesProcess(ev) then None else Some(Low32(ev.ret))
  }

  /** The child starts with what is known about its parent. */
  function Fork(w: World, ev: Event): World
  {
    match ChildOf(ev)
    case None => w
    case Some(child) => w.(procs := Put(w.procs, child, Get(w.procs, ev.pid)))
  }

  datatype Outcome = Outcome(shown: bool, world: World)

  /** One event: decide whether to print it, then take note of it. */
  function Step(cfg: Config, fs: ProcFS, w: World, ev: Event): Outcome
  {
    if cfg.paths == {} then Outcome(true, w)
    else
      var d := Decide(cfg, fs, At(w, ev.pid), ev);
      var forked := Fork(Update(w, ev.pid, d.local), ev);
      Outcome(d.yes, Update(forked, ev.pid, Effect(cfg, fs, At(forked, ev.pid), ev)))
  }

  datatype Result = Result(printed: seq<Event>, world: World)

  function Run(cfg: Config, fs: ProcFS, w: World, evs: seq<Event>): Result
    decreases |evs|
  {
    if evs == [] then Result([], w)
    else
      var o := Step(cfg, fs, w, evs[0]);
      var rest := Run(cfg, fs, o.world, evs[1..]);
      rest.(printed := (if o.shown then [evs[0]] else []) + rest.printed)
  }

  function RunWorld(cfg: Config, fs: ProcFS, w: World, evs: seq<Event>): World
  {
    Run(cfg, fs, w, evs).world
  }

  lemma {:induction false} RunAppend(cfg: Config, fs: ProcFS, w: World, a: seq<Event>, b: seq<Event>)
    ensures var first := Run(cfg, fs, w, a);
            var rest := Run(cfg, fs, first.world, b);
            Run(cfg, fs, w, a + b) == Result(first.printed + rest.printed, rest.world)
    decreases |a|
  {
    hide Step;
    if a == [] {
      assert a + b == b;
    } else {
      assert (a + b)[1..] == a[1..] + b;
      RunAppend(cfg, fs, Step(cfg, fs, w, a[0]).world, a[1..], b);
    }
  }

  /** The table never holds a process about which nothing is known. */
  ghost predicate Tidy(procs: Procs)
  {
    forall pid :: pid in procs ==> procs[pid] != UNKNOWN
  }

  lemma PutLaws(procs: Procs, pid: U32, p: Proc, q: Proc)
    requires Tidy(procs)
    ensures Tidy(Put(procs, pid, p)) && Get(Put(procs, pid, p), pid) == p
    ensures Put(Put(procs, pid, p), pid, q) == Put(procs, pid, q)
    ensures Put(procs, pid, Get(procs, pid)) == procs
  {
    assert pid !in procs ==> procs - {pid} == procs;
    assert pid in procs ==> procs[pid := procs[pid]] == procs;
    assert Put(Put(procs, pid, p), pid, q) == Put(procs, pid, q);
  }

  lemma StepTidy(cfg: Config, fs: ProcFS, w: World, ev: Event)
    requires Tidy(w.procs)
    ensures Tidy(Step(cfg, fs, w, ev).world.procs)
  {
    hide Decide, Effect;
  }
}
