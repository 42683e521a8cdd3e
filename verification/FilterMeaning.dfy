/**
 What the filter decides and remembers, said without its functions: which texts name
 which paths, which events are printed, and where working directories go.
 */
module FilterMeaning {
  import opened Base
  import opened Paths
  import opened Events
  import opened FilterSpec
  import FilterTheorems
  import Provenance

  // ---------------------------------------------------------------------
  // Which arguments are paths, and relative to what

  /** A path argument, and the argument that holds its directory fd, if there is one. */
  datatype Place = Place(path: nat, dir: Option<nat>)

  /** Call by call. */
  function Places(id: I64): seq<Place>
  {
    if id == SYS_OPEN then [Place(0, None)]
    else if id == SYS_STAT then [Place(0, None)]
    else if id == SYS_LSTAT then [Place(0, None)]
    else if id == SYS_ACCESS then [Place(0, None)]
    else if id == SYS_CHDIR then [Place(0, None)]
    else if id == SYS_UNLINK then [Place(0, None)]
    else if id == SYS_RENAME then [Place(0, None), Place(1, None)]
    else if id == SYS_OPENAT then [Place(1, Some(0))]
    else if id == SYS_OPENAT2 then [Place(1, Some(0))]
    else if id == SYS_NEWFSTATAT then [Place(1, Some(0))]
    else if id == SYS_UNLINKAT then [Place(1, Some(0))]
    else if id == SYS_FACCESSAT then [Place(1, Some(0))]
    else if id == SYS_FACCESSAT2 then [Place(1, Some(0))]
    else if id == SYS_STATX then [Place(1, Some(0))]
    else if id == SYS_RENAMEAT then [Place(1, Some(0)), Place(3, Some(2))]
    else if id == SYS_RENAMEAT2 then [Place(1, Some(0)), Place(3, Some(2))]
    else []
  }

  /** The known working directory, or the cleaned answer of the next look at /proc. */
  predicate IsCwd(fs: ProcFS, l: Local, dir: Bytes)
  {
    if l.proc.cwd != [] then dir == l.proc.cwd
    else fs(l.lookups).Some? && dir == Clean(fs(l.lookups).value)
  }

  /** The low half of the directory argument is that of AT_FDCWD, -100. */
  predicate AtCwd(ev: Event, i: nat)
    requires i < 6
  {
    Low32(ev.args[i]) == 0xffff_ff9c
  }

  /** The directory a relative text at this place starts from. */
  predicate IsBase(fs: ProcFS, l: Local, ev: Event, place: Place, dir: Bytes)
  {
    match place.dir
    case None => IsCwd(fs, l, dir)
    case Some(i) =>
      && i < 6 && i < ev.argCount
      && if AtCwd(ev, i) then IsCwd(fs, l, dir)
         else Low32(ev.args[i]) in l.proc.fds && dir == l.proc.fds[Low32(ev.args[i])]
  }

  /** The text is not empty and names path: by itself, or behind its directory. */
  ghost predicate Names(fs: ProcFS, l: Local, ev: Event, place: Place, text: Bytes, path: Bytes)
  {
    && text != []
    && if text[0] == SLASH then path == Clean(text)
       else exists dir :: IsBase(fs, l, ev, place, dir) && path == Clean(if dir == [] then text else dir + [SLASH] + text)
  }

  /** The argument at this place was captured whole and names path. */
  ghost predicate LeadsTo(fs: ProcFS, l: Local, ev: Event, place: Place, path: Bytes)
  {
    EventTracePathAt(ev, place.path).Some? && Names(fs, l, ev, place, EventTracePathAt(ev, place.path).value, path)
  }

  /** Finding out takes a look at /proc. */
  predicate Looks(l: Local, ev: Event, place: Place)
  {
    var text := EventTracePathAt(ev, place.path);
    && text.Some? && text.value != [] && text.value[0] != SLASH && l.proc.cwd == []
    && (place.dir.None? || (place.dir.value < 6 && place.dir.value < ev.argCount && AtCwd(ev, place.dir.value)))
  }

  /** The state after finding out: the answer, if there was one, is the working directory from then on. */
  function AfterLooking(fs: ProcFS, l: Local, ev: Event, place: Place): Local
  {
    if !Looks(l, ev, place) then l
    else match fs(l.lookups)
      case None => Local(l.proc, l.lookups + 1)
      case Some(answer) => Local(Proc(Clean(answer), l.proc.fds), l.lookups + 1)
  }

  lemma DirArgument(ev: Event, i: nat)
    requires i < 6
    ensures SignedLow32(ev.args[i]) == AT_FDCWD <==> AtCwd(ev, i)
  {
  }

  lemma PlacesOf(id: I64, place: Place)
    requires place in Places(id)
    ensures PathBaseFDArgIndex(id, place.path) == place.dir
    ensures place.dir.Some? ==> place.dir.value < 6
  {
  }

  /** The filter's resolution is this, for every path argument of every call. */
  lemma ResolvesExactly(fs: ProcFS, l: Local, ev: Event, place: Place, path: Bytes)
    requires place in Places(ev.id)
    ensures ResolveAt(fs, l, ev, place.path).path == Some(path) <==> LeadsTo(fs, l, ev, place, path)
    ensures ResolveAt(fs, l, ev, place.path).local == AfterLooking(fs, l, ev, place)
  {
    hide Clean, Places, EventTracePathAt;
    PlacesOf(ev.id, place);
    if place.dir.Some? {
      DirArgument(ev, place.dir.value);
    }
    var text := EventTracePathAt(ev, place.path);
    if text.Some? && text.value != [] && !IsAbs(text.value) {
      var base := ResolveBase(fs, l, ev, place.path);
      assert forall dir :: IsBase(fs, l, ev, place, dir) <==> base.path == Some(dir);
      if base.path.Some? {
        var dir := base.path.value;
        JoinedClean(dir, text.value);
        assert Names(fs, l, ev, place, text.value, Clean(Join(dir, text.value)));
      }
    }
  }

  lemma JoinedClean(dir: Bytes, text: Bytes)
    requires text != []
    ensures Clean(Join(dir, text)) == Clean(if dir == [] then text else dir + [SLASH] + text)
  {
    CleanIdempotent(if dir == [] then text else dir + [SLASH] + text);
  }

  // ---------------------------------------------------------------------
  // Which events are printed

  /** Some path argument is a wanted path; a second one is looked at after the first. */
  ghost predicate NamesWanted(cfg: Config, fs: ProcFS, l: Local, ev: Event)
  {
    var places := Places(ev.id);
    || (|places| >= 1 && exists path :: path in cfg.paths && LeadsTo(fs, l, ev, places[0], path))
    || (|places| >= 2 && exists path :: path in cfg.paths && LeadsTo(fs, AfterLooking(fs, l, ev, places[0]), ev, places[1], path))
  }

  /** Some used argument has the tag 3, and its low half is an fd with a wanted path. */
  ghost predicate HoldsWanted(cfg: Config, p: Proc, ev: Event)
  {
    exists i :: 0 <= i < 6 && i < ev.argCount && ev.argTypes[i] == 3 &&
      Low32(ev.args[i]) in p.fds && p.fds[Low32(ev.args[i])] in cfg.paths
  }

  lemma ArgsOfPlaces(id: I64)
    ensures var places := Places(id);
            PathArgs(id) == if |places| == 0 then [] else if |places| == 1 then [places[0].path] else [places[0].path, places[1].path]
    ensures |Places(id)| <= 2
  {
  }

  lemma OneMatch(cfg: Config, fs: ProcFS, l: Local, ev: Event, place: Place)
    requires place in Places(ev.id)
    ensures var r := ResolveAt(fs, l, ev, place.path);
            && (r.path.Some? && r.path.value in cfg.paths <==> exists path :: path in cfg.paths && LeadsTo(fs, l, ev, place, path))
            && r.local == AfterLooking(fs, l, ev, place) && r.local.proc.fds == l.proc.fds
  {
    hide LeadsTo, ResolveAt;
    var r := ResolveAt(fs, l, ev, place.path);
    ResolvesExactly(fs, l, ev, place, []);
    forall path ensures r.path == Some(path) <==> LeadsTo(fs, l, ev, place, path) {
      ResolvesExactly(fs, l, ev, place, path);
    }
    if r.path.Some? {
      assert LeadsTo(fs, l, ev, place, r.path.value);
    }
  }

  /** The state after comparing: the second path is looked at only if the first is not wanted. */
  ghost function LookedAt(cfg: Config, fs: ProcFS, l: Local, ev: Event): Local
  {
    var places := Places(ev.id);
    if |places| == 0 then l
    else
      var l1 := AfterLooking(fs, l, ev, places[0]);
      if |places| == 1 || (exists path :: path in cfg.paths && LeadsTo(fs, l, ev, places[0], path)) then l1
      else AfterLooking(fs, l1, ev, places[1])
  }

  /** Comparing path arguments answers whether a wanted path is named, and looks no further than it must. */
  lemma MatchesWanted(cfg: Config, fs: ProcFS, l: Local, ev: Event)
    ensures var d := MatchArgs(cfg, fs, l, ev, PathArgs(ev.id));
            && (d.yes <==> NamesWanted(cfg, fs, l, ev))
            && d.local == LookedAt(cfg, fs, l, ev) && d.local.proc.fds == l.proc.fds
  {
    hide LeadsTo, ResolveAt, AfterLooking, Places, PathArgs;
    var places := Places(ev.id);
    ArgsOfPlaces(ev.id);
    if |places| >= 1 {
      OneMatch(cfg, fs, l, ev, places[0]);
      MatchUnfolds(cfg, fs, l, ev, places[0].path, if |places| >= 2 then places[1].path else 0);
    }
    if |places| >= 2 {
      var l1 := AfterLooking(fs, l, ev, places[0]);
      OneMatch(cfg, fs, l1, ev, places[1]);
      MatchUnfolds(cfg, fs, l1, ev, places[1].path, 0);
    }
  }

  /**
   Exactly which events are printed: all without -P; else those of calls the user
   allows that name a wanted path or use an fd that has one.
   */
  lemma ShownExactly(cfg: Config, fs: ProcFS, w: World, ev: Event)
    ensures var l := At(w, ev.pid);
            Step(cfg, fs, w, ev).shown <==>
              cfg.paths == {} ||
              ((cfg.ids == {} || ev.id in cfg.ids) && (NamesWanted(cfg, fs, l, ev) || HoldsWanted(cfg, l.proc, ev)))
  {
    hide MatchArgs, PathArgs, NamesWanted, Effect;
    var l := At(w, ev.pid);
    MatchesWanted(cfg, fs, l, ev);
    HoldsExactly(cfg, MatchArgs(cfg, fs, l, ev, PathArgs(ev.id)).local.proc, l.proc, ev);
  }

  lemma HoldsExactly(cfg: Config, p: Proc, q: Proc, ev: Event)
    requires p.fds == q.fds
    ensures HasWatchedArg(cfg, p, ev) <==> HoldsWanted(cfg, q, ev)
  {
    if HoldsWanted(cfg, q, ev) {
      var i :| 0 <= i < 6 && i < ev.argCount && ev.argTypes[i] == 3 &&
        Low32(ev.args[i]) in q.fds && q.fds[Low32(ev.args[i])] in cfg.paths;
      assert WatchedArg(cfg, p, ev, i);
    }
  }

  // ---------------------------------------------------------------------
  // The state the effect of an event starts from

  /** Deciding changes nothing but a working directory that was unknown. */
  lemma DecidingOnlyLooks(cfg: Config, fs: ProcFS, l: Local, ev: Event)
    ensures var d := Decide(cfg, fs, l, ev).local;
            && d.proc.fds == l.proc.fds
            && (l.proc.cwd != [] ==> d == l)
            && (cfg.ids != {} && ev.id !in cfg.ids ==> d == l)
            && (d.proc.cwd != [] && l.proc.cwd == [] ==>
                exists k: nat :: l.lookups <= k && fs(k).Some? && d.proc.cwd == Clean(fs(k).value))
  {
    hide LeadsTo, ResolveAt, Places, PathArgs, Clean, EventTracePathAt;
    var places := Places(ev.id);
    ArgsOfPlaces(ev.id);
    MatchesWanted(cfg, fs, l, ev);
    if |places| >= 1 {
      OneMatch(cfg, fs, l, ev, places[0]);
      MatchUnfolds(cfg, fs, l, ev, places[0].path, if |places| >= 2 then places[1].path else 0);
    }
    if |places| >= 2 {
      var l1 := AfterLooking(fs, l, ev, places[0]);
      OneMatch(cfg, fs, l1, ev, places[1]);
      MatchUnfolds(cfg, fs, l1, ev, places[1].path, 0);
    }
  }

  /** What the process is when the event takes effect. */
  function Before(cfg: Config, fs: ProcFS, w: World, ev: Event): Local
  {
    At(Provenance.Observing(cfg, fs, w, ev), ev.pid)
  }

  lemma BeforeExactly(cfg: Config, fs: ProcFS, w: World, ev: Event)
    ensures Before(cfg, fs, w, ev) == Decide(cfg, fs, At(w, ev.pid), ev).local
    ensures Get(w.procs, ev.pid).cwd != [] ==> Before(cfg, fs, w, ev) == At(w, ev.pid)
  {
    hide Decide;
    DecidingOnlyLooks(cfg, fs, At(w, ev.pid), ev);
  }

  // ---------------------------------------------------------------------
  // Where a rename takes paths

  /** path' is where path is after o became n: below n if it was at or below o, else where it was. */
  ghost predicate TakenAlong(path: Bytes, o: Bytes, n: Bytes, path': Bytes)
  {
    CleanAbs(path') &&
    Comps(path') == if Comps(o) <= Comps(path) then Comps(n) + Comps(path)[|Comps(o)|..] else Comps(path)
  }

  lemma MovedExactly(path: Bytes, o: Bytes, n: Bytes)
    requires CleanAbs(path) && CleanAbs(o) && CleanAbs(n) && o != [SLASH]
    ensures TakenAlong(path, o, n, Moved(path, o, n))
  {
    hide Clean, Comps, RewritePathPrefix;
    RenderNothing(o);
    RewriteIsComponentwise(path, o, n);
  }

  /** A rename of the root would move the root only. */
  lemma RootMoved(path: Bytes, root: Bytes, n: Bytes)
    requires CleanAbs(path) && CleanAbs(n) && root == [SLASH]
    ensures Moved(path, root, n) == if path == root then n else path
  {
    hide Clean, Comps, RewritePathPrefix, CleanAbs;
    RootIsClean();
    RenderNothing(root);
    RewriteIsComponentwise(path, root, n);
    if path == root {
      var moved := RewritePathPrefix(path, root, n).path;
      assert AtOrBelow(path, root);
      assert RewritePathPrefix(path, root, n).changed;
      assert Comps(moved) == Comps(n) + [];
      assert Comps(moved) == Comps(n);
      EqualByComps(moved, n);
    }
  }

  lemma RootIsClean()
    ensures CleanAbs([SLASH])
  {
    RenderComps(true, []);
    assert Render(true, []) == [SLASH];
    assert Clean([SLASH]) == Render(true, []);
  }

  /** The rename names its two paths in this state. */
  ghost predicate RenamesFromTo(fs: ProcFS, l: Local, ev: Event, o: Bytes, n: Bytes)
  {
    && FilterTheorems.IsRename(ev.id) && |Places(ev.id)| == 2
    && LeadsTo(fs, l, ev, Places(ev.id)[0], o)
    && LeadsTo(fs, AfterLooking(fs, l, ev, Places(ev.id)[0]), ev, Places(ev.id)[1], n)
  }

  /** What a rename leaves: the directory and every fd path taken along, no fd more or less. */
  ghost predicate AllTakenAlong(p: Proc, o: Bytes, n: Bytes, p': Proc)
  {
    && (if p.cwd == [] then p'.cwd == [] else TakenAlong(p.cwd, o, n, p'.cwd))
    && p'.fds.Keys == p.fds.Keys
    && forall fd :: fd in p.fds ==> TakenAlong(p.fds[fd], o, n, p'.fds[fd])
  }

  lemma RewriteTakesAlong(p: Proc, o: Bytes, n: Bytes)
    requires FilterTheorems.CleanProc(p) && CleanAbs(o) && CleanAbs(n) && o != [SLASH]
    ensures AllTakenAlong(p, o, n, RewriteProc(p, o, n))
  {
    hide TakenAlong, Moved, CleanAbs;
    if p.cwd != [] {
      MovedExactly(p.cwd, o, n);
    }
    forall fd | fd in p.fds ensures TakenAlong(p.fds[fd], o, n, RewriteProc(p, o, n).fds[fd]) {
      MovedExactly(p.fds[fd], o, n);
    }
  }

  /**
   A successful rename, by any of the three calls, with old path o other than the root
   and new path n: the working directory and every stored path of the process are taken
   along by components.
   */
  lemma RenameTakesAlong(cfg: Config, fs: ProcFS, w: World, ev: Event, o: Bytes, n: Bytes)
    requires cfg.paths != {} && FilterTheorems.AbsoluteAnswers(fs) && FilterTheorems.CleanWorld(w)
    requires ev.ret >= 0 && o != [SLASH] && RenamesFromTo(fs, Before(cfg, fs, w, ev), ev, o, n)
    ensures var l := Before(cfg, fs, w, ev);
            var l1 := AfterLooking(fs, l, ev, Places(ev.id)[0]);
            var l2 := AfterLooking(fs, l1, ev, Places(ev.id)[1]);
            AllTakenAlong(l2.proc, o, n, Get(Step(cfg, fs, w, ev).world.procs, ev.pid))
  {
    hide LeadsTo, ResolveAt, AfterLooking, AllTakenAlong, RewriteProc, Decide;
    var l := Before(cfg, fs, w, ev);
    var first, second := Places(ev.id)[0], Places(ev.id)[1];
    var l1 := AfterLooking(fs, l, ev, first);
    var l2 := AfterLooking(fs, l1, ev, second);
    ResolvesExactly(fs, l, ev, first, o);
    ResolvesExactly(fs, l1, ev, second, n);
    BeforeClean(cfg, fs, w, ev);
    FilterTheorems.ResolveClean(fs, l, ev, first.path);
    FilterTheorems.ResolveClean(fs, l1, ev, second.path);
    RewriteTakesAlong(l2.proc, o, n);
    assert Effect(cfg, fs, l, ev) == l2.(proc := RewriteProc(l2.proc, o, n));
  }

  lemma BeforeClean(cfg: Config, fs: ProcFS, w: World, ev: Event)
    requires FilterTheorems.AbsoluteAnswers(fs) && FilterTheorems.CleanWorld(w)
    ensures FilterTheorems.CleanProc(Before(cfg, fs, w, ev).proc)
  {
    hide MatchArgs;
    BeforeExactly(cfg, fs, w, ev);
    FilterTheorems.UpdateClean(w, ev.pid, Local(UNKNOWN, 0));
    FilterTheorems.MatchClean(cfg, fs, At(w, ev.pid), ev, PathArgs(ev.id));
  }

  /** With a known working directory nothing is looked up, and the state is the one before the event. */
  lemma KnownRenameTakesAlong(cfg: Config, fs: ProcFS, w: World, ev: Event, o: Bytes, n: Bytes)
    requires cfg.paths != {} && FilterTheorems.AbsoluteAnswers(fs) && FilterTheorems.CleanWorld(w)
    requires ev.ret >= 0 && o != [SLASH] && RenamesFromTo(fs, At(w, ev.pid), ev, o, n)
    requires Get(w.procs, ev.pid).cwd != []
    ensures AllTakenAlong(Get(w.procs, ev.pid), o, n, Get(Step(cfg, fs, w, ev).world.procs, ev.pid))
  {
    hide LeadsTo, AllTakenAlong, Step;
    BeforeExactly(cfg, fs, w, ev);
    RenameTakesAlong(cfg, fs, w, ev, o, n);
  }

  // ---------------------------------------------------------------------
  // Where working directories go

  datatype Course = Stay | GoTo(dir: Bytes) | TakeAlong(before: Bytes, after: Bytes)

  /** What an event does to the working directory of its process, which is in state l. */
  ghost predicate IsCourse(fs: ProcFS, l: Local, ev: Event, course: Course)
  {
    match course
    case GoTo(dir) =>
      ev.ret >= 0 &&
      if ev.id == SYS_CHDIR then LeadsTo(fs, l, ev, Place(0, None), dir)
      else ev.id == SYS_FCHDIR && ev.argCount >= 1 && Low32(ev.args[0]) in l.proc.fds && dir == l.proc.fds[Low32(ev.args[0])]
    case TakeAlong(o, n) => ev.ret >= 0 && RenamesFromTo(fs, l, ev, o, n)
    case Stay => true
  }

  /** Stay only if there is nowhere to go. */
  ghost predicate TheCourse(fs: ProcFS, l: Local, ev: Event, course: Course)
  {
    IsCourse(fs, l, ev, course) && (course == Stay ==> forall other :: IsCourse(fs, l, ev, other) ==> other == Stay)
  }

  /** A known directory stays; an unknown one stays unknown or is what some look at /proc found. */
  ghost predicate Remains(fs: ProcFS, l: Local, cwd: Bytes)
  {
    if l.proc.cwd != [] then cwd == l.proc.cwd
    else cwd == [] || exists k: nat :: l.lookups <= k && fs(k).Some? && cwd == Clean(fs(k).value)
  }

  /** After its course: where it goes, where it is taken, or where it was. */
  ghost predicate Arrived(fs: ProcFS, l: Local, ev: Event, course: Course, cwd: Bytes)
  {
    match course
    case GoTo(dir) => cwd == dir
    case TakeAlong(o, n) =>
      |Places(ev.id)| == 2 &&
      var l1 := AfterLooking(fs, l, ev, Places(ev.id)[0]);
      var known := AfterLooking(fs, l1, ev, Places(ev.id)[1]).proc.cwd;
      cwd == if known == [] then [] else Moved(known, o, n)
    case Stay => Remains(fs, l, cwd)
  }

  /** The working directory of an event's own process goes by its course. */
  lemma OwnCourse(cfg: Config, fs: ProcFS, l: Local, ev: Event, course: Course)
    requires TheCourse(fs, l, ev, course)
    ensures Arrived(fs, l, ev, course, Effect(cfg, fs, l, ev).proc.cwd)
  {
    hide LeadsTo, ResolveAt, AfterLooking, Moved, Remains;
    match course {
      case GoTo(dir) =>
        if ev.id == SYS_CHDIR {
          ResolvesExactly(fs, l, ev, Place(0, None), dir);
        }
      case TakeAlong(o, n) =>
        ResolvesExactly(fs, l, ev, Places(ev.id)[0], o);
        ResolvesExactly(fs, AfterLooking(fs, l, ev, Places(ev.id)[0]), ev, Places(ev.id)[1], n);
      case Stay =>
        StayStays(cfg, fs, l, ev);
    }
  }

  lemma LookFinds(fs: ProcFS, l: Local, ev: Event, i: nat)
    ensures var l' := ResolveAt(fs, l, ev, i).local; Remains(fs, l, l'.proc.cwd) && l'.lookups >= l.lookups
  {
    hide Clean, Join, EventTracePathAt;
  }

  lemma RemainsOn(fs: ProcFS, l: Local, l1: Local, cwd: Bytes)
    requires Remains(fs, l, l1.proc.cwd) && l1.lookups >= l.lookups && Remains(fs, l1, cwd)
    ensures Remains(fs, l, cwd)
  {
    hide Clean;
  }

  lemma TwoLooksFind(fs: ProcFS, l: Local, ev: Event, i: nat, j: nat)
    ensures Remains(fs, l, l.proc.cwd) && Remains(fs, l, ResolveAt(fs, l, ev, i).local.proc.cwd)
    ensures Remains(fs, l, ResolveAt(fs, ResolveAt(fs, l, ev, i).local, ev, j).local.proc.cwd)
  {
    hide ResolveAt;
    var l1 := ResolveAt(fs, l, ev, i).local;
    LookFinds(fs, l, ev, i);
    LookFinds(fs, l1, ev, j);
    RemainsOn(fs, l, l1, ResolveAt(fs, l1, ev, j).local.proc.cwd);
  }

  lemma StayStays(cfg: Config, fs: ProcFS, l: Local, ev: Event)
    requires TheCourse(fs, l, ev, Stay)
    ensures Remains(fs, l, Effect(cfg, fs, l, ev).proc.cwd)
  {
    hide ResolveAt, Remains, TheCourse, RewriteProc;
    TwoLooksFind(fs, l, ev, 0, 1);
    TwoLooksFind(fs, l, ev, 1, 3);
    ChdirCourse(fs, l, ev);
    FchdirCourse(fs, l, ev);
    RenameCourse(fs, l, ev);
  }

  lemma ChdirCourse(fs: ProcFS, l: Local, ev: Event)
    ensures TheCourse(fs, l, ev, Stay) && ev.id == SYS_CHDIR && ev.ret >= 0 ==> ResolveAt(fs, l, ev, 0).path == None
  {
    hide LeadsTo, ResolveAt;
    var r := ResolveAt(fs, l, ev, 0).path;
    if ev.id == SYS_CHDIR && ev.ret >= 0 && r.Some? {
      ResolvesExactly(fs, l, ev, Place(0, None), r.value);
      assert IsCourse(fs, l, ev, GoTo(r.value));
    }
  }

  lemma FchdirCourse(fs: ProcFS, l: Local, ev: Event)
    ensures TheCourse(fs, l, ev, Stay) && ev.id == SYS_FCHDIR ==> Fchdir(l, ev) == l
  {
    var fd := Low32(ev.args[0]);
    if ev.id == SYS_FCHDIR && ev.ret >= 0 && ev.argCount >= 1 && fd in l.proc.fds {
      assert IsCourse(fs, l, ev, GoTo(l.proc.fds[fd]));
    }
  }

  lemma RenameCourse(fs: ProcFS, l: Local, ev: Event)
    ensures TheCourse(fs, l, ev, Stay) && FilterTheorems.IsRename(ev.id) && ev.ret >= 0 ==>
              var i, j := PathArgs(ev.id)[0], PathArgs(ev.id)[1];
              ResolveAt(fs, l, ev, i).path == None || ResolveAt(fs, ResolveAt(fs, l, ev, i).local, ev, j).path == None
  {
    hide LeadsTo, ResolveAt, AfterLooking;
    if FilterTheorems.IsRename(ev.id) && ev.ret >= 0 {
      var first, second := Places(ev.id)[0], Places(ev.id)[1];
      var o := ResolveAt(fs, l, ev, first.path);
      var n := ResolveAt(fs, o.local, ev, second.path);
      if o.path.Some? && n.path.Some? {
        ResolvesExactly(fs, l, ev, first, o.path.value);
        ResolvesExactly(fs, o.local, ev, second, n.path.value);
        assert IsCourse(fs, l, ev, TakeAlong(o.path.value, n.path.value));
      }
    }
  }

  /**
   Where every process's working directory is after an event: the child's is its
   parent's, the event's own process goes by its course, and all others stay.
   */
  lemma DirectoriesGo(cfg: Config, fs: ProcFS, w: World, ev: Event, pid: U32, course: Course)
    requires cfg.paths != {} && Tidy(w.procs) && TheCourse(fs, Before(cfg, fs, w, ev), ev, course)
    ensures var cwd := Get(Step(cfg, fs, w, ev).world.procs, pid).cwd;
            if pid == ev.pid then Arrived(fs, Before(cfg, fs, w, ev), ev, course, cwd)
            else if ChildOf(ev) == Some(pid) then cwd == Before(cfg, fs, w, ev).proc.cwd
            else cwd == Get(w.procs, pid).cwd
  {
    hide Effect, Decide, TheCourse, Arrived;
    BeforeExactly(cfg, fs, w, ev);
    OwnCourse(cfg, fs, Before(cfg, fs, w, ev), ev, course);
  }

  // ---------------------------------------------------------------------
  // Which calls the tracer is asked for

  /**
   Exactly the calls the tracer has to report: without -P, or without -e, what -e says;
   with both also every call with a path argument, those that open, copy and close fds
   or move by one, and with -f those that make processes.
   */
  lemma AskedForExactly(cfg: Config, id: I64)
    ensures id in FilterTheorems.HandleIDs(cfg) <==>
            || id in cfg.ids
            || (cfg.paths != {} && cfg.ids != {} &&
                (|Places(id)| > 0 || id in {SYS_CLOSE, SYS_DUP, SYS_DUP2, SYS_DUP3, SYS_FCNTL, SYS_FCHDIR} ||
                 (cfg.followForks && id in {SYS_FORK, SYS_VFORK, SYS_CLONE, SYS_CLONE3})))
  {
    SupportExactly(id);
    ForksExactly(id);
  }

  lemma SupportExactly(id: I64)
    ensures id in FilterTheorems.Members(FilterTheorems.SUPPORT_IDS) <==>
            |Places(id)| > 0 || id in {SYS_CLOSE, SYS_DUP, SYS_DUP2, SYS_DUP3, SYS_FCNTL, SYS_FCHDIR}
  {
    var s := FilterTheorems.SUPPORT_IDS;
    assert s[0] == SYS_OPEN && s[1] == SYS_OPENAT && s[2] == SYS_CLOSE && s[3] == SYS_DUP && s[4] == SYS_DUP2;
    assert s[5] == SYS_DUP3 && s[6] == SYS_FCNTL && s[7] == SYS_CHDIR && s[8] == SYS_FCHDIR && s[9] == SYS_RENAME;
    assert s[10] == SYS_RENAMEAT && s[11] == SYS_RENAMEAT2 && s[12] == SYS_UNLINK && s[13] == SYS_UNLINKAT;
    assert s[14] == SYS_ACCESS && s[15] == SYS_STAT && s[16] == SYS_LSTAT && s[17] == SYS_NEWFSTATAT;
    assert s[18] == SYS_FACCESSAT && s[19] == SYS_STATX && s[20] == SYS_OPENAT2 && s[21] == SYS_FACCESSAT2;
  }

  lemma ForksExactly(id: I64)
    ensures id in FilterTheorems.Members(FilterTheorems.FORK_IDS) <==> id in {SYS_FORK, SYS_VFORK, SYS_CLONE, SYS_CLONE3}
  {
    var s := FilterTheorems.FORK_IDS;
    assert s[0] == SYS_FORK && s[1] == SYS_VFORK && s[2] == SYS_CLONE && s[3] == SYS_CLONE3;
  }

  // ---------------------------------------------------------------------
  // Which events make children

  /** The lowest flag bit is set, and the call returned a number: the child's, in its low half. */
  lemma ChildExactly(ev: Event, child: U32)
    ensures ChildOf(ev) == Some(child) <==> ev.flags % 2 == 1 && ev.ret > 0 && (ev.ret - child) % 0x1_0000_0000 == 0
  {
  }
}
