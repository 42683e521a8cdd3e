/**
 Tracer and path filter together: selecting system calls in the kernel prints
 the same lines as tracing everything and filtering afterwards.
 */
module EndToEnd {
  import opened Base
  import opened Events
  import FilterSpec
  import FilterTheorems
  import TracerSpec
  import TracerTheorems
  import Threads
  import Packing
  import opened Simulation

  /** The tracer's constants and selector map for a command line. */
  function TracerConfig(cfg: FilterSpec.Config, schemas: map<I64, TracerSpec.Schema>): TracerSpec.Config
  {
    var ids := FilterTheorems.HandleIDs(cfg);
    TracerSpec.Config(cfg.followForks, ids != {}, set id | id in ids :: Low32(id), schemas)
  }

  /** The events a run prints, with the filter's final state. */
  function Printing(cfg: FilterSpec.Config, fs: FilterSpec.ProcFS, events: seq<Event>): FilterSpec.Result
  {
    FilterSpec.Run(cfg, fs, FilterSpec.START, events)
  }

  // ---------------------------------------------------------------------
  // The filter does not look at numbers

  lemma {:induction false} DescIgnoresNumber(ev: Event, idx: int, i: nat)
    ensures FirstDesc(ev, idx, i) == FirstDesc(Unnumbered(ev), idx, i)
    decreases MAX_VAR_ARGS - i
  {
    if i < MAX_VAR_ARGS {
      DescIgnoresNumber(ev, idx, i + 1);
    }
  }

  lemma ResolveIgnoresNumber(fs: FilterSpec.ProcFS, l: FilterSpec.Local, ev: Event, i: nat)
    ensures FilterSpec.ResolveAt(fs, l, ev, i) == FilterSpec.ResolveAt(fs, l, Unnumbered(ev), i)
  {
    hide FirstDesc;
    DescIgnoresNumber(ev, i, 0);
  }

  lemma {:induction false} MatchIgnoresNumber(cfg: FilterSpec.Config, fs: FilterSpec.ProcFS, l: FilterSpec.Local, ev: Event, idxs: seq<nat>)
    ensures FilterSpec.MatchArgs(cfg, fs, l, ev, idxs) == FilterSpec.MatchArgs(cfg, fs, l, Unnumbered(ev), idxs)
    decreases |idxs|
  {
    hide FilterSpec.ResolveAt;
    if idxs != [] {
      ResolveIgnoresNumber(fs, l, ev, idxs[0]);
      MatchIgnoresNumber(cfg, fs, FilterSpec.ResolveAt(fs, l, ev, idxs[0]).local, ev, idxs[1..]);
    }
  }

  lemma DecideIgnoresNumber(cfg: FilterSpec.Config, fs: FilterSpec.ProcFS, l: FilterSpec.Local, ev: Event)
    ensures FilterSpec.Decide(cfg, fs, l, ev) == FilterSpec.Decide(cfg, fs, l, Unnumbered(ev))
  {
    hide FilterSpec.MatchArgs;
    MatchIgnoresNumber(cfg, fs, l, ev, FilterSpec.PathArgs(ev.id));
    var p := FilterSpec.MatchArgs(cfg, fs, l, ev, FilterSpec.PathArgs(ev.id)).local.proc;
    assert forall i: nat :: FilterSpec.WatchedArg(cfg, p, ev, i) <==> FilterSpec.WatchedArg(cfg, p, Unnumbered(ev), i);
  }

  lemma EffectIgnoresNumber(cfg: FilterSpec.Config, fs: FilterSpec.ProcFS, l: FilterSpec.Local, ev: Event)
    ensures FilterSpec.Effect(cfg, fs, l, ev) == FilterSpec.Effect(cfg, fs, l, Unnumbered(ev))
  {
    hide FilterSpec.ResolveAt, FilterSpec.RewriteProc;
    ResolveIgnoresNumber(fs, l, ev, 0);
    ResolveIgnoresNumber(fs, l, ev, 1);
    ResolveIgnoresNumber(fs, FilterSpec.ResolveAt(fs, l, ev, 0).local, ev, 1);
    ResolveIgnoresNumber(fs, FilterSpec.ResolveAt(fs, l, ev, 1).local, ev, 3);
  }

  lemma StepIgnoresNumber(cfg: FilterSpec.Config, fs: FilterSpec.ProcFS, w: FilterSpec.World, ev: Event)
    ensures FilterSpec.Step(cfg, fs, w, ev) == FilterSpec.Step(cfg, fs, w, Unnumbered(ev))
  {
    hide FilterSpec.Decide, FilterSpec.Effect;
    DecideIgnoresNumber(cfg, fs, FilterSpec.At(w, ev.pid), ev);
    var d := FilterSpec.Decide(cfg, fs, FilterSpec.At(w, ev.pid), ev);
    var w1 := FilterSpec.Fork(FilterSpec.Update(w, ev.pid, d.local), ev);
    EffectIgnoresNumber(cfg, fs, FilterSpec.At(w1, ev.pid), ev);
  }

  /** Streams that differ in numbers only are printed alike. */
  lemma {:induction false} FilterIgnoresNumbers(cfg: FilterSpec.Config, fs: FilterSpec.ProcFS, w: FilterSpec.World, a: seq<Event>, b: seq<Event>)
    requires StripNumbers(a) == StripNumbers(b)
    ensures var x, y := FilterSpec.Run(cfg, fs, w, a), FilterSpec.Run(cfg, fs, w, b);
            x.world == y.world && StripNumbers(x.printed) == StripNumbers(y.printed)
    decreases |a|
  {
    hide FilterSpec.Step;
    if a != [] {
      assert StripNumbers(a)[0] == StripNumbers(b)[0] && StripNumbers(a)[1..] == StripNumbers(b)[1..];
      StepIgnoresNumber(cfg, fs, w, a[0]);
      StepIgnoresNumber(cfg, fs, w, b[0]);
      var o := FilterSpec.Step(cfg, fs, w, a[0]);
      FilterIgnoresNumbers(cfg, fs, o.world, a[1..], b[1..]);
      var x, y := FilterSpec.Run(cfg, fs, o.world, a[1..]), FilterSpec.Run(cfg, fs, o.world, b[1..]);
      var p, q := if o.shown then [a[0]] else [], if o.shown then [b[0]] else [];
      assert StripNumbers(p) == StripNumbers(q) by {
        assert [a[0]][1..] == [] && [b[0]][1..] == [];
      }
      StripAppend(p, x.printed);
      StripAppend(q, y.printed);
    }
  }

  // ---------------------------------------------------------------------
  // What the two stages agree on

  lemma {:induction false} KeptIsSelected(tcfg: TracerSpec.Config, events: seq<Event>)
    ensures FilterTheorems.Kept((ev: Event) => TracerSpec.IsSelected(tcfg, ev.id), events) == SelectedOnly(tcfg, events)
  {
    if events != [] {
      KeptIsSelected(tcfg, events[1..]);
    }
  }

  /** The clone flag is set for fork calls only. */
  lemma {:induction false} TracerFlagsForks(tcfg: TracerSpec.Config, m: TracerSpec.Maps, steps: seq<TracerSpec.Step>)
    ensures FilterTheorems.CloneFlagsOnForks(TracerSpec.Run(tcfg, m, steps).events)
    decreases |steps|
  {
    hide TracerSpec.Apply;
    if steps != [] {
      var s := steps[0];
      var r := TracerSpec.Apply(tcfg, m, s);
      FlagOnFork(tcfg, m, s);
      TracerFlagsForks(tcfg, r.maps, steps[1..]);
      var tail := TracerSpec.Run(tcfg, r.maps, steps[1..]).events;
      var all := TracerSpec.AsSeq(r.event) + tail;
      forall k | 0 <= k < |all| && CreatesProcess(all[k]) ensures all[k].id in FilterTheorems.FORK_IDS {
        assert all[k] == if r.event.None? then tail[k] else if k == 0 then r.event.value else tail[k - 1];
      }
    }
  }

  lemma FlagOnFork(tcfg: TracerSpec.Config, m: TracerSpec.Maps, s: TracerSpec.Step)
    ensures var ev := TracerSpec.Apply(tcfg, m, s).event;
            ev.Some? && CreatesProcess(ev.value) ==> ev.value.id in FilterTheorems.FORK_IDS
  {
    hide TracerSpec.EventFor, TracerSpec.OnEnter;
    assert FilterTheorems.FORK_IDS[0] == SYS_FORK && FilterTheorems.FORK_IDS[1] == SYS_VFORK;
    assert FilterTheorems.FORK_IDS[2] == SYS_CLONE && FilterTheorems.FORK_IDS[3] == SYS_CLONE3;
    if s.Exit? && s.tid in m.inflight {
      var call := m.inflight[s.tid];
      var m1 := TracerSpec.TrackChild(tcfg, m, call, s.ret, s.mem);
      TracerTheorems.EventHeader(tcfg, call, TracerSpec.LookupSnapshot(m1, s.tid), s);
    }
  }

  /** With no -P path everything that arrives is printed. */
  lemma {:induction false} PrintsAll(cfg: FilterSpec.Config, fs: FilterSpec.ProcFS, w: FilterSpec.World, events: seq<Event>)
    requires cfg.paths == {}
    ensures FilterSpec.Run(cfg, fs, w, events) == FilterSpec.Result(events, w)
    decreases |events|
  {
    if events != [] {
      PrintsAll(cfg, fs, w, events[1..]);
    }
  }

  lemma {:induction false} EverythingSelected(tcfg: TracerSpec.Config, events: seq<Event>)
    requires !tcfg.filterEnabled
    ensures SelectedOnly(tcfg, events) == events
  {
    if events != [] {
      EverythingSelected(tcfg, events[1..]);
    }
  }

  // ---------------------------------------------------------------------
  // Without -f: children that report nothing

  /** The filter states agree about the processes in traced. */
  ghost predicate AgreeOn(traced: set<U32>, w: FilterSpec.World, v: FilterSpec.World)
  {
    w.lookups == v.lookups && forall p :: p in traced ==> FilterSpec.Get(w.procs, p) == FilterSpec.Get(v.procs, p)
  }

  /** An event of a traced process is decided alike, and agreement is kept. */
  lemma StepAgrees(cfg: FilterSpec.Config, fs: FilterSpec.ProcFS, traced: set<U32>, w: FilterSpec.World, v: FilterSpec.World, ev: Event)
    requires AgreeOn(traced, w, v) && ev.pid in traced
    ensures var a, b := FilterSpec.Step(cfg, fs, w, ev), FilterSpec.Step(cfg, fs, v, ev);
            a.shown == b.shown && AgreeOn(traced, a.world, b.world)
  {
    hide FilterSpec.Decide, FilterSpec.Effect;
  }

  /** An event outside the selection changes at most a child that is not traced, and is not printed. */
  lemma SkippedAgrees(cfg: FilterSpec.Config, fs: FilterSpec.ProcFS, traced: set<U32>, w: FilterSpec.World, v: FilterSpec.World, ev: Event)
    requires cfg.paths != {} && cfg.ids != {} && FilterSpec.Tidy(w.procs) && AgreeOn(traced, w, v)
    requires ev.id !in FilterTheorems.HandleIDs(cfg) && (CreatesProcess(ev) ==> ev.id in FilterTheorems.FORK_IDS)
    requires FilterSpec.ChildOf(ev).Some? ==> FilterSpec.ChildOf(ev).value !in traced
    ensures var o := FilterSpec.Step(cfg, fs, w, ev);
            !o.shown && AgreeOn(traced, o.world, v)
  {
    hide FilterSpec.Effect, FilterSpec.MatchArgs, FilterSpec.Fork;
    if FilterSpec.ChildOf(ev).None? {
      FilterTheorems.SkippedStep(cfg, fs, w, ev);
    } else {
      FilterTheorems.ForkedChild(cfg, fs, w, ev);
    }
  }

  /** Whom the tracer follows without -f becomes fewer only. */
  lemma TargetsShrink(tcfg: TracerSpec.Config, m: TracerSpec.Maps, s: TracerSpec.Step)
    requires !tcfg.followForks
    ensures TracerSpec.Apply(tcfg, m, s).maps.targets <= m.targets
  {
    hide TracerSpec.EventFor, Packing.ExecveSnapshot, TracerSpec.ShouldTrackUnselected, TracerSpec.NextSequence;
  }

  lemma TracedBecomeFewer(cfg: FilterSpec.Config, schemas: map<I64, TracerSpec.Schema>, home: Threads.Homes,
                          u: TracerSpec.Maps, s: TracerSpec.Step)
    requires !cfg.followForks
    ensures var ucfg := Unfiltered(TracerConfig(cfg, schemas));
            && !ucfg.followForks && TracerTheorems.AllRecorded(ucfg)
            && TracerTheorems.RealTargets(home, TracerSpec.Apply(ucfg, u, s).maps.targets) <= TracerTheorems.RealTargets(home, u.targets)
  {
    hide TracerSpec.Apply;
    TargetsShrink(Unfiltered(TracerConfig(cfg, schemas)), u, s);
  }

  lemma AgreeOnFewer(traced: set<U32>, fewer: set<U32>, w: FilterSpec.World, v: FilterSpec.World)
    requires fewer <= traced && AgreeOn(traced, w, v)
    ensures AgreeOn(fewer, w, v)
  {
  }

  /** An emitted event is of a traced process, and a child it reports is not traced. */
  lemma ChildIsNotTraced(tcfg: TracerSpec.Config, home: Threads.Homes, m: TracerSpec.Maps, env: Threads.Env, s: TracerSpec.Step)
    requires TracerTheorems.Faithful(tcfg, home, m, env) && Threads.Proper(tcfg.followForks, home, env, s)
    requires TracerSpec.Apply(tcfg, m, s).event.Some?
    ensures var ev := TracerSpec.Apply(tcfg, m, s).event.value;
            var traced := TracerTheorems.RealTargets(home, m.targets);
            && ev.pid in traced
            && (FilterSpec.ChildOf(ev).Some? ==> FilterSpec.ChildOf(ev).value !in traced)
  {
    hide TracerSpec.EventFor, TracerSpec.IsProcessClone, Threads.ProductOf, Threads.HonestReturn, Threads.NewProcess;
    var call := m.inflight[s.tid];
    var m1 := TracerSpec.TrackChild(tcfg, m, call, s.ret, s.mem);
    TracerTheorems.EventHeader(tcfg, call, TracerSpec.LookupSnapshot(m1, s.tid), s);
    assert s.tgid in TracerTheorems.RealTargets(home, m.targets);
    assert TracerTheorems.FaithfulEntry(tcfg, home, m, env, s.tid);
    if s.ret > 0 {
      TracerTheorems.VerdictOf(env.threads[s.tid].call, s.mem, s.ret);
    }
  }

  /** One event more at the front, decided alike if it is selected and else not printed. */
  lemma OneMorePrinted(cfg: FilterSpec.Config, fs: FilterSpec.ProcFS, tcfg: TracerSpec.Config,
                       w: FilterSpec.World, v: FilterSpec.World, ev: Event, tail: seq<Event>)
    requires var a, b := FilterSpec.Step(cfg, fs, w, ev), FilterSpec.Step(cfg, fs, v, ev);
             var selected := TracerSpec.IsSelected(tcfg, ev.id);
             && (if selected then a.shown == b.shown else !a.shown)
             && FilterSpec.Run(cfg, fs, a.world, tail).printed ==
                FilterSpec.Run(cfg, fs, if selected then b.world else v, SelectedOnly(tcfg, tail)).printed
    ensures FilterSpec.Run(cfg, fs, w, [ev] + tail).printed == FilterSpec.Run(cfg, fs, v, SelectedOnly(tcfg, [ev] + tail)).printed
  {
    hide FilterSpec.Step, TracerSpec.IsSelected;
    assert ([ev] + tail)[1..] == tail;
    assert ([ev] + SelectedOnly(tcfg, tail))[1..] == SelectedOnly(tcfg, tail);
    assert [] + SelectedOnly(tcfg, tail) == SelectedOnly(tcfg, tail);
  }

  /** Without -f, dropping what is not selected changes nothing in the printed sequence. */
  lemma {:induction false} UntracedChildrenDoNotMatter(cfg: FilterSpec.Config, fs: FilterSpec.ProcFS, schemas: map<I64, TracerSpec.Schema>,
      home: Threads.Homes, u: TracerSpec.Maps, env: Threads.Env, steps: seq<TracerSpec.Step>, w: FilterSpec.World, v: FilterSpec.World)
    requires cfg.paths != {} && cfg.ids != {} && !cfg.followForks && FilterSpec.Tidy(w.procs)
    requires TracerTheorems.Faithful(Unfiltered(TracerConfig(cfg, schemas)), home, u, env)
    requires Threads.ProperRun(false, home, env, steps) && forall k :: 0 <= k < |steps| ==> Clear(steps[k])
    requires AgreeOn(TracerTheorems.RealTargets(home, u.targets), w, v)
    ensures var tcfg := TracerConfig(cfg, schemas);
            var events := TracerSpec.Run(Unfiltered(tcfg), u, steps).events;
            FilterSpec.Run(cfg, fs, w, events).printed == FilterSpec.Run(cfg, fs, v, SelectedOnly(tcfg, events)).printed
    decreases |steps|
  {
    if steps == [] {
      assert SelectedOnly(TracerConfig(cfg, schemas), []) == [];
    }
    hide FilterSpec.Step, TracerSpec.Apply, Threads.Advance, Threads.Proper, TracerTheorems.Faithful;
    hide AgreeOn, TracerTheorems.RealTargets, TracerSpec.IsSelected, TracerConfig, TracerTheorems.AllRecorded, FilterSpec.Tidy;
    hide SelectedOnly, FilterSpec.Run;
    if steps != [] {
      var tcfg := TracerConfig(cfg, schemas);
      var ucfg, s, rest := Unfiltered(tcfg), steps[0], steps[1..];
      assert forall k :: 0 <= k < |rest| ==> rest[k] == steps[k + 1];
      TracerTheorems.StepFaithful(ucfg, home, u, env, s);
      TracedBecomeFewer(cfg, schemas, home, u, s);
      var r, env' := TracerSpec.Apply(ucfg, u, s), Threads.Advance(false, env, s);
      var tail := TracerSpec.Run(ucfg, r.maps, rest).events;
      var traced := TracerTheorems.RealTargets(home, u.targets);
      var traced' := TracerTheorems.RealTargets(home, r.maps.targets);
      if r.event.None? {
        AgreeOnFewer(traced, traced', w, v);
        UntracedChildrenDoNotMatter(cfg, fs, schemas, home, r.maps, env', rest, w, v);
        assert [] + tail == tail;
      } else {
        var ev := r.event.value;
        OneEventAgrees(cfg, fs, schemas, home, u, env, s, w, v);
        var w' := FilterSpec.Step(cfg, fs, w, ev).world;
        var v' := if TracerSpec.IsSelected(tcfg, ev.id) then FilterSpec.Step(cfg, fs, v, ev).world else v;
        FilterSpec.StepTidy(cfg, fs, w, ev);
        AgreeOnFewer(traced, traced', w', v');
        UntracedChildrenDoNotMatter(cfg, fs, schemas, home, r.maps, env', rest, w', v');
        OneMorePrinted(cfg, fs, tcfg, w, v, ev, tail);
      }
    }
  }

  /** The event of one step, with and without the selection. */
  lemma OneEventAgrees(cfg: FilterSpec.Config, fs: FilterSpec.ProcFS, schemas: map<I64, TracerSpec.Schema>, home: Threads.Homes,
      u: TracerSpec.Maps, env: Threads.Env, s: TracerSpec.Step, w: FilterSpec.World, v: FilterSpec.World)
    requires cfg.paths != {} && cfg.ids != {} && !cfg.followForks && FilterSpec.Tidy(w.procs)
    requires TracerTheorems.Faithful(Unfiltered(TracerConfig(cfg, schemas)), home, u, env) && Threads.Proper(false, home, env, s)
    requires AgreeOn(TracerTheorems.RealTargets(home, u.targets), w, v)
    requires TracerSpec.Apply(Unfiltered(TracerConfig(cfg, schemas)), u, s).event.Some?
    ensures var tcfg := TracerConfig(cfg, schemas);
            var ev := TracerSpec.Apply(Unfiltered(tcfg), u, s).event.value;
            var traced := TracerTheorems.RealTargets(home, u.targets);
            var a := FilterSpec.Step(cfg, fs, w, ev);
            if TracerSpec.IsSelected(tcfg, ev.id) then
              var b := FilterSpec.Step(cfg, fs, v, ev);
              a.shown == b.shown && AgreeOn(traced, a.world, b.world)
            else !a.shown && AgreeOn(traced, a.world, v)
  {
    hide FilterSpec.Step, TracerSpec.Apply, Threads.Proper, TracerTheorems.Faithful, AgreeOn, FilterSpec.ChildOf;
    var tcfg := TracerConfig(cfg, schemas);
    var ev := TracerSpec.Apply(Unfiltered(tcfg), u, s).event.value;
    var traced := TracerTheorems.RealTargets(home, u.targets);
    ChildIsNotTraced(Unfiltered(tcfg), home, u, env, s);
    FlagOnFork(Unfiltered(tcfg), u, s);
    if TracerSpec.IsSelected(tcfg, ev.id) {
      StepAgrees(cfg, fs, traced, w, v, ev);
    } else {
      SelectionCovers(cfg, schemas);
      SkippedAgrees(cfg, fs, traced, w, v, ev);
    }
  }

  // ---------------------------------------------------------------------
  // The theorem

  /**
   For threads that behave, with room in the ring buffer and no evictions: a run
   that selects in the kernel prints what a run that traces everything would
   print, up to the events' numbers (without -P: what it would print of the
   selected calls); and the same processes are followed.  Without -f the filter's
   own state may differ, about children that no event is of.
   */
  lemma KernelSelectionPrintsTheSame(cfg: FilterSpec.Config, fs: FilterSpec.ProcFS, schemas: map<I64, TracerSpec.Schema>,
                                     home: Threads.Homes, targets: set<U32>, steps: seq<TracerSpec.Step>)
    requires Threads.ProperRun(cfg.followForks, home, Threads.Beginning(targets), steps)
    requires forall k :: 0 <= k < |steps| ==> Clear(steps[k])
    ensures var tcfg := TracerConfig(cfg, schemas);
            var part := TracerSpec.Run(tcfg, TracerSpec.Initial(targets), steps);
            var whole := TracerSpec.Run(Unfiltered(tcfg), TracerSpec.Initial(targets), steps);
            var some, all := Printing(cfg, fs, part.events), Printing(cfg, fs, whole.events);
            && part.maps.targets == whole.maps.targets
            && StripNumbers(some.printed) == StripNumbers(if cfg.paths == {} then SelectedOnly(tcfg, all.printed) else all.printed)
            && (cfg.followForks || cfg.paths == {} || cfg.ids == {} ==> some.world == all.world)
  {
    hide FilterSpec.Step, TracerSpec.Run, Threads.ProperRun;
    var tcfg := TracerConfig(cfg, schemas);
    var ucfg := Unfiltered(tcfg);
    var part := TracerSpec.Run(tcfg, TracerSpec.Initial(targets), steps).events;
    var whole := TracerSpec.Run(ucfg, TracerSpec.Initial(targets), steps).events;
    SimulationFromStart(tcfg, home, targets, steps);
    FilterIgnoresNumbers(cfg, fs, FilterSpec.START, part, SelectedOnly(tcfg, whole));
    if cfg.paths == {} {
      PrintsAll(cfg, fs, FilterSpec.START, SelectedOnly(tcfg, whole));
      PrintsAll(cfg, fs, FilterSpec.START, whole);
    } else if cfg.ids == {} {
      EverythingSelected(tcfg, whole);
    } else if cfg.followForks {
      TracerFlagsForks(ucfg, TracerSpec.Initial(targets), steps);
      KeptIsSelected(tcfg, whole);
      SelectionCovers(cfg, schemas);
      FilterTheorems.LosslessPushdown(cfg, fs, FilterSpec.START, whole, (ev: Event) => TracerSpec.IsSelected(tcfg, ev.id));
    } else {
      TracerTheorems.StartsFaithful(ucfg, home, targets);
      UntracedChildrenDoNotMatter(cfg, fs, schemas, home, TracerSpec.Initial(targets), Threads.Beginning(targets), steps,
                                  FilterSpec.START, FilterSpec.START);
    }
  }

  /** Every call the filter needs is selected in the kernel. */
  lemma SelectionCovers(cfg: FilterSpec.Config, schemas: map<I64, TracerSpec.Schema>)
    ensures forall id: I64 :: id in FilterTheorems.HandleIDs(cfg) ==> TracerSpec.IsSelected(TracerConfig(cfg, schemas), id)
  {
  }

  /**
   Selected in the kernel are exactly the calls the filter asks for, told apart by the
   low half of their numbers; all, if it asks for none in particular.
   */
  lemma SelectionExactly(cfg: FilterSpec.Config, schemas: map<I64, TracerSpec.Schema>, id: I64)
    ensures var tcfg := TracerConfig(cfg, schemas);
            && tcfg.followForks == cfg.followForks
            && (TracerSpec.IsSelected(tcfg, id) <==>
                FilterTheorems.HandleIDs(cfg) == {} || exists asked :: asked in FilterTheorems.HandleIDs(cfg) && Low32(asked) == Low32(id))
  {
  }
}
