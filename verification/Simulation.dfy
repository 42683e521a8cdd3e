/**
 The tracer with a syscall selection against the tracer without: the same
 processes are followed, and the selected part of the event stream is the same
 but for the numbers.
 */
module Simulation {
  import opened Base
  import opened Events
  import opened Packing
  import opened TracerSpec
  import opened Threads
  import opened TracerTheorems

  function Unfiltered(cfg: Config): Config
  {
    cfg.(filterEnabled := false)
  }

  /** Events, and open records, up to their numbers. */
  function Unnumbered(ev: Event): Event
  {
    ev.(seqno := 0)
  }

  function StripNumbers(events: seq<Event>): seq<Event>
  {
    if events == [] then [] else [Unnumbered(events[0])] + StripNumbers(events[1..])
  }

  function SelectedOnly(cfg: Config, events: seq<Event>): seq<Event>
  {
    if events == [] then []
    else (if IsSelected(cfg, events[0].id) then [events[0]] else []) + SelectedOnly(cfg, events[1..])
  }

  lemma {:induction false} StripAppend(a: seq<Event>, b: seq<Event>)
    ensures StripNumbers(a + b) == StripNumbers(a) + StripNumbers(b)
  {
    if a == [] {
      assert a + b == b;
    } else {
      assert (a + b)[1..] == a[1..] + b;
      StripAppend(a[1..], b);
    }
  }

  lemma {:induction false} SelectedAppend(cfg: Config, a: seq<Event>, b: seq<Event>)
    ensures SelectedOnly(cfg, a + b) == SelectedOnly(cfg, a) + SelectedOnly(cfg, b)
  {
    if a == [] {
      assert a + b == b;
    } else {
      assert (a + b)[1..] == a[1..] + b;
      SelectedAppend(cfg, a[1..], b);
    }
  }

  /** The record the filtered tracer has for thread tid, given the unfiltered one's. */
  ghost predicate SameEntry(cfg: Config, f: Maps, u: Maps, tid: U32)
  {
    if tid in u.inflight && Recorded(cfg, u.inflight[tid].id) then
      var d := u.inflight[tid];
      && tid in f.inflight
      && f.inflight[tid].(seqno := 0) == d.(seqno := 0, selected := IsSelected(cfg, d.id))
      && (d.id == SYS_EXECVE && IsSelected(cfg, d.id) ==> LookupSnapshot(f, tid) == LookupSnapshot(u, tid))
    else tid !in f.inflight
  }

  /** The two tracers agree about every followed process. */
  ghost predicate Similar(cfg: Config, home: Homes, f: Maps, u: Maps)
  {
    f.targets == u.targets && forall tid :: home(tid) in u.targets ==> SameEntry(cfg, f, u, tid)
  }

  /** No entry is evicted and no reservation fails. */
  predicate Clear(s: Step)
  {
    !s.EvictInflight? && !s.EvictSnapshot? && (s.Exit? ==> s.reserved)
  }

  /** A followed process was never dropped, so an entering thread has no record. */
  lemma EnterSimilar(cfg: Config, home: Homes, f: Maps, u: Maps, env: Env, s: Step)
    requires s.Enter? && Similar(cfg, home, f, u) && Faithful(Unfiltered(cfg), home, u, env)
    requires Current(home, u, env) && Proper(cfg.followForks, home, env, s)
    ensures Similar(cfg, home, OnEnter(cfg, f, s), OnEnter(Unfiltered(cfg), u, s))
  {
    hide OnEnter;
    var f', u' := OnEnter(cfg, f, s), OnEnter(Unfiltered(cfg), u, s);
    forall tid | home(tid) in u.targets ensures SameEntry(cfg, f', u', tid) && f'.targets == u'.targets == u.targets {
      EnterEntry(cfg, f, u, s, tid);
    }
    EnterKeepsTargets(cfg, f, s);
    EnterKeepsTargets(Unfiltered(cfg), u, s);
  }

  lemma EnterKeepsTargets(cfg: Config, m: Maps, s: Step)
    requires s.Enter?
    ensures OnEnter(cfg, m, s).targets == m.targets
  {
    hide ExecveSnapshot, ShouldTrackUnselected;
  }

  lemma EnterEntry(cfg: Config, f: Maps, u: Maps, s: Step, tid: U32)
    requires s.Enter? && f.targets == u.targets && SameEntry(cfg, f, u, tid)
    requires tid == s.tid && s.tgid in u.targets ==> tid !in u.inflight
    ensures SameEntry(cfg, OnEnter(cfg, f, s), OnEnter(Unfiltered(cfg), u, s), tid)
    ensures OnEnter(cfg, f, s).targets == OnEnter(Unfiltered(cfg), u, s).targets == u.targets
  {
    hide ExecveSnapshot, ShouldTrackUnselected, NextSequence;
    UnselectedForks(cfg, s.mem, s.id);
  }

  /** With working reservations, a record in a followed process is the call under way. */
  ghost predicate Current(home: Homes, u: Maps, env: Env)
  {
    forall tid :: tid in u.inflight && home(tid) in u.targets ==>
      InRecordedCall(env, tid, u.inflight[tid])
  }

  lemma EnterCurrent(cfg: Config, home: Homes, u: Maps, env: Env, s: Step)
    requires s.Enter? && Faithful(cfg, home, u, env) && Current(home, u, env) && !cfg.filterEnabled
    requires Proper(cfg.followForks, home, env, s)
    ensures Current(home, OnEnter(cfg, u, s), Advance(cfg.followForks, env, s))
  {
    hide OnEnter, Faithful;
    EnterRecords(cfg, u, s);
    TargetIsLive(cfg, home, u, env, s.tid);
  }

  lemma ExitCurrent(cfg: Config, home: Homes, u: Maps, env: Env, s: Step)
    requires s.Exit? && s.reserved && Faithful(cfg, home, u, env) && Current(home, u, env)
    requires Proper(cfg.followForks, home, env, s)
    ensures Current(home, OnExit(cfg, u, s).maps, Advance(cfg.followForks, env, s))
  {
    hide OnExit, Faithful, Made;
    var u', env' := OnExit(cfg, u, s).maps, Advance(cfg.followForks, env, s);
    ExitAdds(cfg, home, u, env, s);
    forall tid | tid in u'.inflight && home(tid) in u'.targets ensures InRecordedCall(env', tid, u'.inflight[tid]) {
      if home(tid) !in u.targets {
        NewcomerHasNoRecord(cfg, home, u, env, s, tid);
      } else if tid == s.tid {
        StaysOnlyUnreserved(cfg, u, s);
      }
    }
  }

  lemma StepCurrent(cfg: Config, home: Homes, u: Maps, env: Env, s: Step)
    requires Faithful(cfg, home, u, env) && Current(home, u, env) && !cfg.filterEnabled
    requires Proper(cfg.followForks, home, env, s) && Clear(s)
    ensures Current(home, Apply(cfg, u, s).maps, Advance(cfg.followForks, env, s))
  {
    hide OnEnter, OnExit, Faithful;
    match s {
      case Enter(_, _, _, _, _, _) => EnterCurrent(cfg, home, u, env, s);
      case Exit(_, _, _, _, _, _) => ExitCurrent(cfg, home, u, env, s);
      case _ =>
    }
  }

  lemma TargetIsLive(cfg: Config, home: Homes, m: Maps, env: Env, tid: U32)
    requires Faithful(cfg, home, m, env)
    ensures home(tid) in m.targets ==> home(tid) in env.live
  {
    assert home(tid) in m.targets ==> home(tid) in RealTargets(home, m.targets);
  }

  /** The event does not depend on the record's number but for carrying it. */
  lemma EventIgnoresNumber(cfg: Config, c: SyscallData, d: SyscallData, x: Option<Snapshot>, y: Option<Snapshot>, s: Step)
    requires s.Exit? && c.(seqno := 0, selected := true) == d.(seqno := 0, selected := true)
    requires c.id == SYS_EXECVE ==> x == y
    ensures Unnumbered(EventFor(cfg, c, x, s)) == Unnumbered(EventFor(Unfiltered(cfg), d, y, s))
  {
    hide Captured, IsProcessClone;
    var types := Captured(SchemaOf(cfg.schemas, c.id).argTypes, c.id, s.ret, c.args, s.mem).types;
    assert Header(cfg, c, s, types).(seqno := 0) == Header(Unfiltered(cfg), d, s, types).(seqno := 0);
  }

  /** What a leaving thread's hook emits, and whom it follows from then on. */
  lemma ExitEmits(cfg: Config, m: Maps, s: Step)
    requires s.Exit? && s.reserved
    requires s.tgid in m.targets && s.tid in m.inflight ==> Returns(m.inflight[s.tid].id)
    ensures var r := OnExit(cfg, m, s);
            if s.tgid in m.targets && s.tid in m.inflight then
              var d := m.inflight[s.tid];
              && r.event == (if d.selected then Some(EventFor(cfg, d, LookupSnapshot(m, s.tid), s)) else None)
              && r.maps.targets == TrackChild(cfg, m, d, s.ret, s.mem).targets
            else r == Exited(m, None)
  {
    hide EventFor, IsProcessClone;
  }

  lemma ExitEvents(cfg: Config, home: Homes, f: Maps, u: Maps, env: Env, s: Step)
    requires s.Exit? && s.reserved && Similar(cfg, home, f, u) && Faithful(Unfiltered(cfg), home, u, env)
    requires Current(home, u, env) && Proper(cfg.followForks, home, env, s)
    ensures var a, b := OnExit(cfg, f, s), OnExit(Unfiltered(cfg), u, s);
            && a.maps.targets == b.maps.targets
            && StripNumbers(AsSeq(a.event)) == StripNumbers(SelectedOnly(cfg, AsSeq(b.event)))
  {
    hide EventFor, OnExit;
    var ucfg := Unfiltered(cfg);
    if s.tgid in u.targets && s.tid in u.inflight {
      assert SameEntry(cfg, f, u, s.tid);
      assert FaithfulEntry(ucfg, home, u, env, s.tid);
      var d := u.inflight[s.tid];
      ExitEmits(ucfg, u, s);
      ExitEmits(cfg, f, s);
      EventHeader(ucfg, d, LookupSnapshot(u, s.tid), s);
      if Recorded(cfg, d.id) && IsSelected(cfg, d.id) {
        EventIgnoresNumber(cfg, f.inflight[s.tid], d, LookupSnapshot(f, s.tid), LookupSnapshot(u, s.tid), s);
      }
      StripOne(cfg, OnExit(cfg, f, s).event, OnExit(ucfg, u, s).event);
    } else {
      assert s.tgid in u.targets ==> SameEntry(cfg, f, u, s.tid);
      ExitEmits(ucfg, u, s);
      ExitEmits(cfg, f, s);
    }
  }

  lemma StripOne(cfg: Config, a: Option<Event>, b: Option<Event>)
    requires b.Some?
    requires if IsSelected(cfg, b.value.id) then a.Some? && Unnumbered(a.value) == Unnumbered(b.value) else a == None
    ensures StripNumbers(AsSeq(a)) == StripNumbers(SelectedOnly(cfg, AsSeq(b)))
  {
    hide Unnumbered;
    assert AsSeq(b)[1..] == [] && (a.Some? ==> AsSeq(a)[1..] == []);
  }

  lemma ExitSimilar(cfg: Config, home: Homes, f: Maps, u: Maps, env: Env, s: Step)
    requires s.Exit? && s.reserved && Similar(cfg, home, f, u)
    requires Faithful(Unfiltered(cfg), home, u, env) && Faithful(cfg, home, f, env)
    requires Current(home, u, env) && Proper(cfg.followForks, home, env, s)
    ensures Similar(cfg, home, OnExit(cfg, f, s).maps, OnExit(Unfiltered(cfg), u, s).maps)
  {
    hide OnExit, SameEntry, Faithful, Current, Proper;
    var ucfg := Unfiltered(cfg);
    var f', u' := OnExit(cfg, f, s).maps, OnExit(ucfg, u, s).maps;
    ExitEvents(cfg, home, f, u, env, s);
    if s.tgid in u.targets && s.tid in u.inflight {
      RecordedReturns(ucfg, home, u, env, s);
    }
    ExitsFromHome(cfg, home, env, s);
    forall tid | home(tid) in u'.targets ensures SameEntry(cfg, f', u', tid) {
      if home(tid) !in u.targets {
        NewcomerHasNoRecord(cfg, home, f, env, s, tid);
        NewcomerHasNoRecord(ucfg, home, u, env, s, tid);
        assert SameEntry(cfg, f, u, tid) by { NoRecordsAgree(cfg, f, u, tid); }
      }
      ExitEntry(cfg, f, u, s, tid);
    }
  }

  lemma ExitsFromHome(cfg: Config, home: Homes, env: Env, s: Step)
    requires s.Exit? && Proper(cfg.followForks, home, env, s)
    ensures home(s.tid) == s.tgid
  {
  }

  lemma NoRecordsAgree(cfg: Config, f: Maps, u: Maps, tid: U32)
    requires tid !in f.inflight && tid !in u.inflight
    ensures SameEntry(cfg, f, u, tid)
  {
  }

  /** Leaving a call closes the thread's own record, if it has one, and no other. */
  lemma ExitCloses(cfg: Config, m: Maps, s: Step)
    requires s.Exit? && s.reserved
    requires s.tgid in m.targets && s.tid in m.inflight ==> Returns(m.inflight[s.tid].id)
    ensures var m' := OnExit(cfg, m, s).maps;
            && m'.inflight == (if s.tgid in m.targets then m.inflight - {s.tid} else m.inflight)
            && forall t :: t != s.tid || s.tgid !in m.targets ==> LookupSnapshot(m', t) == LookupSnapshot(m, t)
  {
    hide EventFor, IsProcessClone;
    assert s.tid !in m.inflight ==> m.inflight - {s.tid} == m.inflight;
  }

  lemma ExitEntry(cfg: Config, f: Maps, u: Maps, s: Step, tid: U32)
    requires s.Exit? && s.reserved && f.targets == u.targets && SameEntry(cfg, f, u, tid)
    requires s.tgid in u.targets ==> SameEntry(cfg, f, u, s.tid)
    requires s.tid in u.inflight && s.tgid in u.targets ==> Returns(u.inflight[s.tid].id)
    ensures SameEntry(cfg, OnExit(cfg, f, s).maps, OnExit(Unfiltered(cfg), u, s).maps, tid)
  {
    hide OnExit;
    ExitCloses(cfg, f, s);
    ExitCloses(Unfiltered(cfg), u, s);
  }

  lemma OtherEntry(cfg: Config, f: Maps, u: Maps, s: Step, tid: U32)
    requires f.targets == u.targets && SameEntry(cfg, f, u, tid) && (s.ProcessExit? || s.EvictSequence?)
    ensures var a, b := Apply(cfg, f, s).maps, Apply(Unfiltered(cfg), u, s).maps;
            SameEntry(cfg, a, b, tid) && a.targets == b.targets <= u.targets
  {
    hide OnEnter, OnExit, IsSelected, Recorded;
  }

  lemma OtherSimilar(cfg: Config, home: Homes, f: Maps, u: Maps, s: Step)
    requires Similar(cfg, home, f, u) && (s.ProcessExit? || s.EvictSequence?)
    ensures Similar(cfg, home, Apply(cfg, f, s).maps, Apply(Unfiltered(cfg), u, s).maps)
  {
    hide OnEnter, OnExit, SameEntry;
    var a, b := Apply(cfg, f, s).maps, Apply(Unfiltered(cfg), u, s).maps;
    forall tid | home(tid) in b.targets ensures SameEntry(cfg, a, b, tid) {
      assert home(tid) in u.targets;
      OtherEntry(cfg, f, u, s, tid);
    }
  }

  lemma StepSimilar(cfg: Config, home: Homes, f: Maps, u: Maps, env: Env, s: Step)
    requires Similar(cfg, home, f, u) && Faithful(Unfiltered(cfg), home, u, env) && Faithful(cfg, home, f, env)
    requires Current(home, u, env) && Proper(cfg.followForks, home, env, s) && Clear(s)
    ensures var a, b := Apply(cfg, f, s), Apply(Unfiltered(cfg), u, s);
            && Similar(cfg, home, a.maps, b.maps)
            && StripNumbers(AsSeq(a.event)) == StripNumbers(SelectedOnly(cfg, AsSeq(b.event)))
  {
    hide OnEnter, OnExit, SameEntry, Faithful, Current, IsSelected;
    if s.Enter? {
      EnterSimilar(cfg, home, f, u, env, s);
    } else if s.Exit? {
      ExitSimilar(cfg, home, f, u, env, s);
      ExitEvents(cfg, home, f, u, env, s);
    } else {
      OtherSimilar(cfg, home, f, u, s);
    }
  }

  /**
   The filtered tracer follows the same processes as the unfiltered one, and
   emits exactly the selected events of its stream, up to their numbers.
   */
  lemma {:induction false} FilteredTracerSimulates(cfg: Config, home: Homes, f: Maps, u: Maps, env: Env, steps: seq<Step>)
    requires Similar(cfg, home, f, u) && Faithful(Unfiltered(cfg), home, u, env) && Faithful(cfg, home, f, env)
    requires Current(home, u, env) && ProperRun(cfg.followForks, home, env, steps)
    requires forall k :: 0 <= k < |steps| ==> Clear(steps[k])
    ensures var a, b := Run(cfg, f, steps), Run(Unfiltered(cfg), u, steps);
            && a.maps.targets == b.maps.targets
            && StripNumbers(a.events) == StripNumbers(SelectedOnly(cfg, b.events))
    decreases |steps|
  {
    hide Apply, Advance, Proper, SameEntry, Faithful, Current;
    if steps != [] {
      var s, rest := steps[0], steps[1..];
      var ucfg := Unfiltered(cfg);
      assert forall k :: 0 <= k < |rest| ==> rest[k] == steps[k + 1];
      StepSimilar(cfg, home, f, u, env, s);
      StepFaithful(cfg, home, f, env, s);
      StepFaithful(ucfg, home, u, env, s);
      StepCurrent(ucfg, home, u, env, s);
      var a, b := Apply(cfg, f, s), Apply(ucfg, u, s);
      FilteredTracerSimulates(cfg, home, a.maps, b.maps, Advance(cfg.followForks, env, s), rest);
      StripAppend(AsSeq(a.event), Run(cfg, a.maps, rest).events);
      SelectedAppend(cfg, AsSeq(b.event), Run(ucfg, b.maps, rest).events);
      StripAppend(SelectedOnly(cfg, AsSeq(b.event)), SelectedOnly(cfg, Run(ucfg, b.maps, rest).events));
    }
  }

  /** From the start, after any number of steps. */
  lemma SimulationFromStart(cfg: Config, home: Homes, targets: set<U32>, steps: seq<Step>)
    requires ProperRun(cfg.followForks, home, Beginning(targets), steps)
    requires forall k :: 0 <= k < |steps| ==> Clear(steps[k])
    ensures var a, b := Run(cfg, Initial(targets), steps), Run(Unfiltered(cfg), Initial(targets), steps);
            && a.maps.targets == b.maps.targets
            && StripNumbers(a.events) == StripNumbers(SelectedOnly(cfg, b.events))
  {
    StartsFaithful(cfg, home, targets);
    StartsFaithful(Unfiltered(cfg), home, targets);
    FilteredTracerSimulates(cfg, home, Initial(targets), Initial(targets), Beginning(targets), steps);
  }
}
