/** What the tracer's hooks keep over whole runs of the threads they watch. */
module TracerTheorems {
  import opened Base
  import opened Events
  import opened Memory
  import opened Packing
  import opened TracerSpec
  import opened Threads

  const FORK_IDS: set<I64> := {SYS_FORK, SYS_VFORK, SYS_CLONE, SYS_CLONE3}

  /** Entering this call is put on record in a followed process. */
  predicate Recorded(cfg: Config, id: I64)
  {
    IsSelected(cfg, id) || (cfg.followForks && id in FORK_IDS)
  }

  /** The zeroed state checked for an unselected call tells exactly the fork family. */
  lemma UnselectedForks(cfg: Config, mem: Mem, id: I64)
    ensures ShouldTrackUnselected(cfg, mem, id) <==> cfg.followForks && id in FORK_IDS
  {
    assert ReadBytes(mem, 0, 8) == None;
    assert !MakesThread(0);
  }

  ghost predicate AllRecorded(cfg: Config)
  {
    forall id: I64 :: Returns(id) ==> Recorded(cfg, id)
  }

  ghost predicate NoneSelected(cfg: Config)
  {
    forall id: I64 :: Returns(id) ==> !IsSelected(cfg, id)
  }

  /** The thread is in the call on this record, made while its process was followed. */
  predicate InRecordedCall(env: Env, tid: U32, d: SyscallData)
  {
    InFollowedCall(env, tid) &&
    var call := env.threads[tid].call;
    call.ts == d.ts && call.id == d.id && call.args == d.args
  }

  // ---------------------------------------------------------------------
  // The record of a call is the call under way

  /** The processes among the followed numbers. */
  ghost function RealTargets(home: Homes, targets: set<U32>): set<U32>
  {
    set p | p in targets && home(p) == p
  }

  /**
   An open record belongs to a process that is followed or was; in a followed one
   it is the call its thread is in.  If every call is recorded, a record whose
   event found no room may be left behind until the next call replaces it.
   */
  ghost predicate Faithful(cfg: Config, home: Homes, m: Maps, env: Env)
  {
    && RealTargets(home, m.targets) <= env.live
    && env.live !! env.dropped
    && (forall tid :: tid in m.inflight ==> FaithfulEntry(cfg, home, m, env, tid))
  }

  ghost predicate FaithfulEntry(cfg: Config, home: Homes, m: Maps, env: Env, tid: U32)
    requires tid in m.inflight
  {
    && (home(tid) in m.targets || home(tid) in env.dropped)
    && (m.inflight[tid].selected <==> IsSelected(cfg, m.inflight[tid].id))
    && (home(tid) in m.targets ==>
          || InRecordedCall(env, tid, m.inflight[tid])
          || (AllRecorded(cfg) && LeftBehind(env, tid)))
  }

  /** The thread is in no call that will return. */
  predicate LeftBehind(env: Env, tid: U32)
  {
    tid in env.threads && (env.threads[tid] == Idle || !Returns(env.threads[tid].call.id))
  }

  /** What is assumed about reservations: none fails, or every call is recorded, or none is reported. */
  ghost predicate Reliable(cfg: Config, s: Step)
  {
    AllRecorded(cfg) || NoneSelected(cfg) || (s.Exit? ==> s.reserved)
  }

  lemma EnterFaithful(cfg: Config, home: Homes, m: Maps, env: Env, s: Step)
    requires s.Enter? && Faithful(cfg, home, m, env) && Proper(cfg.followForks, home, env, s)
    ensures Faithful(cfg, home, OnEnter(cfg, m, s), Advance(cfg.followForks, env, s))
  {
    hide OnEnter, FaithfulEntry, AllRecorded;
    var m', env' := OnEnter(cfg, m, s), Advance(cfg.followForks, env, s);
    EnterRecords(cfg, m, s);
    forall tid | tid in m'.inflight ensures FaithfulEntry(cfg, home, m', env', tid) {
      EnterFaithfulEntry(cfg, home, m, env, s, tid);
    }
  }

  /** Entering a call in a followed process opens a record of it, if it is to be recorded, and no other. */
  lemma EnterRecords(cfg: Config, m: Maps, s: Step)
    requires s.Enter?
    ensures var m' := OnEnter(cfg, m, s);
            && m'.targets == m.targets
            && (forall t :: t != s.tid ==> Given(m', t) == Given(m, t))
            && (forall t :: t != s.tid ==> (t in m'.inflight <==> t in m.inflight) && (t in m.inflight ==> m'.inflight[t] == m.inflight[t]))
            && if s.tgid in m.targets && Recorded(cfg, s.id) then
                 && s.tid in m'.inflight
                 && var d := m'.inflight[s.tid];
                    && d.ts == s.now && d.id == s.id && d.args == s.args && d.selected == IsSelected(cfg, s.id)
                    && d.seqno == (if Given(m, s.tid) < 0xffff_ffff then Given(m, s.tid) + 1 else 0)
                    && Given(m', s.tid) == d.seqno
               else m'.inflight == m.inflight
  {
    hide ExecveSnapshot, ShouldTrackUnselected, IsSelected, NextSequence;
    UnselectedForks(cfg, s.mem, s.id);
    NextNumber(m, s.tid);
  }

  lemma NextNumber(m: Maps, tid: U32)
    ensures NextSequence(m, tid) == if Given(m, tid) < 0xffff_ffff then Given(m, tid) + 1 else 0
  {
  }

  lemma EnterFaithfulEntry(cfg: Config, home: Homes, m: Maps, env: Env, s: Step, tid: U32)
    requires s.Enter? && Faithful(cfg, home, m, env) && Proper(cfg.followForks, home, env, s)
    requires tid in OnEnter(cfg, m, s).inflight
    ensures FaithfulEntry(cfg, home, OnEnter(cfg, m, s), Advance(cfg.followForks, env, s), tid)
  {
    hide OnEnter, IsSelected, Recorded;
    EnterRecords(cfg, m, s);
    assert AllRecorded(cfg) && Returns(s.id) ==> Recorded(cfg, s.id);
    assert s.tgid in m.targets ==> s.tgid in RealTargets(home, m.targets);
    assert tid in m.inflight ==> FaithfulEntry(cfg, home, m, env, tid);
  }

  /** The tracer's test is the one bit, whatever the bits above and below. */
  lemma ThreadBit(hi: nat, lo: nat)
    requires lo < 0x1_0000 && 0x2_0000 * hi + 0x1_0000 + lo < TWO_64
    ensures MakesThread(0x2_0000 * hi + 0x1_0000 + lo) && FlagsProduct(0x2_0000 * hi + 0x1_0000 + lo) == Thread
    ensures !MakesThread(0x2_0000 * hi + lo) && FlagsProduct(0x2_0000 * hi + lo) == Process
  {
    Bit16(hi, 0x1_0000 + lo);
    Bit16(hi, lo);
  }

  lemma Bit16(hi: nat, rest: nat)
    requires rest < 0x2_0000
    ensures (0x2_0000 * hi + rest) % 0x2_0000 == rest
    ensures (0x2_0000 * hi + rest) / 0x1_0000 == 2 * hi + (if rest < 0x1_0000 then 0 else 1)
  {
  }

  /** Every word is of one of the two forms, so the tracer's test agrees with the kernel's. */
  lemma SameBit(flags: U64)
    ensures FlagsProduct(flags) == if MakesThread(flags) then Thread else Process
  {
    var hi, rest := flags / 0x2_0000, flags % 0x2_0000;
    assert flags == 0x2_0000 * hi + rest;
    Bit16(hi, rest);
  }

  /**
   What the tracer makes of a successful call, against what the call made: it never
   takes for a process what made nothing, and with clone3's flags word left alone it
   tells processes from threads.
   */
  lemma VerdictOf(call: Call, mem: Mem, ret: I64)
    requires ret > 0 && HonestReturn(call, ret)
    ensures IsProcessClone(mem, call.id, call.args[0]) ==> ProductOf(call) != Nothing
    ensures SameFlags(call, mem) ==> (IsProcessClone(mem, call.id, call.args[0]) <==> ProductOf(call) == Process)
  {
    hide ReadWord, MakesThread, FlagsProduct;
    SameBit(call.args[0]);
    if ReadWord(mem, call.args[0]).Some? {
      SameBit(ReadWord(mem, call.args[0]).value);
    }
  }

  /** A process that the tracer begins to follow is one to be followed; other numbers are not processes. */
  lemma AddedTarget(cfg: Config, home: Homes, m: Maps, env: Env, s: Step)
    requires s.Exit? && Faithful(cfg, home, m, env) && Proper(cfg.followForks, home, env, s)
    requires s.tgid in m.targets && s.tid in m.inflight
    ensures var d := m.inflight[s.tid];
            && InRecordedCall(env, s.tid, d)
            && forall n :: n in TrackChild(cfg, m, d, s.ret, s.mem).targets && n !in m.targets ==>
                 n in NewProcess(cfg.followForks, env, s) || home(n) != n
  {
    hide IsProcessClone, ProductOf;
    assert FaithfulEntry(cfg, home, m, env, s.tid);
    assert s.tgid in RealTargets(home, m.targets);
    var d := m.inflight[s.tid];
    if s.ret > 0 {
      VerdictOf(env.threads[s.tid].call, s.mem, s.ret);
    }
  }

  lemma ExitFaithful(cfg: Config, home: Homes, m: Maps, env: Env, s: Step)
    requires s.Exit? && Faithful(cfg, home, m, env) && Proper(cfg.followForks, home, env, s) && Reliable(cfg, s)
    ensures Faithful(cfg, home, OnExit(cfg, m, s).maps, Advance(cfg.followForks, env, s))
  {
    hide OnExit, FaithfulEntry, Reliable, Made, IsProcessClone;
    var m', env' := OnExit(cfg, m, s).maps, Advance(cfg.followForks, env, s);
    ExitAdds(cfg, home, m, env, s);
    forall p | p in RealTargets(home, m'.targets) ensures p in env'.live {
      assert p in m.targets ==> p in RealTargets(home, m.targets);
    }
    forall tid | tid in m'.inflight ensures FaithfulEntry(cfg, home, m', env', tid) {
      ExitFaithfulEntry(cfg, home, m, env, s, tid);
    }
  }

  /** Leaving a call opens no record and ends the following of nobody. */
  lemma ExitAdds(cfg: Config, home: Homes, m: Maps, env: Env, s: Step)
    requires s.Exit? && Faithful(cfg, home, m, env) && Proper(cfg.followForks, home, env, s)
    ensures var m' := OnExit(cfg, m, s).maps;
            && m'.inflight.Keys <= m.inflight.Keys
            && (forall t :: t in m'.inflight ==> m'.inflight[t] == m.inflight[t])
            && m.targets <= m'.targets
            && forall n :: n in m'.targets && n !in m.targets ==> n in NewProcess(cfg.followForks, env, s) || home(n) != n
  {
    hide EventFor, IsProcessClone, Faithful, Proper, NewProcess;
    if s.tgid in m.targets && s.tid in m.inflight {
      AddedTarget(cfg, home, m, env, s);
      RecordedReturns(cfg, home, m, env, s);
    }
  }

  /** A process that begins to be followed has no open records: it was not followed and is not gone. */
  lemma NewcomerHasNoRecord(cfg: Config, home: Homes, m: Maps, env: Env, s: Step, tid: U32)
    requires s.Exit? && Faithful(cfg, home, m, env) && Proper(cfg.followForks, home, env, s)
    requires home(tid) !in m.targets && home(tid) in OnExit(cfg, m, s).maps.targets
    ensures tid !in m.inflight
  {
    hide OnExit, Made;
    ExitAdds(cfg, home, m, env, s);
    assert home(tid) in NewProcess(cfg.followForks, env, s);
    assert tid in m.inflight ==> FaithfulEntry(cfg, home, m, env, tid);
  }

  lemma RecordedReturns(cfg: Config, home: Homes, m: Maps, env: Env, s: Step)
    requires s.Exit? && Faithful(cfg, home, m, env) && Proper(cfg.followForks, home, env, s)
    requires s.tgid in m.targets && s.tid in m.inflight
    ensures Returns(m.inflight[s.tid].id)
  {
    assert FaithfulEntry(cfg, home, m, env, s.tid);
  }

  lemma ExitFaithfulEntry(cfg: Config, home: Homes, m: Maps, env: Env, s: Step, tid: U32)
    requires s.Exit? && Faithful(cfg, home, m, env) && Proper(cfg.followForks, home, env, s) && Reliable(cfg, s)
    requires tid in OnExit(cfg, m, s).maps.inflight
    ensures FaithfulEntry(cfg, home, OnExit(cfg, m, s).maps, Advance(cfg.followForks, env, s), tid)
  {
    hide OnExit, Made, AllRecorded, NoneSelected, IsSelected, HonestReturn;
    ExitAdds(cfg, home, m, env, s);
    assert FaithfulEntry(cfg, home, m, env, tid);
    if tid == s.tid && home(tid) in m.targets {
      StaysOnlyUnreserved(cfg, m, s);
      if NoneSelected(cfg) {
        RecordedReturns(cfg, home, m, env, s);
        NoneSelectedMeans(cfg, m.inflight[tid].id);
      }
    }
  }

  lemma NoneSelectedMeans(cfg: Config, id: I64)
    requires NoneSelected(cfg) && Returns(id)
    ensures !IsSelected(cfg, id)
  {
  }

  /** A record survives its call only if it was selected and its event found no room. */
  lemma StaysOnlyUnreserved(cfg: Config, m: Maps, s: Step)
    requires s.Exit? && s.tgid in m.targets && s.tid in OnExit(cfg, m, s).maps.inflight
    ensures m.inflight[s.tid].selected && !s.reserved
  {
    hide EventFor, IsProcessClone;
  }

  lemma OtherFaithful(cfg: Config, home: Homes, m: Maps, env: Env, s: Step)
    requires !s.Enter? && !s.Exit? && Faithful(cfg, home, m, env) && Proper(cfg.followForks, home, env, s)
    ensures Faithful(cfg, home, Apply(cfg, m, s).maps, Advance(cfg.followForks, env, s))
  {
    hide OnEnter, OnExit, FaithfulEntry, IsSelected, AllRecorded;
    var m', env' := Apply(cfg, m, s).maps, Advance(cfg.followForks, env, s);
    assert forall p :: p in RealTargets(home, m'.targets) ==> p in RealTargets(home, m.targets);
    forall tid | tid in m'.inflight ensures FaithfulEntry(cfg, home, m', env', tid) {
      OtherFaithfulEntry(cfg, home, m, env, s, tid);
    }
  }

  lemma OtherFaithfulEntry(cfg: Config, home: Homes, m: Maps, env: Env, s: Step, tid: U32)
    requires !s.Enter? && !s.Exit? && Faithful(cfg, home, m, env) && Proper(cfg.followForks, home, env, s)
    requires tid in Apply(cfg, m, s).maps.inflight
    ensures FaithfulEntry(cfg, home, Apply(cfg, m, s).maps, Advance(cfg.followForks, env, s), tid)
  {
    hide OnEnter, OnExit, IsSelected, AllRecorded;
    assert FaithfulEntry(cfg, home, m, env, tid);
    assert home(tid) in m.targets ==> home(tid) in RealTargets(home, m.targets);
  }

  lemma StepFaithful(cfg: Config, home: Homes, m: Maps, env: Env, s: Step)
    requires Faithful(cfg, home, m, env) && Proper(cfg.followForks, home, env, s) && Reliable(cfg, s)
    ensures Faithful(cfg, home, Apply(cfg, m, s).maps, Advance(cfg.followForks, env, s))
  {
    hide OnEnter, OnExit, Faithful, Advance, Proper, Reliable;
    match s {
      case Enter(_, _, _, _, _, _) => EnterFaithful(cfg, home, m, env, s);
      case Exit(_, _, _, _, _, _) => ExitFaithful(cfg, home, m, env, s);
      case _ => OtherFaithful(cfg, home, m, env, s);
    }
  }

  // ---------------------------------------------------------------------
  // Pairing

  /**
   The event reports the call its thread was in, with this step's return.  Its clone
   flag tells what the call made, if clone3's flags word was left alone.
   */
  ghost predicate PairedEvent(env: Env, s: Step, ev: Event)
  {
    && s.Exit? && ev.ret == s.ret && ev.pid == s.tgid && ev.tid == s.tid
    && InFollowedCall(env, s.tid)
    && var call := env.threads[s.tid].call;
       && ev.ts == call.ts && ev.id == call.id && ev.args == call.args
       && ev.dur == Elapsed(s.now, call.ts) && (call.ts <= s.now ==> ev.dur == s.now - call.ts)
       && (SameFlags(call, s.mem) ==> (CreatesProcess(ev) <==> s.ret > 0 && ProductOf(call) == Process))
  }

  /** Every event emitted on the way is paired. */
  ghost predicate PairedRun(cfg: Config, m: Maps, env: Env, steps: seq<Step>)
    decreases |steps|
  {
    steps == [] ||
    (var r := Apply(cfg, m, steps[0]);
     && (r.event.Some? ==> PairedEvent(env, steps[0], r.event.value))
     && PairedRun(cfg, r.maps, Advance(cfg.followForks, env, steps[0]), steps[1..]))
  }

  lemma EventHeader(cfg: Config, call: SyscallData, snap: Option<Snapshot>, s: Step)
    requires s.Exit?
    ensures var ev := EventFor(cfg, call, snap, s);
            && ev.ts == call.ts && ev.id == call.id && ev.args == call.args && ev.ret == s.ret
            && ev.pid == s.tgid && ev.tid == s.tid && ev.seqno == call.seqno
            && ev.dur == Elapsed(s.now, ev.ts) && (call.ts <= s.now ==> ev.dur == s.now - call.ts)
            && (CreatesProcess(ev) <==> s.ret > 0 && IsProcessClone(s.mem, call.id, call.args[0]))
  {
    hide Captured, IsProcessClone;
  }

  lemma StepPaired(cfg: Config, home: Homes, m: Maps, env: Env, s: Step)
    requires Faithful(cfg, home, m, env) && Proper(cfg.followForks, home, env, s)
    ensures var r := Apply(cfg, m, s); r.event.Some? ==> PairedEvent(env, s, r.event.value)
  {
    hide EventFor, IsProcessClone, OnEnter, ProductOf, SameFlags;
    if s.Exit? && s.tid in m.inflight {
      assert FaithfulEntry(cfg, home, m, env, s.tid);
      var call := m.inflight[s.tid];
      var m1 := TrackChild(cfg, m, call, s.ret, s.mem);
      EventHeader(cfg, call, LookupSnapshot(m1, s.tid), s);
      if s.ret > 0 && InFollowedCall(env, s.tid) {
        VerdictOf(env.threads[s.tid].call, s.mem, s.ret);
      }
    }
  }

  /** Pairing holds whenever records can be trusted, whatever is evicted. */
  lemma {:induction false} Pairing(cfg: Config, home: Homes, m: Maps, env: Env, steps: seq<Step>)
    requires Faithful(cfg, home, m, env) && ProperRun(cfg.followForks, home, env, steps)
    requires AllRecorded(cfg) || NoneSelected(cfg) || AllReserved(steps)
    ensures PairedRun(cfg, m, env, steps)
    decreases |steps|
  {
    hide Apply;
    if steps != [] {
      var s, rest := steps[0], steps[1..];
      assert forall k :: 0 <= k < |rest| ==> rest[k] == steps[k + 1];
      StepPaired(cfg, home, m, env, s);
      StepFaithful(cfg, home, m, env, s);
      Pairing(cfg, home, Apply(cfg, m, s).maps, Advance(cfg.followForks, env, s), rest);
    }
  }

  lemma StartsFaithful(cfg: Config, home: Homes, targets: set<U32>)
    ensures Faithful(cfg, home, Initial(targets), Beginning(targets))
  {
  }

  /** Every run of properly behaving threads is paired, whichever reservations fail. */
  ghost predicate AlwaysPaired(cfg: Config, home: Homes)
  {
    forall targets: set<U32>, steps: seq<Step> ::
      ProperRun(cfg.followForks, home, Beginning(targets), steps) ==> PairedRun(cfg, Initial(targets), Beginning(targets), steps)
  }

  const NO_MEMORY: Mem := map[]

  const NO_ARGS: Args := [0, 0, 0, 0, 0, 0]

  /** A selected call whose event finds no room, then an unrecorded one. */
  function LostThenUnrecorded(tgid: U32, tid: U32, a: I64, b: I64): seq<Step>
  {
    [Enter(tgid, tid, 0, a, NO_ARGS, NO_MEMORY), Exit(tgid, tid, 1, 0, NO_MEMORY, false),
     Enter(tgid, tid, 2, b, NO_ARGS, NO_MEMORY), Exit(tgid, tid, 3, 0, NO_MEMORY, true)]
  }

  /** The second call's return is reported as the first call's. */
  lemma LostEventMispairs(cfg: Config, home: Homes, tid: U32, a: I64, b: I64)
    requires Returns(a) && Returns(b) && IsSelected(cfg, a) && !Recorded(cfg, b)
    ensures var steps := LostThenUnrecorded(home(tid), tid, a, b);
            && ProperRun(cfg.followForks, home, Beginning({home(tid)}), steps)
            && !PairedRun(cfg, Initial({home(tid)}), Beginning({home(tid)}), steps)
  {
    hide IsProcessClone, ExecveSnapshot, Captured;
    var tgid := home(tid);
    var steps := LostThenUnrecorded(tgid, tid, a, b);
    var f, m0, e0 := cfg.followForks, Initial({tgid}), Beginning({tgid});
    var m1, e1 := Apply(cfg, m0, steps[0]).maps, Advance(f, e0, steps[0]);
    UnselectedForks(cfg, NO_MEMORY, b);
    assert m1.inflight[tid] == SyscallData(0, a, NO_ARGS, 1, true) && m1.targets == {tgid};
    assert e1.threads[tid] == InCall(Call(0, a, NO_ARGS, NO_MEMORY), true);
    var m2, e2 := Apply(cfg, m1, steps[1]).maps, Advance(f, e1, steps[1]);
    assert m2 == m1 && e2.threads[tid] == Idle && e2.live == {tgid};
    var m3, e3 := Apply(cfg, m2, steps[2]).maps, Advance(f, e2, steps[2]);
    assert m3 == m2 && e3.threads[tid] == InCall(Call(2, b, NO_ARGS, NO_MEMORY), true) && e3.live == {tgid};
    var r := Apply(cfg, m3, steps[3]);
    EventHeader(cfg, m3.inflight[tid], LookupSnapshot(m3, tid), steps[3]);
    assert r.event.Some? && r.event.value.ts == 0;
    assert !PairedEvent(e3, steps[3], r.event.value);
    UnfoldFour(cfg, home, steps, m0, e0);
  }

  lemma UnfoldFour(cfg: Config, home: Homes, steps: seq<Step>, m0: Maps, e0: Env)
    requires |steps| == 4
    ensures var f := cfg.followForks;
            var m1, e1 := Apply(cfg, m0, steps[0]).maps, Advance(f, e0, steps[0]);
            var m2, e2 := Apply(cfg, m1, steps[1]).maps, Advance(f, e1, steps[1]);
            var m3, e3 := Apply(cfg, m2, steps[2]).maps, Advance(f, e2, steps[2]);
            var last := Apply(cfg, m3, steps[3]).event;
            && (ProperRun(f, home, e0, steps) <==>
                Proper(f, home, e0, steps[0]) && Proper(f, home, e1, steps[1]) &&
                Proper(f, home, e2, steps[2]) && Proper(f, home, e3, steps[3]))
            && (PairedRun(cfg, m0, e0, steps) ==> last.Some? ==> PairedEvent(e3, steps[3], last.value))
  {
    hide Apply, Advance, Proper, PairedEvent;
    var f := cfg.followForks;
    var m1, e1 := Apply(cfg, m0, steps[0]).maps, Advance(f, e0, steps[0]);
    var m2, e2 := Apply(cfg, m1, steps[1]).maps, Advance(f, e1, steps[1]);
    var m3, e3 := Apply(cfg, m2, steps[2]).maps, Advance(f, e2, steps[2]);
    var one, two, three := steps[1..], steps[2..], steps[3..];
    assert one[1..] == two && two[1..] == three && three[1..] == [];
    assert ProperRun(f, home, Advance(f, e3, steps[3]), three[1..]);
    assert ProperRun(f, home, e3, three) <==> Proper(f, home, e3, steps[3]);
    assert ProperRun(f, home, e2, two) <==> Proper(f, home, e2, steps[2]) && ProperRun(f, home, e3, three);
    assert ProperRun(f, home, e1, one) <==> Proper(f, home, e1, steps[1]) && ProperRun(f, home, e2, two);
    assert PairedRun(cfg, m2, e2, two) ==> PairedRun(cfg, m3, e3, three);
    assert PairedRun(cfg, m1, e1, one) ==> PairedRun(cfg, m2, e2, two);
  }

  /**
   Pairing survives arbitrary reservation failures exactly when every returning
   call is recorded (as it is with the trace filter off), or no returning call is
   reported at all.
   */
  lemma PairedExactly(cfg: Config, home: Homes)
    ensures AlwaysPaired(cfg, home) <==> AllRecorded(cfg) || NoneSelected(cfg)
    ensures !cfg.filterEnabled ==> AllRecorded(cfg)
  {
    hide PairedRun, ProperRun;
    if AllRecorded(cfg) || NoneSelected(cfg) {
      forall targets: set<U32>, steps: seq<Step> | ProperRun(cfg.followForks, home, Beginning(targets), steps)
        ensures PairedRun(cfg, Initial(targets), Beginning(targets), steps)
      {
        StartsFaithful(cfg, home, targets);
        Pairing(cfg, home, Initial(targets), Beginning(targets), steps);
      }
    } else {
      var a: I64 :| Returns(a) && IsSelected(cfg, a);
      var b: I64 :| Returns(b) && !Recorded(cfg, b);
      LostEventMispairs(cfg, home, 1, a, b);
    }
  }

  // ---------------------------------------------------------------------
  // Who is followed

  /** The processes that are followed never exceed the ones that are to be followed. */
  lemma {:induction false} FollowedAreLive(cfg: Config, home: Homes, m: Maps, env: Env, steps: seq<Step>)
    requires Faithful(cfg, home, m, env) && ProperRun(cfg.followForks, home, env, steps)
    requires AllRecorded(cfg) || NoneSelected(cfg) || AllReserved(steps)
    ensures RealTargets(home, Run(cfg, m, steps).maps.targets) <= AfterRun(cfg.followForks, env, steps).live
    ensures Faithful(cfg, home, Run(cfg, m, steps).maps, AfterRun(cfg.followForks, env, steps))
    decreases |steps|
  {
    hide Apply, Advance, Proper;
    if steps != [] {
      var s, rest := steps[0], steps[1..];
      assert forall k :: 0 <= k < |rest| ==> rest[k] == steps[k + 1];
      StepFaithful(cfg, home, m, env, s);
      FollowedAreLive(cfg, home, Apply(cfg, m, s).maps, Advance(cfg.followForks, env, s), rest);
    }
  }

  /** Nobody but the initial targets is followed without -f. */
  lemma {:induction false} OnlyTargetsWithoutForks(env: Env, steps: seq<Step>)
    ensures AfterRun(false, env, steps).live <= env.live
    decreases |steps|
  {
    if steps != [] {
      OnlyTargetsWithoutForks(Advance(false, env, steps[0]), steps[1..]);
    }
  }

  /** Without evictions, every call of a followed thread that makes processes is on record. */
  ghost predicate ForksOnRecord(cfg: Config, m: Maps, env: Env)
  {
    && m.targets == env.live
    && forall tid :: InFollowedCall(env, tid) && Recorded(cfg, env.threads[tid].call.id) ==> tid in m.inflight
  }

  lemma EnterForksOnRecord(cfg: Config, m: Maps, env: Env, s: Step)
    requires s.Enter? && ForksOnRecord(cfg, m, env)
    ensures ForksOnRecord(cfg, OnEnter(cfg, m, s), Advance(cfg.followForks, env, s))
  {
    hide ExecveSnapshot, ShouldTrackUnselected, IsSelected, NextSequence;
    UnselectedForks(cfg, s.mem, s.id);
  }

  /** What the tracer begins to follow when a call ends. */
  function Judged(followForks: bool, env: Env, s: Step): set<U32>
    requires s.Exit?
  {
    if followForks && s.ret > 0 && s.tgid in env.live && InFollowedCall(env, s.tid) &&
       var call := env.threads[s.tid].call; IsProcessClone(s.mem, call.id, call.args[0])
    then {Low32(s.ret)} else {}
  }

  lemma ExitTargets(cfg: Config, home: Homes, m: Maps, env: Env, s: Step)
    requires s.Exit? && Faithful(cfg, home, m, env) && ForksOnRecord(cfg, m, env) && Proper(cfg.followForks, home, env, s)
    ensures OnExit(cfg, m, s).maps.targets == env.live + Judged(cfg.followForks, env, s)
  {
    hide EventFor, MakesThread, ReadWord, IsSelected, ProductOf;
    assert s.tid in m.inflight ==> FaithfulEntry(cfg, home, m, env, s.tid);
  }

  /** It is what is to be followed exactly if the verdict on the call is right. */
  lemma JudgedRight(home: Homes, followForks: bool, env: Env, s: Step)
    requires s.Exit? && Proper(followForks, home, env, s)
    ensures Judged(followForks, env, s) !! env.live && NewProcess(followForks, env, s) !! env.live
    ensures followForks ==> (RightVerdict(env, s) <==> Judged(followForks, env, s) == NewProcess(followForks, env, s))
    ensures !followForks ==> Judged(followForks, env, s) == NewProcess(followForks, env, s) == {}
  {
    hide IsProcessClone, ProductOf;
    if s.ret > 0 && InFollowedCall(env, s.tid) {
      VerdictOf(env.threads[s.tid].call, s.mem, s.ret);
    }
  }

  /** Leaving a call closes no other thread's record. */
  lemma ExitKeepsRecords(cfg: Config, m: Maps, s: Step)
    requires s.Exit?
    ensures m.inflight.Keys - {s.tid} <= OnExit(cfg, m, s).maps.inflight.Keys
  {
    hide EventFor, IsProcessClone;
  }

  /** A step keeps the follow set right exactly if its verdict is right, or nothing is followed. */
  lemma StepForksOnRecord(cfg: Config, home: Homes, m: Maps, env: Env, s: Step)
    requires Faithful(cfg, home, m, env) && ForksOnRecord(cfg, m, env) && Proper(cfg.followForks, home, env, s)
    requires !s.EvictInflight?
    ensures var m', env' := Apply(cfg, m, s).maps, Advance(cfg.followForks, env, s);
            && (!cfg.followForks || RightVerdict(env, s) ==> ForksOnRecord(cfg, m', env'))
            && (cfg.followForks && !RightVerdict(env, s) ==> m'.targets != env'.live)
  {
    hide OnEnter, OnExit, IsSelected, Faithful, NewProcess, Judged, RightVerdict;
    match s {
      case Enter(_, _, _, _, _, _) => EnterForksOnRecord(cfg, m, env, s);
      case Exit(_, _, _, _, _, _) =>
        ExitTargets(cfg, home, m, env, s);
        ExitKeepsRecords(cfg, m, s);
        JudgedRight(home, cfg.followForks, env, s);
      case _ =>
    }
    OnlyExitsJudge(env, s);
  }

  lemma OnlyExitsJudge(env: Env, s: Step)
    ensures !s.Exit? ==> RightVerdict(env, s)
  {
  }

  /** At every point of the run, the followed numbers are the ones to be followed. */
  ghost predicate FollowsRight(cfg: Config, m: Maps, env: Env, steps: seq<Step>)
    decreases |steps|
  {
    m.targets == env.live &&
    (steps == [] || FollowsRight(cfg, Apply(cfg, m, steps[0]).maps, Advance(cfg.followForks, env, steps[0]), steps[1..]))
  }

  /**
   Without evictions the followed numbers are, all along, exactly the ones to be
   followed: the initial targets and, with -f, the processes (never the threads) made
   by followed ones, as long as their leader lives; with -f if and only if every call
   is taken at its end for what it made.
   */
  lemma {:induction false} FollowedRightExactly(cfg: Config, home: Homes, m: Maps, env: Env, steps: seq<Step>)
    requires Faithful(cfg, home, m, env) && ForksOnRecord(cfg, m, env) && ProperRun(cfg.followForks, home, env, steps)
    requires (AllRecorded(cfg) || NoneSelected(cfg) || AllReserved(steps)) && NoEviction(steps)
    ensures FollowsRight(cfg, m, env, steps) <==> !cfg.followForks || RightVerdicts(cfg.followForks, env, steps)
    decreases |steps|
  {
    hide Apply, Advance, Proper, RightVerdict;
    if steps != [] {
      var s, rest := steps[0], steps[1..];
      assert forall k :: 0 <= k < |rest| ==> rest[k] == steps[k + 1];
      StepForksOnRecord(cfg, home, m, env, s);
      if !cfg.followForks || RightVerdict(env, s) {
        StepFaithful(cfg, home, m, env, s);
        FollowedRightExactly(cfg, home, Apply(cfg, m, s).maps, Advance(cfg.followForks, env, s), rest);
      }
    }
  }

  lemma {:induction false} SteadyIsRight(followForks: bool, home: Homes, env: Env, steps: seq<Step>)
    requires ProperRun(followForks, home, env, steps) && SteadyRun(followForks, env, steps)
    ensures RightVerdicts(followForks, env, steps)
    decreases |steps|
  {
    hide Advance, ProductOf, SameFlags, IsProcessClone;
    if steps != [] {
      var s := steps[0];
      if s.Exit? && s.ret > 0 && InFollowedCall(env, s.tid) {
        VerdictOf(env.threads[s.tid].call, s.mem, s.ret);
      }
      SteadyIsRight(followForks, home, Advance(followForks, env, s), steps[1..]);
    }
  }

  lemma {:induction false} RightAtTheEnd(cfg: Config, m: Maps, env: Env, steps: seq<Step>)
    requires FollowsRight(cfg, m, env, steps)
    ensures Run(cfg, m, steps).maps.targets == AfterRun(cfg.followForks, env, steps).live
    decreases |steps|
  {
    hide Apply, Advance;
    if steps != [] {
      RightAtTheEnd(cfg, Apply(cfg, m, steps[0]).maps, Advance(cfg.followForks, env, steps[0]), steps[1..]);
    }
  }

  /** So they are if clone3's flags words read the same at return as at entry. */
  lemma FollowedExactly(cfg: Config, home: Homes, m: Maps, env: Env, steps: seq<Step>)
    requires Faithful(cfg, home, m, env) && ForksOnRecord(cfg, m, env) && ProperRun(cfg.followForks, home, env, steps)
    requires (AllRecorded(cfg) || NoneSelected(cfg) || AllReserved(steps)) && NoEviction(steps)
    requires SteadyRun(cfg.followForks, env, steps)
    ensures Run(cfg, m, steps).maps.targets == AfterRun(cfg.followForks, env, steps).live
  {
    SteadyIsRight(cfg.followForks, home, env, steps);
    FollowedRightExactly(cfg, home, m, env, steps);
    RightAtTheEnd(cfg, m, env, steps);
  }
}
