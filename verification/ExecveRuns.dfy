/** What execve events tell, over whole runs: the arguments as they were when the call was made. */
module ExecveRuns {
  import opened Base
  import opened Events
  import opened Memory
  import opened Packing
  import opened RoundTrips
  import opened Argv
  import opened TracerSpec
  import opened Threads
  import opened TracerTheorems

  /** The snapshot of the execve the thread is in, if it was made. */
  function OwnSnapshot(call: Call): Snapshot
  {
    ExecveSnapshot(call.mem, call.args[0], call.args[1])
  }

  /** A recorded execve under way has its own snapshot, or none if snapshots may be evicted. */
  ghost predicate HasOwnSnapshot(home: Homes, m: Maps, env: Env, evicting: bool, tid: U32)
  {
    tid in m.inflight && home(tid) in m.targets && InRecordedCall(env, tid, m.inflight[tid]) && m.inflight[tid].id == SYS_EXECVE ==>
      match LookupSnapshot(m, tid)
      case Some(snap) => snap == OwnSnapshot(env.threads[tid].call)
      case None => evicting
  }

  ghost predicate OwnSnapshots(home: Homes, m: Maps, env: Env, evicting: bool)
  {
    forall tid: U32 :: HasOwnSnapshot(home, m, env, evicting, tid)
  }

  /** The event carries its thread's own snapshot, or the marks of a lost one if snapshots may be evicted. */
  ghost predicate TellsExecve(env: Env, s: Step, ev: Event, evicting: bool)
  {
    ev.id == SYS_EXECVE ==>
      && s.Exit? && InFollowedCall(env, s.tid)
      && (ev == WithSnapshot(ev, OwnSnapshot(env.threads[s.tid].call)) || (evicting && ev == WithVars(ev, LostSnapshot())))
  }

  ghost predicate TellingRun(cfg: Config, m: Maps, env: Env, steps: seq<Step>, evicting: bool)
    decreases |steps|
  {
    steps == [] ||
    (var r := Apply(cfg, m, steps[0]);
     && (r.event.Some? ==> TellsExecve(env, steps[0], r.event.value, evicting))
     && TellingRun(cfg, r.maps, Advance(cfg.followForks, env, steps[0]), steps[1..], evicting))
  }

  // ---------------------------------------------------------------------
  // Each step keeps the snapshots

  lemma EnterSnapshots(cfg: Config, m: Maps, s: Step)
    requires s.Enter?
    ensures var m' := OnEnter(cfg, m, s);
            && (forall t :: t != s.tid ==> LookupSnapshot(m', t) == LookupSnapshot(m, t))
            && (s.id != SYS_EXECVE ==> LookupSnapshot(m', s.tid) == LookupSnapshot(m, s.tid))
            && (s.tgid in m.targets && Recorded(cfg, s.id) && s.id == SYS_EXECVE ==>
                LookupSnapshot(m', s.tid) == Some(ExecveSnapshot(s.mem, s.args[0], s.args[1])))
  {
    hide ExecveSnapshot, ShouldTrackUnselected, IsSelected, NextSequence;
    UnselectedForks(cfg, s.mem, s.id);
  }

  lemma EnterKeepsOwn(cfg: Config, home: Homes, m: Maps, env: Env, s: Step, evicting: bool, tid: U32)
    requires s.Enter? && Faithful(cfg, home, m, env) && Proper(cfg.followForks, home, env, s)
    requires HasOwnSnapshot(home, m, env, evicting, tid)
    ensures HasOwnSnapshot(home, OnEnter(cfg, m, s), Advance(cfg.followForks, env, s), evicting, tid)
  {
    hide OnEnter, IsSelected, Recorded, ExecveSnapshot, Faithful, LookupSnapshot;
    EnterRecords(cfg, m, s);
    EnterSnapshots(cfg, m, s);
    UnrecordedIsOther(cfg, home, m, env, s);
  }

  /** Entering a call that is not recorded leaves no record that looks like it. */
  lemma UnrecordedIsOther(cfg: Config, home: Homes, m: Maps, env: Env, s: Step)
    requires s.Enter? && Faithful(cfg, home, m, env) && Proper(cfg.followForks, home, env, s)
    ensures s.tgid in m.targets && !Recorded(cfg, s.id) && s.tid in m.inflight ==> !Returns(s.id)
  {
    assert s.tid in m.inflight ==> FaithfulEntry(cfg, home, m, env, s.tid);
    assert AllRecorded(cfg) && Returns(s.id) ==> Recorded(cfg, s.id);
  }

  lemma ExitSnapshots(cfg: Config, m: Maps, s: Step)
    requires s.Exit?
    ensures var m' := OnExit(cfg, m, s).maps;
            forall t :: t != s.tid ==> LookupSnapshot(m', t) == LookupSnapshot(m, t)
  {
    hide EventFor, IsProcessClone;
  }

  lemma ExitKeepsOwn(cfg: Config, home: Homes, m: Maps, env: Env, s: Step, evicting: bool, tid: U32)
    requires s.Exit? && Faithful(cfg, home, m, env) && Proper(cfg.followForks, home, env, s)
    requires HasOwnSnapshot(home, m, env, evicting, tid)
    ensures HasOwnSnapshot(home, OnExit(cfg, m, s).maps, Advance(cfg.followForks, env, s), evicting, tid)
  {
    hide OnExit, OwnSnapshot, LookupSnapshot, Faithful, HonestReturn, FreshNumber;
    ExitAdds(cfg, home, m, env, s);
    ExitSnapshots(cfg, m, s);
    if tid in m.inflight && home(tid) !in m.targets && home(tid) in OnExit(cfg, m, s).maps.targets {
      NewcomerHasNoRecord(cfg, home, m, env, s, tid);
    }
  }

  lemma OtherKeepsOwn(cfg: Config, home: Homes, m: Maps, env: Env, s: Step, evicting: bool, tid: U32)
    requires !s.Enter? && !s.Exit? && (s.EvictSnapshot? ==> evicting) && Proper(cfg.followForks, home, env, s)
    requires HasOwnSnapshot(home, m, env, evicting, tid)
    ensures HasOwnSnapshot(home, Apply(cfg, m, s).maps, Advance(cfg.followForks, env, s), evicting, tid)
  {
    hide OnEnter, OnExit, OwnSnapshot;
  }

  lemma StepKeepsOwn(cfg: Config, home: Homes, m: Maps, env: Env, s: Step, evicting: bool)
    requires Faithful(cfg, home, m, env) && Proper(cfg.followForks, home, env, s)
    requires OwnSnapshots(home, m, env, evicting) && (s.EvictSnapshot? ==> evicting)
    ensures OwnSnapshots(home, Apply(cfg, m, s).maps, Advance(cfg.followForks, env, s), evicting)
  {
    hide OnEnter, OnExit, HasOwnSnapshot, Faithful, Proper, Advance;
    forall tid: U32 ensures HasOwnSnapshot(home, Apply(cfg, m, s).maps, Advance(cfg.followForks, env, s), evicting, tid) {
      assert HasOwnSnapshot(home, m, env, evicting, tid);
      match s {
        case Enter(_, _, _, _, _, _) => EnterKeepsOwn(cfg, home, m, env, s, evicting, tid);
        case Exit(_, _, _, _, _, _) => ExitKeepsOwn(cfg, home, m, env, s, evicting, tid);
        case _ => OtherKeepsOwn(cfg, home, m, env, s, evicting, tid);
      }
    }
  }

  // ---------------------------------------------------------------------
  // Every execve event tells

  /** An execve event is its header with a snapshot, or with the marks of a lost one. */
  lemma ExecveEvent(cfg: Config, call: SyscallData, snap: Option<Snapshot>, s: Step)
    requires s.Exit? && call.id == SYS_EXECVE
    ensures var ev := EventFor(cfg, call, snap, s);
            ev == if snap.Some? then WithSnapshot(ev, snap.value) else WithVars(ev, LostSnapshot())
  {
    hide TracerSpec.Captured, IsProcessClone;
  }

  lemma StepTells(cfg: Config, home: Homes, m: Maps, env: Env, s: Step, evicting: bool)
    requires Faithful(cfg, home, m, env) && Proper(cfg.followForks, home, env, s) && OwnSnapshots(home, m, env, evicting)
    ensures var r := Apply(cfg, m, s); r.event.Some? ==> TellsExecve(env, s, r.event.value, evicting)
  {
    hide EventFor, IsProcessClone, OnEnter, ExecveSnapshot, LostSnapshot;
    if s.Exit? && s.tid in m.inflight {
      assert FaithfulEntry(cfg, home, m, env, s.tid);
      assert HasOwnSnapshot(home, m, env, evicting, s.tid);
      var call := m.inflight[s.tid];
      var snap := LookupSnapshot(m, s.tid);
      EventHeader(cfg, call, snap, s);
      if call.id == SYS_EXECVE {
        ExecveEvent(cfg, call, snap, s);
      }
    }
  }

  /** Every execve event of a run carries the arguments its thread passed, read when it entered the call. */
  lemma {:induction false} ExecvesTell(cfg: Config, home: Homes, m: Maps, env: Env, steps: seq<Step>, evicting: bool)
    requires Faithful(cfg, home, m, env) && ProperRun(cfg.followForks, home, env, steps) && OwnSnapshots(home, m, env, evicting)
    requires AllRecorded(cfg) || NoneSelected(cfg) || AllReserved(steps)
    requires evicting || forall k :: 0 <= k < |steps| ==> !steps[k].EvictSnapshot?
    ensures TellingRun(cfg, m, env, steps, evicting)
    decreases |steps|
  {
    hide Apply, Advance, Proper, Faithful, OwnSnapshots, TellsExecve;
    if steps != [] {
      var s, rest := steps[0], steps[1..];
      assert forall k :: 0 <= k < |rest| ==> rest[k] == steps[k + 1];
      StepTells(cfg, home, m, env, s, evicting);
      StepFaithful(cfg, home, m, env, s);
      StepKeepsOwn(cfg, home, m, env, s, evicting);
      ExecvesTell(cfg, home, Apply(cfg, m, s).maps, Advance(cfg.followForks, env, s), rest, evicting);
    }
  }

  lemma StartsWithOwnSnapshots(home: Homes, targets: set<U32>, evicting: bool)
    ensures OwnSnapshots(home, Initial(targets), Beginning(targets), evicting)
  {
  }

  // ---------------------------------------------------------------------
  // And what it tells is read back

  /**
   From an event that tells: the file name the thread passed, cut to 127 bytes, and its
   arguments, all of them if the vector's descriptor has no flag; or, if the snapshot
   was lost, two arguments shown as unreadable.
   */
  lemma ToldArguments(env: Env, s: Step, ev: Event, evicting: bool, name: Bytes, args: seq<Bytes>)
    requires ev.id == SYS_EXECVE && TellsExecve(env, s, ev, evicting)
    requires var call := env.threads[s.tid].call;
             && StringAt(call.mem, call.args[0], name) && call.args[1] != 0
             && VectorAt(call.mem, call.args[1], args)
    ensures FirstDesc(ev, 0).Some? && FirstDesc(ev, 1).Some?
    ensures var d, e := FirstDesc(ev, 0).value, FirstDesc(ev, 1).value;
            var call := env.threads[s.tid].call;
            || (&& VarPayloadSlice(ev, d) == Some(name[..Min(|name|, 127)])
                && VarPayloadSlice(ev, e).Some?
                && var parts := SplitNuls(VarPayloadSlice(ev, e).value);
                   && CutPrefix(parts, args)
                   && (e.flags == VAR_FLAG_NONE <==> EndsAt(call.mem, call.args[1], |args|) && Fits(args, Min(|name|, 127)))
                   && (e.flags == VAR_FLAG_NONE ==> parts == args))
            || (evicting && d.flags == e.flags == VAR_FLAG_READ_ERROR && FormatVar(ev, d) == UnknownShown)
  {
    hide ExecveSnapshot, SplitNuls, CutPrefix, EndsAt, Fits, VectorAt;
    var call := env.threads[s.tid].call;
    if ev == WithSnapshot(ev, OwnSnapshot(call)) {
      FileNameKept(ev, call.mem, call.args[0], call.args[1], name);
      ArgvRoundTrip(ev, call.mem, call.args[0], call.args[1], args);
      NameLengthOf(call.mem, call.args[0], name);
    } else {
      LostShown(ev);
    }
  }

  lemma NameLengthOf(mem: Mem, filename: U64, name: Bytes)
    requires StringAt(mem, filename, name)
    ensures NameLength(mem, filename) == Min(|name|, 127)
  {
    ScanString(mem, filename, name, 128);
    assert ByteAt(mem, filename + |name|) == Some(0) && (|name| > 0 ==> ByteAt(mem, filename + 0) == Some(name[0]));
    assert filename != 0;
  }

  lemma LostShown(ev: Event)
    requires ev == WithVars(ev, LostSnapshot())
    ensures FirstDesc(ev, 0) == Some(VarArgDesc(0, VAR_FLAG_READ_ERROR, 0, 0))
    ensures FirstDesc(ev, 1) == Some(VarArgDesc(1, VAR_FLAG_READ_ERROR, 0, 0))
  {
    assert ev.varDesc == LostSnapshot().descs && ev.varCount == 2;
    assert FirstDesc(ev, 1) == FirstDesc(ev, 1, 1);
  }
}
