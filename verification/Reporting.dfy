/** Which calls are reported: the selected ones of followed processes, each when it returns, and no others. */
module Reporting {
  import opened Base
  import opened Events
  import opened Packing
  import opened TracerSpec
  import opened Threads
  import opened TracerTheorems

  /** The filter is off, or the selector map has the low half of the number. */
  predicate Wanted(cfg: Config, id: I64)
  {
    cfg.filterEnabled ==> exists selector: U32 :: selector in cfg.selectors && (id - selector) % 0x1_0000_0000 == 0
  }

  lemma WantedIsSelected(cfg: Config, id: I64)
    ensures Wanted(cfg, id) <==> IsSelected(cfg, id)
  {
    if cfg.filterEnabled {
      if IsSelected(cfg, id) {
        LowHalf(id, Low32(id));
      }
      forall selector: U32 | selector in cfg.selectors && (id - selector) % 0x1_0000_0000 == 0
        ensures IsSelected(cfg, id)
      {
        LowHalf(id, selector);
      }
    }
  }

  lemma LowHalf(id: int, low: U32)
    ensures (id - low) % 0x1_0000_0000 == 0 <==> Low32(id) == low
  {
  }

  /** The step ends a call of a followed process that is to be reported. */
  predicate EndsWantedCall(cfg: Config, env: Env, s: Step)
  {
    && s.Exit? && s.tgid in env.live && InFollowedCall(env, s.tid)
    && Wanted(cfg, env.threads[s.tid].call.id)
  }

  /** Along the run, a step emits an event exactly if it ends such a call. */
  ghost predicate ReportsAll(cfg: Config, m: Maps, env: Env, steps: seq<Step>)
    decreases |steps|
  {
    steps == [] ||
    (var r := Apply(cfg, m, steps[0]);
     && (r.event.Some? <==> EndsWantedCall(cfg, env, steps[0]))
     && ReportsAll(cfg, r.maps, Advance(cfg.followForks, env, steps[0]), steps[1..]))
  }

  lemma ExitReports(cfg: Config, home: Homes, m: Maps, env: Env, s: Step)
    requires s.Exit? && s.reserved && Faithful(cfg, home, m, env) && ForksOnRecord(cfg, m, env)
    requires Proper(cfg.followForks, home, env, s)
    ensures OnExit(cfg, m, s).event.Some? <==> EndsWantedCall(cfg, env, s)
  {
    hide EventFor, IsProcessClone, IsSelected, Wanted, Made, HonestReturn;
    assert s.tid in m.inflight ==> FaithfulEntry(cfg, home, m, env, s.tid);
    if s.tid in env.threads && env.threads[s.tid].InCall? {
      WantedIsSelected(cfg, env.threads[s.tid].call.id);
    }
  }

  lemma StepReports(cfg: Config, home: Homes, m: Maps, env: Env, s: Step)
    requires Faithful(cfg, home, m, env) && ForksOnRecord(cfg, m, env) && Proper(cfg.followForks, home, env, s)
    requires s.Exit? ==> s.reserved
    ensures Apply(cfg, m, s).event.Some? <==> EndsWantedCall(cfg, env, s)
  {
    hide OnExit, OnEnter, ForksOnRecord, Faithful, Proper, EndsWantedCall;
    if s.Exit? {
      ExitReports(cfg, home, m, env, s);
    }
    assert !s.Exit? ==> !EndsWantedCall(cfg, env, s) by {
      OnlyExitsEnd(cfg, env, s);
    }
  }

  lemma OnlyExitsEnd(cfg: Config, env: Env, s: Step)
    ensures EndsWantedCall(cfg, env, s) ==> s.Exit?
  {
  }

  /**
   With room in the ring buffer, no evictions, and processes told from threads, every
   selected call of a followed process is reported when it returns, and nothing else is.
   */
  lemma {:induction false} EveryCallReported(cfg: Config, home: Homes, m: Maps, env: Env, steps: seq<Step>)
    requires Faithful(cfg, home, m, env) && ForksOnRecord(cfg, m, env) && ProperRun(cfg.followForks, home, env, steps)
    requires AllReserved(steps) && NoEviction(steps)
    requires !cfg.followForks || RightVerdicts(cfg.followForks, env, steps)
    ensures ReportsAll(cfg, m, env, steps)
    decreases |steps|
  {
    hide Apply, Advance, Proper, RightVerdict, Faithful, ForksOnRecord, EndsWantedCall;
    if steps != [] {
      var s, rest := steps[0], steps[1..];
      assert forall k :: 0 <= k < |rest| ==> rest[k] == steps[k + 1];
      StepReports(cfg, home, m, env, s);
      StepFaithful(cfg, home, m, env, s);
      StepForksOnRecord(cfg, home, m, env, s);
      EveryCallReported(cfg, home, Apply(cfg, m, s).maps, Advance(cfg.followForks, env, s), rest);
    }
  }

  lemma StartsOnRecord(cfg: Config, targets: set<U32>)
    ensures ForksOnRecord(cfg, Initial(targets), Beginning(targets))
  {
  }

  /** The maps have nothing about the thread. */
  predicate Unknown(m: Maps, tid: U32)
  {
    tid !in m.inflight && tid !in m.snapshots && tid !in m.sequences
  }

  /**
   When a thread of a followed process exits, the maps forget it, and so they do for an
   exit that does return; all other threads keep what they have; the process goes with
   its leader, or with exit_group.
   */
  lemma ExitingThreadIsForgotten(cfg: Config, m: Maps, tgid: U32, tid: U32)
    requires tgid in m.targets
    ensures var m' := Apply(cfg, m, ProcessExit(tgid, tid)).maps;
            && Unknown(m', tid)
            && (forall p :: p in m'.targets <==> p in m.targets && (p == tgid ==> tid != tgid))
            && (forall t :: t != tid ==> SameAbout(m, m', t))
  {
  }

  predicate SameAbout(m: Maps, m': Maps, t: U32)
  {
    && (t in m.inflight <==> t in m'.inflight) && (t in m.inflight ==> m'.inflight[t] == m.inflight[t])
    && (t in m.snapshots <==> t in m'.snapshots) && (t in m.snapshots ==> m'.snapshots[t] == m.snapshots[t])
    && (t in m.sequences <==> t in m'.sequences) && (t in m.sequences ==> m'.sequences[t] == m.sequences[t])
  }

  lemma ReturningExitIsForgotten(cfg: Config, m: Maps, s: Step)
    requires s.Exit? && s.reserved && s.tgid in m.targets && s.tid in m.inflight && m.inflight[s.tid].selected
    requires m.inflight[s.tid].id in {SYS_EXIT, SYS_EXIT_GROUP}
    ensures var m' := Apply(cfg, m, s).maps;
            && Unknown(m', s.tid)
            && (forall t :: t != s.tid ==> SameAbout(m, m', t))
            && (forall p :: p in m'.targets <==> p in m.targets && !(p == s.tgid && m.inflight[s.tid].id == SYS_EXIT_GROUP))
  {
    hide EventFor;
  }

  /**
   What a returning call of a followed process leaves: nothing changes but the targets
   if its event found no room; else its record goes, and an execve's snapshot when it
   was reported; the number last given stays, and so does all of other threads.
   */
  lemma ReturnedCallLeaves(cfg: Config, m: Maps, s: Step)
    requires s.Exit? && s.tgid in m.targets && s.tid in m.inflight && Returns(m.inflight[s.tid].id)
    ensures var m' := Apply(cfg, m, s).maps;
            var d := m.inflight[s.tid];
            && (forall t :: t != s.tid ==> SameAbout(m, m', t))
            && (if d.selected && !s.reserved then SameAbout(m, m', s.tid)
                else
                  && s.tid !in m'.inflight && Given(m', s.tid) == Given(m, s.tid)
                  && LookupSnapshot(m', s.tid) == if d.selected && d.id == SYS_EXECVE then None else LookupSnapshot(m, s.tid))
  {
    hide EventFor, IsProcessClone;
  }
}
