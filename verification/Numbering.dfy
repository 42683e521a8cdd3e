/** The numbers a thread's events carry. */
module Numbering {
  import opened Base
  import opened Events
  import opened TracerSpec
  import opened TracerTheorems

  /** The numbers of a thread's events, in order of emission. */
  function Numbers(events: seq<Event>, tid: U32): seq<U32>
  {
    if events == [] then []
    else (if events[0].tid == tid then [events[0].seqno] else []) + Numbers(events[1..], tid)
  }

  ghost predicate IncreasingAbove(last: int, numbers: seq<U32>)
  {
    && (forall i :: 0 <= i < |numbers| ==> last < numbers[i])
    && (forall i, j :: 0 <= i < j < |numbers| ==> numbers[i] < numbers[j])
  }

  function Enters(steps: seq<Step>, tid: U32): nat
  {
    if steps == [] then 0
    else (if steps[0].Enter? && steps[0].tid == tid then 1 else 0) + Enters(steps[1..], tid)
  }

  /** The thread's numbering is not reset: it does not exit, and its number is not evicted. */
  predicate KeepsNumber(m: Maps, s: Step, tid: U32)
  {
    match s
    case Exit(_, t, _, _, _, _) => t == tid && tid in m.inflight ==> m.inflight[tid].id != SYS_EXIT && m.inflight[tid].id != SYS_EXIT_GROUP
    case ProcessExit(_, t) => t != tid
    case EvictSequence(t) => t != tid
    case _ => true
  }

  ghost predicate KeepsNumbering(cfg: Config, m: Maps, steps: seq<Step>, tid: U32)
    decreases |steps|
  {
    steps == [] ||
    (KeepsNumber(m, steps[0], tid) && KeepsNumbering(cfg, Apply(cfg, m, steps[0]).maps, steps[1..], tid))
  }

  /** An open record has a number not reported yet; no number was reported that was not given. */
  predicate Fresh(m: Maps, tid: U32, last: nat)
  {
    last <= Given(m, tid) && (tid in m.inflight ==> last < m.inflight[tid].seqno <= Given(m, tid))
  }

  lemma StepFresh(cfg: Config, m: Maps, s: Step, tid: U32, last: nat)
    requires Fresh(m, tid, last) && KeepsNumber(m, s, tid)
    requires Given(m, tid) + (if s.Enter? && s.tid == tid then 1 else 0) < TWO_32
    ensures var r := Apply(cfg, m, s);
            var mine := r.event.Some? && r.event.value.tid == tid;
            && Given(r.maps, tid) <= Given(m, tid) + (if s.Enter? && s.tid == tid then 1 else 0)
            && (mine ==> last < r.event.value.seqno)
            && Fresh(r.maps, tid, if mine then r.event.value.seqno else last)
  {
    hide EventFor, Packing.ExecveSnapshot, ShouldTrackUnselected, IsProcessClone;
    if s.Exit? && s.tid in m.inflight {
      EventHeader(cfg, m.inflight[s.tid], LookupSnapshot(TrackChild(cfg, m, m.inflight[s.tid], s.ret, s.mem), s.tid), s);
    }
  }

  /**
   Short of a wrap at 2^32 and of a reset, the numbers of a thread's events
   increase strictly, whatever is lost: no recorded call is reported twice.
   */
  lemma {:induction false} NumbersIncrease(cfg: Config, m: Maps, steps: seq<Step>, tid: U32, last: nat)
    requires Fresh(m, tid, last) && KeepsNumbering(cfg, m, steps, tid)
    requires Given(m, tid) + Enters(steps, tid) < TWO_32
    ensures IncreasingAbove(last, Numbers(Run(cfg, m, steps).events, tid))
    decreases |steps|
  {
    hide Apply, KeepsNumber, Fresh;
    if steps != [] {
      var s, rest := steps[0], steps[1..];
      var r := Apply(cfg, m, s);
      StepFresh(cfg, m, s, tid, last);
      var mine := r.event.Some? && r.event.value.tid == tid;
      var last' := if mine then r.event.value.seqno else last;
      NumbersIncrease(cfg, r.maps, rest, tid, last');
      var tail := Run(cfg, r.maps, rest).events;
      var all := AsSeq(r.event) + tail;
      assert r.event.Some? ==> all[1..] == tail;
      assert r.event.None? ==> all == tail;
    }
  }
}
