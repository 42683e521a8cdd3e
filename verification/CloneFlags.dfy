/**
 clone3 keeps its flags in memory.  The kernel reads them when the call is entered;
 the tracer reads them when it returns, and takes an unreadable word for a process.
 */
module CloneFlags {
  import opened Base
  import opened Events
  import opened Memory
  import opened TracerSpec
  import opened Threads
  import opened TracerTheorems
  import FilterSpec

  function FirstArg(ptr: U64): Args
  {
    [ptr, 0, 0, 0, 0, 0]
  }

  /** A clone3 that makes number n, between two states of the memory. */
  function CloneThenReturn(tgid: U32, tid: U32, ptr: U64, before: Mem, after: Mem, n: U32): seq<Step>
  {
    [Enter(tgid, tid, 0, SYS_CLONE3, FirstArg(ptr), before), Exit(tgid, tid, 1, n, after, true)]
  }

  /**
   For every memory at entry and at return: with -f, number n is followed exactly if
   the word read at return does not say thread, and is to be followed exactly if the
   word at entry does not; the clone flag goes with the former.
   */
  lemma Clone3FollowedExactly(cfg: Config, home: Homes, tid: U32, ptr: U64, before: Mem, after: Mem, n: U32)
    requires cfg.followForks && 0 < n != home(tid) && ReadWord(before, ptr).Some?
    requires FlagsProduct(ReadWord(before, ptr).value) == Thread ==> home(n) == home(tid)
    ensures var steps := CloneThenReturn(home(tid), tid, ptr, before, after, n);
            var start := Beginning({home(tid)});
            var run := Run(cfg, Initial({home(tid)}), steps);
            var live := AfterRun(true, start, steps).live;
            && ProperRun(true, home, start, steps)
            && (n in run.maps.targets <==> IsProcessClone(after, SYS_CLONE3, ptr))
            && (n in live <==> FlagsProduct(ReadWord(before, ptr).value) != Thread)
            && (run.maps.targets == live <==>
                (IsProcessClone(after, SYS_CLONE3, ptr) <==> FlagsProduct(ReadWord(before, ptr).value) != Thread))
            && (IsSelected(cfg, SYS_CLONE3) ==>
                |run.events| == 1 &&
                FilterSpec.ChildOf(run.events[0]) == if IsProcessClone(after, SYS_CLONE3, ptr) then Some(n) else None)
  {
    hide OnEnter, OnExit, ReadWord, MakesThread, EventFor, IsSelected, Proper, IsProcessClone, FilterSpec.ChildOf;
    var tgid := home(tid);
    var steps := CloneThenReturn(tgid, tid, ptr, before, after, n);
    var m0, e0 := Initial({tgid}), Beginning({tgid});
    CloneEntered(cfg, home, tid, ptr, before);
    var m1, e1 := OnEnter(cfg, m0, steps[0]), Advance(true, e0, steps[0]);
    CloneProper(home, e1, tid, ptr, before, after, n);
    CloneReturned(cfg, m1, tgid, tid, ptr, after, n);
    var r, e2 := OnExit(cfg, m1, steps[1]), Advance(true, e1, steps[1]);
    var rest := steps[1..];
    assert rest[1..] == [];
    assert Run(cfg, m1, rest) == Traced(r.maps, AsSeq(r.event));
    assert AfterRun(true, e1, rest) == e2;
    assert ProperRun(true, home, e2, rest[1..]);
    assert ProperRun(true, home, e1, rest);
  }

  lemma CloneEntered(cfg: Config, home: Homes, tid: U32, ptr: U64, before: Mem)
    requires cfg.followForks
    ensures var s := Enter(home(tid), tid, 0, SYS_CLONE3, FirstArg(ptr), before);
            var m1, e0 := OnEnter(cfg, Initial({home(tid)}), s), Beginning({home(tid)});
            && Proper(true, home, e0, s)
            && Advance(true, e0, s) == Env(map[tid := InCall(Call(0, SYS_CLONE3, FirstArg(ptr), before), true)], {home(tid)}, {})
            && m1.targets == {home(tid)} && tid in m1.inflight && m1.inflight[tid].id == SYS_CLONE3
            && m1.inflight[tid].args == FirstArg(ptr) && m1.inflight[tid].selected == IsSelected(cfg, SYS_CLONE3)
  {
    hide OnEnter, IsSelected;
    var s := Enter(home(tid), tid, 0, SYS_CLONE3, FirstArg(ptr), before);
    EnterRecords(cfg, Initial({home(tid)}), s);
  }

  lemma CloneProper(home: Homes, env: Env, tid: U32, ptr: U64, before: Mem, after: Mem, n: U32)
    requires 0 < n != home(tid) && ReadWord(before, ptr).Some?
    requires FlagsProduct(ReadWord(before, ptr).value) == Thread ==> home(n) == home(tid)
    requires env == Env(map[tid := InCall(Call(0, SYS_CLONE3, FirstArg(ptr), before), true)], {home(tid)}, {})
    ensures var s := Exit(home(tid), tid, 1, n, after, true);
            && Proper(true, home, env, s)
            && Advance(true, env, s).live == {home(tid)} + (if FlagsProduct(ReadWord(before, ptr).value) == Thread then {} else {n})
  {
    hide ReadWord;
  }

  lemma CloneReturned(cfg: Config, m: Maps, tgid: U32, tid: U32, ptr: U64, after: Mem, n: U32)
    requires cfg.followForks && 0 < n && m.targets == {tgid} && tid in m.inflight
    requires m.inflight[tid].id == SYS_CLONE3 && m.inflight[tid].args == FirstArg(ptr)
    ensures var s := Exit(tgid, tid, 1, n, after, true);
            var r := OnExit(cfg, m, s);
            var verdict := IsProcessClone(after, SYS_CLONE3, ptr);
            && r.maps.targets == {tgid} + (if verdict then {n} else {})
            && (m.inflight[tid].selected ==>
                r.event.Some? && FilterSpec.ChildOf(r.event.value) == if verdict then Some(n) else None)
  {
    hide EventFor, IsProcessClone, IsSelected;
    var s := Exit(tgid, tid, 1, n, after, true);
    var d := m.inflight[tid];
    EventHeader(cfg, d, LookupSnapshot(TrackChild(cfg, m, d, n, after), tid), s);
  }

  /** A word with CLONE_THREAD set, at address 8. */
  const THREAD_FLAGS: Mem := map[8 := 0, 9 := 0, 10 := 1, 11 := 0, 12 := 0, 13 := 0, 14 := 0, 15 := 0]

  lemma ReadOneMore(mem: Mem, ptr: nat, rest: Bytes, all: Bytes)
    requires all != [] && all[1..] == rest
    requires ByteAt(mem, ptr) == Some(all[0]) && ReadBytes(mem, ptr + 1, |rest|) == Some(rest)
    ensures ReadBytes(mem, ptr, |all|) == Some(all)
  {
    assert [all[0]] + rest == all;
  }

  lemma ReadNothing(mem: Mem, ptr: nat)
    ensures ReadBytes(mem, ptr, 0) == Some([])
  {
  }

  lemma ThreadFlagsTail()
    ensures ReadBytes(THREAD_FLAGS, 11, 5) == Some([0, 0, 0, 0, 0])
  {
    hide ReadBytes;
    var m := THREAD_FLAGS;
    ReadNothing(m, 16);
    ReadOneMore(m, 15, [], [0]);
    ReadOneMore(m, 14, [0], [0, 0]);
    ReadOneMore(m, 13, [0, 0], [0, 0, 0]);
    ReadOneMore(m, 12, [0, 0, 0], [0, 0, 0, 0]);
    ReadOneMore(m, 11, [0, 0, 0, 0], [0, 0, 0, 0, 0]);
  }

  lemma ThreadFlagsBytes()
    ensures ReadBytes(THREAD_FLAGS, 8, 8) == Some([0, 0, 1, 0, 0, 0, 0, 0])
  {
    hide ReadBytes;
    var m := THREAD_FLAGS;
    ThreadFlagsTail();
    ReadOneMore(m, 10, [0, 0, 0, 0, 0], [1, 0, 0, 0, 0, 0]);
    ReadOneMore(m, 9, [1, 0, 0, 0, 0, 0], [0, 1, 0, 0, 0, 0, 0]);
    ReadOneMore(m, 8, [0, 1, 0, 0, 0, 0, 0], [0, 0, 1, 0, 0, 0, 0, 0]);
  }

  lemma {:induction false} ZerosAreZero(b: Bytes)
    requires forall k :: 0 <= k < |b| ==> b[k] == 0
    ensures LittleEndian(b) == 0
  {
    if b != [] {
      ZerosAreZero(b[1..]);
    }
  }

  lemma ThirdByte(b: Bytes)
    requires |b| == 8 && b[0] == b[1] == 0 && b[2] == 1 && forall k :: 3 <= k < 8 ==> b[k] == 0
    ensures LittleEndian(b) == 0x10000
  {
    var c := b[1..];
    var d := c[1..];
    ZerosAreZero(d[1..]);
    assert LittleEndian(d) == 1 && LittleEndian(c) == 0x100;
  }

  lemma ThreadFlagsRead()
    ensures ReadWord(THREAD_FLAGS, 8) == Some(0x10000) && FlagsProduct(0x10000) == Thread
    ensures ReadWord(map[], 8) == None
  {
    hide LittleEndian;
    ThreadFlagsBytes();
    ThirdByte([0, 0, 1, 0, 0, 0, 0, 0]);
    assert ByteAt(map[], 8) == None;
  }

  /** A thread whose flags are unreadable at return is followed as a process, and the filter copies its maker's state. */
  lemma UnreadableFlagsFollowAThread(cfg: Config, home: Homes, tid: U32, n: U32)
    requires cfg.followForks && 0 < n != home(tid) && home(n) == home(tid)
    ensures var steps := CloneThenReturn(home(tid), tid, 8, THREAD_FLAGS, map[], n);
            var start := Beginning({home(tid)});
            var run := Run(cfg, Initial({home(tid)}), steps);
            && ProperRun(true, home, start, steps)
            && n in run.maps.targets && n !in AfterRun(true, start, steps).live
            && (IsSelected(cfg, SYS_CLONE3) ==> |run.events| == 1 && FilterSpec.ChildOf(run.events[0]) == Some(n))
  {
    hide Run, AfterRun, ProperRun, ReadWord, MakesThread;
    ThreadFlagsRead();
    Clone3FollowedExactly(cfg, home, tid, 8, THREAD_FLAGS, map[], n);
  }
}
