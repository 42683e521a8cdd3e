/**
 The environment of the tracer: what the threads and the kernel really do, without
 the tracer's maps and checks.  Each thread enters and leaves one call at a time; a
 process is followed from when a followed process made it until its leader exits.
 */
module Threads {
  import opened Base
  import opened Events
  import opened Memory
  import opened TracerSpec

  /** The process of each thread; a process is named after its leader. */
  type Homes = h: U32 -> U32 | forall t: U32 :: h(h(t)) == h(t) witness t => t

  /** A call as the thread made it, with the memory it was made in. */
  datatype Call = Call(ts: U64, id: I64, args: Args, mem: Mem)

  /** followed: the thread's process was followed when the call was made. */
  datatype Phase = Idle | InCall(call: Call, followed: bool)

  /** Threads not in the map have not been seen, or have exited. */
  datatype Env = Env(threads: map<U32, Phase>, live: set<U32>, dropped: set<U32>)

  function Beginning(targets: set<U32>): Env
  {
    Env(map[], targets, {})
  }

  /** exit and exit_group do not return. */
  predicate Returns(id: I64)
  {
    id != SYS_EXIT && id != SYS_EXIT_GROUP
  }

  // ---------------------------------------------------------------------
  // What a call makes

  datatype Product = Nothing | Thread | Process

  /** CLONE_THREAD is bit 16 of the flags: of what the word leaves over 2^17, it is the upper half. */
  function FlagsProduct(flags: U64): Product
  {
    if flags % 0x2_0000 >= 0x1_0000 then Thread else Process
  }

  /** The kernel decides when the call is entered; a clone3 whose flags it cannot read makes nothing. */
  function ProductOf(call: Call): Product
  {
    if call.id == SYS_FORK || call.id == SYS_VFORK then Process
    else if call.id == SYS_CLONE then FlagsProduct(call.args[0])
    else if call.id == SYS_CLONE3 then
      match ReadWord(call.mem, call.args[0])
      case None => Nothing
      case Some(flags) => FlagsProduct(flags)
    else Nothing
  }

  /** The phase of a thread; none if it was not seen. */
  function PhaseOf(env: Env, tid: U32): Option<Phase>
  {
    if tid in env.threads then Some(env.threads[tid]) else None
  }

  predicate InFollowedCall(env: Env, tid: U32)
  {
    tid in env.threads && env.threads[tid].InCall? && env.threads[tid].followed
  }

  /** What a finishing call of a followed process made. */
  function Made(env: Env, s: Step): Product
    requires s.Exit?
  {
    if s.ret > 0 && s.tgid in env.live && InFollowedCall(env, s.tid) then ProductOf(env.threads[s.tid].call) else Nothing
  }

  /** The process a finishing call made, if it is to be followed. */
  function NewProcess(followForks: bool, env: Env, s: Step): set<U32>
    requires s.Exit?
  {
    if followForks && Made(env, s) == Process then {Low32(s.ret)} else {}
  }

  function Advance(followForks: bool, env: Env, s: Step): Env
  {
    match s
    case Enter(tgid, tid, now, id, args, mem) =>
      env.(threads := env.threads[tid := InCall(Call(now, id, args, mem), tgid in env.live)])
    case Exit(_, tid, _, _, _, _) =>
      env.(threads := env.threads[tid := Idle], live := env.live + NewProcess(followForks, env, s))
    case ProcessExit(tgid, tid) =>
      var gone := if tid == tgid && tgid in env.live then {tgid} else {};
      Env(env.threads - {tid}, env.live - gone, env.dropped + gone)
    case _ => env
  }

  /**
   Calls nest properly: a thread enters when it is not in a call and leaves a call
   it is in, unless it was first seen inside one.  exit and exit_group do not
   return, and a thread stays in its process.
   */
  ghost predicate Proper(followForks: bool, home: Homes, env: Env, s: Step)
  {
    match s
    case Enter(tgid, tid, _, _, _, _) =>
      tgid == home(tid) && (PhaseOf(env, tid) == None || PhaseOf(env, tid) == Some(Idle))
    case Exit(tgid, tid, _, _, _, _) =>
      && tgid == home(tid)
      && PhaseOf(env, tid) != Some(Idle)
      && (tid in env.threads ==> Returns(env.threads[tid].call.id) && HonestReturn(env.threads[tid].call, s.ret))
      && FreshNumber(followForks, home, env, s)
    case ProcessExit(tgid, tid) => tgid == home(tid)
    case _ => true
  }

  /** A clone3 whose flags the kernel could not read does not succeed. */
  predicate HonestReturn(call: Call, ret: I64)
  {
    call.id == SYS_CLONE3 && ret > 0 ==> ProductOf(call) != Nothing
  }

  /**
   What a call makes gets a number that no followed process has, a thread belongs to
   its maker's process, and a process to be followed gets a number that no followed
   process had.
   */
  ghost predicate FreshNumber(followForks: bool, home: Homes, env: Env, s: Step)
    requires s.Exit?
  {
    && (Made(env, s) != Nothing ==> Low32(s.ret) !in env.live)
    && (Made(env, s) == Thread ==> home(Low32(s.ret)) == s.tgid)
    && NewProcess(followForks, env, s) !! env.dropped
  }

  ghost predicate ProperRun(followForks: bool, home: Homes, env: Env, steps: seq<Step>)
    decreases |steps|
  {
    steps == [] ||
    (Proper(followForks, home, env, steps[0]) &&
     ProperRun(followForks, home, Advance(followForks, env, steps[0]), steps[1..]))
  }

  function AfterRun(followForks: bool, env: Env, steps: seq<Step>): Env
    decreases |steps|
  {
    if steps == [] then env
    else AfterRun(followForks, Advance(followForks, env, steps[0]), steps[1..])
  }

  // ---------------------------------------------------------------------
  // Assumptions some theorems make about a run

  /** No ring-buffer reservation fails. */
  ghost predicate AllReserved(steps: seq<Step>)
  {
    forall k :: 0 <= k < |steps| ==> steps[k].Exit? ==> steps[k].reserved
  }

  /** No call under way is evicted. */
  ghost predicate NoEviction(steps: seq<Step>)
  {
    forall k :: 0 <= k < |steps| ==> !steps[k].EvictInflight?
  }

  /** A clone3's flags word reads the same at the end of the call as at its beginning. */
  predicate SameFlags(call: Call, mem: Mem)
  {
    call.id == SYS_CLONE3 ==> ReadWord(mem, call.args[0]) == ReadWord(call.mem, call.args[0])
  }

  predicate SteadyStep(env: Env, s: Step)
  {
    s.Exit? && InFollowedCall(env, s.tid) ==> SameFlags(env.threads[s.tid].call, s.mem)
  }

  ghost predicate SteadyRun(followForks: bool, env: Env, steps: seq<Step>)
    decreases |steps|
  {
    steps == [] || (SteadyStep(env, steps[0]) && SteadyRun(followForks, Advance(followForks, env, steps[0]), steps[1..]))
  }

  /** Read at its end, a followed call is taken for what it made. */
  predicate RightVerdict(env: Env, s: Step)
  {
    s.Exit? && s.ret > 0 && s.tgid in env.live && InFollowedCall(env, s.tid) ==>
      var call := env.threads[s.tid].call;
      IsProcessClone(s.mem, call.id, call.args[0]) <==> ProductOf(call) == Process
  }

  ghost predicate RightVerdicts(followForks: bool, env: Env, steps: seq<Step>)
    decreases |steps|
  {
    steps == [] || (RightVerdict(env, steps[0]) && RightVerdicts(followForks, Advance(followForks, env, steps[0]), steps[1..]))
  }
}
