/** The multi-CPU kernel as a state machine: traps, the big kernel lock, dispatch, scheduling
    and context switches (kern/trap.c, kern/spinlock.c, kern/sched.c, kern/env.c), one write to
    shared state at a time, the CPUs interleaved in any way. */
module Smp {
  import opened Mmu
  import opened Envs
  import opened Ipc
  import opened Sched

  // Where a CPU goes once it has the lock, and where it goes when it gives it up.
  datatype Next = Woken | Enter | Start
  datatype Exit = ToUser | ToHalt

  /** What a CPU is about to do. `Trap` is the exchange of cpu_status at the top of trap(),
      `Came` the test of the privilege level, `Entered` the zombie check, `Reap` and `Forget`
      what follows for a zombie, `Decide` the end of trap(), `Switch`, `Adopt` and `Mark` the
      writes of env_run, `Idle` and `Sleep` those of sched_halt. */
  datatype Pc =
    | InUser | Halted | ApStart | Trap(user: bool) | Came(user: bool)
    | LockCheck(next: Next) | LockSpin(next: Next) | LockOwn(next: Next)
    | Entered | Reap | Forget | Dispatch | Decide | Yield
    | Switch(e: nat) | Adopt(e: nat) | Mark(e: nat) | Idle | Sleep | Stuck
    | UnlockCheck(exit: Exit) | UnlockClear(exit: Exit) | UnlockRelease(exit: Exit)
    | Panic

  datatype Lock = Lock(locked: bool, cpu: Option<nat>)

  // `cur` is curenv of the CPU, `halted` tells whether cpu_status is CPU_HALTED.
  datatype Cpu = Cpu(pc: Pc, cur: Option<nat>, halted: bool)

  /** The messages successfully sent to the tenant of a slot, those it has seen on coming back
      from sys_ipc_recv, and whether one is waiting for it to come back. */
  datatype Log = Log(sent: seq<(int, nat)>, seen: seq<(int, nat)>, pending: bool)

  datatype State = State(lock: Lock, cpus: seq<Cpu>, envs: seq<Env>, freeEnvs: seq<nat>, logs: seq<Log>)

  // What the trap handler does for the trapped environment. `Nothing` covers every handler that
  // leaves the environment table alone; a send can be refused on account of its page.
  datatype Op =
    | Nothing
    | GiveUp
    | Exofork
    | SetStatus(id: int, status: Status)
    | Destroy(id: int)
    | Send(id: int, value: nat, refused: bool, page: Option<bv12>)
    | Recv(dstva: nat)

  datatype Action = Tick | Handle(op: Op) | Pick(choice: Choice)

  function Move(s: State, c: nat, pc: Pc): State
    requires c < |s.cpus|
  {
    s.(cpus := s.cpus[c := s.cpus[c].(pc := pc)])
  }

  function SetCur(s: State, c: nat, cur: Option<nat>, pc: Pc): State
    requires c < |s.cpus|
  {
    s.(cpus := s.cpus[c := s.cpus[c].(cur := cur, pc := pc)])
  }

  function SetEnvStatus(s: State, e: nat, status: Status): State {
    if e < |s.envs| then s.(envs := s.envs[e := s.envs[e].(status := status)]) else s
  }

  // the end of env_free
  function Release(s: State, e: nat): State {
    SetEnvStatus(s, e, Free).(freeEnvs := [e] + s.freeEnvs)
  }

  predicate Holding(s: State, c: nat) { s.lock.locked && s.lock.cpu == Some(c) }

  // Where a CPU goes when it owns the lock.
  function Arrive(next: Next): Pc {
    match next case Woken => Came(false) case Enter => Entered case Start => Yield
  }

  function DoOp(s: State, c: nat, cur: nat, op: Op): State
    requires c < |s.cpus| && |s.envs| == |s.logs| == NENV && cur < NENV
  {
    match op
    case Nothing => Move(s, c, Decide)
    case GiveUp => Move(s, c, Yield)
    case Exofork =>
      if s.freeEnvs == [] || s.freeEnvs[0] >= NENV then Move(s, c, Decide)
      else
        var e := s.freeEnvs[0];
        var env := NewTenant(s.envs[e], e, s.envs[cur].id, NotRunnable);
        Move(s.(envs := s.envs[e := env], freeEnvs := s.freeEnvs[1..], logs := s.logs[e := Log([], [], false)]), c,
          Decide)
    case SetStatus(id, status) =>
      var e := Envid2Env(s.envs, cur, id, true);
      if (status != Runnable && status != NotRunnable) || e == None then Move(s, c, Decide)
      else Move(SetEnvStatus(s, e.value, status), c, Decide)
    case Destroy(id) =>
      var e := Envid2Env(s.envs, cur, id, true);
      if e == None then Move(s, c, Decide)
      else if s.envs[e.value].status == Running && e.value != cur then Move(SetEnvStatus(s, e.value, Dying), c, Decide)
      else Move(Release(s, e.value), c, if e.value == cur then Forget else Decide)
    case Send(id, value, refused, page) =>
      var e := Envid2Env(s.envs, cur, id, false);
      if e == None then Move(s, c, Decide)
      else if !s.envs[e.value].recving then Move(s.(envs := Block(s.envs, cur, e.value)), c, Decide)
      else if refused then Move(s, c, Decide)
      else
        var log := s.logs[e.value];
        Move(s.(envs := Deliver(s.envs, cur, e.value, value, page),
                logs := s.logs[e.value := log.(sent := log.sent + [(s.envs[cur].id, value)], pending := true)]), c,
                  Decide)
    case Recv(dstva) =>
      var (envs, ok) := Receive(s.envs, cur, dstva);
      Move(s.(envs := envs), c, if ok then Yield else Decide)
  }

  // The environment returns to user mode and reads what a pending message left in its record.
  function Observe(s: State, e: nat): seq<Log>
    requires e < |s.logs| && e < |s.envs|
  {
    var log := s.logs[e];
    if log.pending then s.logs[e := log.(seen := log.seen + [(s.envs[e].from, s.envs[e].value)], pending := false)]
    else s.logs
  }

  predicate Sized(s: State) {
    |s.envs| == |s.logs| == NENV && forall c :: 0 <= c < |s.cpus| ==> s.cpus[c].cur.Some? ==> s.cpus[c].cur.value < NENV
  }

  /** One step of CPU c. */
  function Step(s: State, c: nat, a: Action): State
    requires Sized(s) && c < |s.cpus|
  {
    var cpu := s.cpus[c];
    var cur := if cpu.cur.Some? then cpu.cur.value else 0;
    match cpu.pc
    case InUser => Move(s, c, Trap(true))
    case Halted => Move(s, c, Trap(false))
    case ApStart => Move(s, c, LockCheck(Start))
    case Trap(user) =>
      s.(cpus := s.cpus[c := cpu.(halted := false, pc := if cpu.halted then LockCheck(Woken) else Came(user))])
    case Came(user) =>
      if !user then Move(s, c, Yield)
      else if cpu.cur.None? then Move(s, c, Panic)
      else Move(s, c, LockCheck(Enter))
    case LockCheck(next) => Move(s, c, if Holding(s, c) then Panic else LockSpin(next))
    case LockSpin(next) =>
      Move(s.(lock := s.lock.(locked := true)), c, if s.lock.locked then LockSpin(next) else LockOwn(next))
    case LockOwn(next) => Move(s.(lock := s.lock.(cpu := Some(c))), c, Arrive(next))
    case Entered => Move(s, c, if cpu.cur.Some? && s.envs[cur].status == Dying then Reap else Dispatch)
    case Reap => Move(Release(s, cur), c, Forget)
    case Forget => SetCur(s, c, None, Yield)
    case Dispatch => if a.Handle? && cpu.cur.Some? then DoOp(s, c, cur, a.op) else s
    case Decide => Move(s, c, if cpu.cur.Some? && s.envs[cur].status == Running then Switch(cur) else Yield)
    case Yield =>
      if !a.Pick? then s
      else Move(s, c, match a.choice case Run(e) => Switch(e) case Halt => Idle case Monitor => Stuck)
    case Switch(e) =>
      if cpu.cur == Some(e) then Move(s, c, UnlockCheck(ToUser))
      else Move(if cpu.cur.Some? && s.envs[cur].status == Running then SetEnvStatus(s, cur, Runnable) else s, c,
        Adopt(e))
    case Adopt(e) => SetCur(s, c, if e < NENV then Some(e) else None, Mark(e))
    case Mark(e) => Move(SetEnvStatus(s, e, Running), c, UnlockCheck(ToUser))
    case Idle => SetCur(s, c, None, Sleep)
    case Sleep => s.(cpus := s.cpus[c := cpu.(halted := true, pc := UnlockCheck(ToHalt))])
    case UnlockCheck(exit) => Move(s, c, if Holding(s, c) then UnlockClear(exit) else Panic)
    case UnlockClear(exit) => Move(s.(lock := s.lock.(cpu := None)), c, UnlockRelease(exit))
    case UnlockRelease(exit) =>
      var s1 := s.(lock := s.lock.(locked := false));
      if exit == ToUser then Move(if cpu.cur.Some? then s1.(logs := Observe(s, cur)) else s1, c, InUser)
      else Move(s1, c, Halted)
    case Stuck => s
    case Panic => s
  }

  // Environment e is the i-th waiting in the ring of slot r.
  predicate Waits(envs: seq<Env>, r: nat, i: nat, e: nat) {
    && r < |envs| && e < |envs| && RingFormed(envs[r]) && i < |Queue(envs[r])|
    && Queue(envs[r])[i] == envs[e].id && envs[e].status != Free
  }

  /** Slot e may be given the status: a caller may block itself, an environment that neither runs
      nor dies may be blocked, and it may be made runnable if it waits neither for a message nor
      in a ring. fork uses the call on a fresh child only. */
  ghost predicate MaySet(envs: seq<Env>, cur: nat, e: nat, status: Status)
    requires e < |envs|
  {
    || (e == cur && status == NotRunnable)
    || (envs[e].status != Running && envs[e].status != Dying
        && (status == NotRunnable || (!envs[e].recving && forall r, i :: !Waits(envs, r, i, e))))
  }

  /** The assumptions on a run: sched_yield picks as module Sched says; sys_env_set_status is
      used only as MaySet says; nobody destroys an environment that is already dying; and no
      identifier is handed out again while it still stands in a ring. */
  ghost predicate Allowed(s: State, c: nat, a: Action)
    requires Sized(s)
  {
    && c < |s.cpus|
    && match s.cpus[c].pc
       case Stuck => false
       case Panic => false
       case Yield => a.Pick? && Picks(s.envs, s.cpus[c].cur, a.choice)
       case Dispatch => a.Handle? && s.cpus[c].cur.Some? && OpAllowed(s, s.cpus[c].cur.value, a.op)
       case _ => a.Tick?
  }

  ghost predicate OpAllowed(s: State, cur: nat, op: Op)
    requires Sized(s) && cur < NENV
  {
    match op
    case SetStatus(id, status) =>
      var e := Envid2Env(s.envs, cur, id, true);
      (status == Runnable || status == NotRunnable) && e.Some? ==> MaySet(s.envs, cur, e.value, status)
    case Destroy(id) =>
      var e := Envid2Env(s.envs, cur, id, true);
      e.Some? ==> s.envs[e.value].status != Dying
    case Exofork =>
      s.freeEnvs != [] && s.freeEnvs[0] < NENV ==>
        forall r: nat, i: nat :: r < NENV && RingFormed(s.envs[r]) && i < |Queue(s.envs[r])| ==>
          Queue(s.envs[r])[i] != NextId(s.envs[s.freeEnvs[0]].id, s.freeEnvs[0])
    case _ => true
  }
}
