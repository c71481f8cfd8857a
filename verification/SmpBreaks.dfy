/** Two runs that leave the limits of sys_env_set_status and lose exclusivity: a parent wakes a
    child that is blocked, and another CPU runs it. If it waits in sys_ipc_recv, a message then
    makes it runnable there; if it waits in the parent's ring, the parent's next sys_ipc_recv
    wakes it again, and it runs on both CPUs. */
module SmpBreaks {
  import opened Mmu
  import opened Envs
  import opened Ipc
  import opened Sched
  import opened Smp
  import opened SmpLock
  import opened SmpTable
  import opened SmpRuns

  // A step of a run that keeps every assumption but the one on sys_env_set_status.
  ghost predicate Loose(s: State, c: nat, a: Action)
    requires Sized(s)
  {
    if c < |s.cpus| && s.cpus[c].pc.Dispatch? && a.Handle? && a.op.SetStatus? then s.cpus[c].cur.Some?
    else Allowed(s, c, a)
  }

  // Taking the steps of es from s on leads to s'.
  ghost predicate Leads(s: State, es: seq<(nat, Action)>, s': State)
    decreases |es|
  {
    if es == [] then s' == s
    else Sized(s) && es[0].0 < |s.cpus| && Loose(s, es[0].0, es[0].1) && Leads(Step(s, es[0].0, es[0].1), es[1..], s')
  }

  lemma {:induction false} Then(s: State, es: seq<(nat, Action)>, t: State, es': seq<(nat, Action)>, u: State)
    requires Leads(s, es, t) && Leads(t, es', u)
    ensures Leads(s, es + es', u)
    decreases |es|
  {
    hide Loose, Step, Sized;
    if es == [] {
      assert es + es' == es';
    } else {
      Then(Step(s, es[0].0, es[0].1), es[1..], t, es', u);
      assert (es + es')[0] == es[0] && (es + es')[1..] == es[1..] + es';
    }
  }

  lemma One(s: State, c: nat, a: Action)
    requires Sized(s) && c < |s.cpus| && Loose(s, c, a)
    ensures Leads(s, [(c, a)], Step(s, c, a))
  {
    hide Loose, Step;
    assert [(c, a)][1..] == [];
    assert Leads(Step(s, c, a), [], Step(s, c, a));
  }

  ghost predicate Reach(s: State, t: State) { exists es :: Leads(s, es, t) }

  lemma ReachOne(b: State, s: State, c: nat, a: Action)
    requires Reach(b, s) && Sized(s) && c < |s.cpus| && Loose(s, c, a)
    ensures Reach(b, Step(s, c, a))
  {
    hide Loose, Step, Leads;
    var es :| Leads(b, es, s);
    One(s, c, a);
    Then(b, es, s, [(c, a)], Step(s, c, a));
  }

  // s with CPU c at pc and the lock as given.
  function At(s: State, c: nat, pc: Pc, lock: Lock): State
    requires c < |s.cpus|
  {
    s.(lock := lock, cpus := s.cpus[c := s.cpus[c].(pc := pc)])
  }

  const FREE := Lock(false, None)

  function HeldBy(c: nat): Lock { Lock(true, Some(c)) }

  // The program points at which a tick moves only the CPU and the lock.
  function Glide(pc: Pc, lock: Lock, c: nat): (Pc, Lock) {
    match pc
    case InUser => (Trap(true), lock)
    case Halted => (Trap(false), lock)
    case LockCheck(next) => (LockSpin(next), lock)
    case LockSpin(next) => (LockOwn(next), lock.(locked := true))
    case LockOwn(next) => (Arrive(next), lock.(cpu := Some(c)))
    case UnlockCheck(exit) => (UnlockClear(exit), lock)
    case UnlockClear(exit) => (UnlockRelease(exit), lock.(cpu := None))
    case _ => (pc, lock)
  }

  predicate Glides(pc: Pc, lock: Lock, c: nat) {
    match pc
    case InUser => true
    case Halted => true
    case LockOwn(_) => true
    case UnlockClear(_) => true
    case LockCheck(_) => lock == FREE
    case LockSpin(_) => !lock.locked
    case UnlockCheck(_) => lock == HeldBy(c)
    case _ => false
  }

  lemma AtAt(s: State, c: nat, pc: Pc, lock: Lock, pc': Pc, lock': Lock)
    requires c < |s.cpus|
    ensures At(At(s, c, pc, lock), c, pc', lock') == At(s, c, pc', lock')
  {}

  lemma AtSized(s: State, c: nat, pc: Pc, lock: Lock)
    requires Sized(s) && c < |s.cpus|
    ensures Sized(At(s, c, pc, lock))
  {}

  lemma Glided(b: State, s: State, c: nat, pc: Pc, lock: Lock)
    requires Sized(s) && c < |s.cpus| && Glides(pc, lock, c) && Reach(b, At(s, c, pc, lock))
    ensures Reach(b, At(s, c, Glide(pc, lock, c).0, Glide(pc, lock, c).1))
  {
    AtSized(s, c, pc, lock);
    var t := At(s, c, pc, lock);
    var (pc', lock') := Glide(pc, lock, c);
    AtAt(s, c, pc, lock, pc', lock');
    hide Reach, DoOp, OpAllowed, Picks;
    assert Step(t, c, Tick) == At(t, c, pc', lock');
    ReachOne(b, t, c, Tick);
  }

  lemma Stays(b: State, s: State, c: nat, pc: Pc, lock: Lock)
    requires c < |s.cpus| && Reach(b, s) && s.cpus[c].pc == pc && s.lock == lock
    ensures Reach(b, At(s, c, pc, lock))
  {
    assert At(s, c, pc, lock) == s;
  }

  /** Taking the lock. */
  lemma Locks(b: State, s: State, c: nat, next: Next)
    requires Sized(s) && c < |s.cpus| && Reach(b, At(s, c, LockCheck(next), FREE))
    ensures Reach(b, At(s, c, Arrive(next), HeldBy(c)))
  {
    hide Reach, At;
    Glided(b, s, c, LockCheck(next), FREE);
    Glided(b, s, c, LockSpin(next), FREE);
    Glided(b, s, c, LockOwn(next), Lock(true, None));
  }

  /** Giving it up, up to its last write. */
  lemma Unlocks(b: State, s: State, c: nat, exit: Exit)
    requires Sized(s) && c < |s.cpus| && Reach(b, At(s, c, UnlockCheck(exit), HeldBy(c)))
    ensures Reach(b, At(s, c, UnlockRelease(exit), Lock(true, None)))
  {
    hide Reach, At;
    Glided(b, s, c, UnlockCheck(exit), HeldBy(c));
    Glided(b, s, c, UnlockClear(exit), HeldBy(c));
  }

  /** The end of trap() for a running environment: back to user mode, the lock free. */
  lemma Returns(b: State, s: State, c: nat)
    requires Sized(s) && c < |s.cpus| && s.cpus[c].cur.Some? && Reach(b, At(s, c, Decide, HeldBy(c)))
    requires s.envs[s.cpus[c].cur.value].status == Running && !s.logs[s.cpus[c].cur.value].pending
    ensures Reach(b, At(s, c, InUser, FREE))
  {
    hide Reach, DoOp, OpAllowed, Picks;
    var e := s.cpus[c].cur.value;
    Ticked(b, s, c, Decide, HeldBy(c), Switch(e), HeldBy(c));
    Ticked(b, s, c, Switch(e), HeldBy(c), UnlockCheck(ToUser), HeldBy(c));
    Unlocks(b, s, c, ToUser);
    Ticked(b, s, c, UnlockRelease(ToUser), Lock(true, None), InUser, FREE);
  }

  // A tick from one program point to another.
  lemma Ticked(b: State, s: State, c: nat, pc: Pc, lock: Lock, pc': Pc, lock': Lock)
    requires Sized(s) && c < |s.cpus| && Reach(b, At(s, c, pc, lock)) && !pc.Yield? && !pc.Dispatch? && !pc.Stuck?
             && !pc.Panic?
    requires Sized(At(s, c, pc, lock)) ==> Step(At(s, c, pc, lock), c, Tick) == At(At(s, c, pc, lock), c, pc', lock')
    ensures Reach(b, At(s, c, pc', lock'))
  {
    hide Reach, Step, DoOp, OpAllowed, Picks;
    AtSized(s, c, pc, lock);
    AtAt(s, c, pc, lock, pc', lock');
    ReachOne(b, At(s, c, pc, lock), c, Tick);
  }

  /** CPU 0 is in the kernel for environment 0, CPU 1 is halted, and environment 1, a child of
      environment 0, is blocked. */
  ghost predicate Scene(s: State) {
    && Sized(s) && s.cpus == [Cpu(Dispatch, Some(0), false), Cpu(Halted, None, true)] && s.lock == HeldBy(0)
    && s.envs[0].status == Running && !s.logs[0].pending && !s.logs[1].pending
    && s.envs[1].status == NotRunnable && s.envs[1].parent == s.envs[0].id
    && s.envs[1].id != 0 && EnvX(s.envs[1].id) == 1
    && forall e :: 2 <= e < NENV ==> s.envs[e].status == Free
  }

  // It waits for a message,
  predicate Receives(s: State) { |s.envs| == NENV && s.envs[1].recving }

  // or is the first in the ring of environment 0.
  predicate Queued(s: State) {
    |s.envs| == NENV && RingFormed(s.envs[0]) && Queue(s.envs[0]) != [] && Queue(s.envs[0])[0] == s.envs[1].id
  }

  const CHILD := 0x1001

  function Tenant(e: nat, queued: bool): Env {
    Env(if e < 2 then 0x1000 + e else 0, if e == 1 then 0x1000 else 0,
      if e == 0 then Running else if e == 1 then NotRunnable else Free,
        e == 1 && !queued, 0, 0, 0, 0, 0, if e == 0 && queued then 1 else 0, seq(MAXIPCWAITING, i => CHILD))
  }

  function SceneState(queued: bool): State {
    State(HeldBy(0), [Cpu(Dispatch, Some(0), false), Cpu(Halted, None, true)],
      seq(NENV, e requires 0 <= e => Tenant(e, queued)), [],
          seq(NENV, e => Log([], [], false)))
  }

  lemma TenantQueue(e: nat, queued: bool)
    ensures RingFormed(Tenant(e, queued)) && Queue(Tenant(e, queued)) == if e == 0 && queued then [CHILD] else []
  {}

  lemma OnlyWaiter(s: State, queued: bool, r: nat, i: nat, e: nat)
    requires s == SceneState(queued) && Waits(s.envs, r, i, e)
    ensures queued && r == 0 && i == 0 && e == 1
  {
    TenantQueue(r, queued);
    assert s.envs[r] == Tenant(r, queued) && s.envs[e] == Tenant(e, queued);
    hide Queue, RingFormed;
  }

  lemma TenantsOk(s: State, queued: bool)
    requires s == SceneState(queued)
    ensures EnvsInv(s.envs, s.freeEnvs)
    ensures forall e :: 0 <= e < NENV ==> s.envs[e] == Tenant(e, queued)
  {
    assert EnvX(CHILD) == 1 && EnvX(0x1000) == 0;
    forall r: nat, i: nat, e: nat | Waits(s.envs, r, i, e)
      ensures queued && r == 0 && i == 0 && e == 1
    {
      OnlyWaiter(s, queued, r, i, e);
    }
    hide Waits;
    forall e | 0 <= e < NENV ensures EnvOk(s.envs[e], e) {
      assert s.envs[e] == Tenant(e, queued);
      TenantQueue(e, queued);
    }
  }

  lemma CpusFit(s: State, queued: bool)
    requires s == SceneState(queued) && forall e :: 0 <= e < NENV ==> s.envs[e] == Tenant(e, queued)
    ensures LockInv(s) && Sized(s) && CursInv(s)
  {
    hide EnvX, Queue;
    assert HolderAt(s, 0) && !HolderAt(s, 1);
    assert RunsAt(s, 0, 0) && !RunsAt(s, 1, 0) && !RunsAt(s, 1, 1);
  }

  /** There are such states among those that satisfy every invariant. */
  lemma SceneExists(queued: bool) returns (s: State)
    ensures Scene(s) && RunInv(s) && if queued then Queued(s) else Receives(s)
  {
    s := SceneState(queued);
    assert EnvX(CHILD) == 1;
    TenantQueue(0, queued);
    TenantsOk(s, queued);
    CpusFit(s, queued);
    hide EnvsInv, LockInv, CursInv, EnvX;
  }

  // Environment 1 with a status, and the two CPUs.
  function Stage(s: State, status: Status, cpu0: Cpu, cpu1: Cpu, lock: Lock): State
    requires |s.envs| == NENV
  {
    s.(lock := lock, envs := s.envs[1 := s.envs[1].(status := status)], cpus := [cpu0, cpu1])
  }

  const USER0 := Cpu(InUser, Some(0), false)
  const USER1 := Cpu(InUser, Some(1), false)

  lemma StageSized(s: State, status: Status, cpu0: Cpu, cpu1: Cpu, lock: Lock)
    requires |s.envs| == |s.logs| == NENV && (cpu0.cur.Some? ==> cpu0.cur.value < NENV)
             && (cpu1.cur.Some? ==> cpu1.cur.value < NENV)
    ensures Sized(Stage(s, status, cpu0, cpu1, lock))
    ensures forall c, pc, lock' :: 0 <= c < 2 ==>
              At(Stage(s, status, cpu0, cpu1, lock), c, pc, lock')
              == Stage(s, status, if c == 0 then cpu0.(pc := pc) else cpu0, if c == 1 then cpu1.(pc := pc) else cpu1,
                lock')
  {
    forall c, pc, lock' | 0 <= c < 2
      ensures At(Stage(s, status, cpu0, cpu1, lock), c, pc, lock')
              == Stage(s, status, if c == 0 then cpu0.(pc := pc) else cpu0, if c == 1 then cpu1.(pc := pc) else cpu1,
                lock')
    {
      assert [cpu0, cpu1][c := [cpu0, cpu1][c].(pc := pc)]
          == [if c == 0 then cpu0.(pc := pc) else cpu0, if c == 1 then cpu1.(pc := pc) else cpu1];
    }
  }

  /** The parent wakes the child. */
  lemma Wakes(s: State)
    requires Scene(s)
    ensures Reach(s, Stage(s, Runnable, USER0, Cpu(Halted, None, true), FREE))
  {
    var a := Handle(SetStatus(s.envs[1].id, Runnable));
    var t := Stage(s, Runnable, Cpu(Decide, Some(0), false), Cpu(Halted, None, true), HeldBy(0));
    assert Leads(s, [], s);
    assert Step(s, 0, a) == t;
    hide Step, Observe;
    ReachOne(s, s, 0, a);
    StageSized(s, Runnable, Cpu(Decide, Some(0), false), Cpu(Halted, None, true), HeldBy(0));
    hide Reach, Loose, At;
    Stays(s, t, 0, Decide, HeldBy(0));
    Returns(s, t, 0);
  }

  /** The other CPU takes it up. */
  lemma TakesUp(b: State, s: State)
    requires Scene(s) && Reach(b, Stage(s, Runnable, USER0, Cpu(Halted, None, true), FREE))
    ensures Reach(b, Stage(s, Running, USER0, Cpu(InUser, Some(1), false), FREE))
  {
    hide Reach, At, DoOp, OpAllowed;
    var idle := Stage(s, Runnable, USER0, Cpu(Halted, None, true), FREE);
    StageSized(s, Runnable, USER0, Cpu(Halted, None, true), FREE);
    Stays(b, idle, 1, Halted, FREE);
    Glided(b, idle, 1, Halted, FREE);
    var trap := Stage(s, Runnable, USER0, Cpu(Trap(false), None, true), FREE);
    StageSized(s, Runnable, USER0, Cpu(Trap(false), None, true), FREE);
    var up := Stage(s, Runnable, USER0, Cpu(LockCheck(Woken), None, false), FREE);
    assert Step(trap, 1, Tick) == up;
    ReachOne(b, trap, 1, Tick);
    StageSized(s, Runnable, USER0, Cpu(LockCheck(Woken), None, false), FREE);
    Stays(b, up, 1, LockCheck(Woken), FREE);
    Locks(b, up, 1, Woken);
    One1(b, s, Runnable, Cpu(Came(false), None, false), HeldBy(1), Tick, Runnable, Cpu(Yield, None, false), HeldBy(1));
    Picked(b, s);
  }

  // A step of CPU 1.
  lemma One1(b: State, s: State, status: Status, cpu: Cpu, lock: Lock, a: Action, status': Status, cpu': Cpu,
             lock': Lock)
    requires Scene(s) && Reach(b, Stage(s, status, USER0, cpu, lock)) && (cpu.cur.Some? ==> cpu.cur.value < NENV)
    requires Sized(Stage(s, status, USER0, cpu, lock)) ==>
               && Loose(Stage(s, status, USER0, cpu, lock), 1, a)
               && Step(Stage(s, status, USER0, cpu, lock), 1, a) == Stage(s, status', USER0, cpu', lock')
    ensures Reach(b, Stage(s, status', USER0, cpu', lock'))
  {
    hide Reach, Step, Loose;
    StageSized(s, status, USER0, cpu, lock);
    ReachOne(b, Stage(s, status, USER0, cpu, lock), 1, a);
  }

  // sched_yield on CPU 1, and env_run.
  lemma Picked(b: State, s: State)
    requires Scene(s) && Reach(b, Stage(s, Runnable, USER0, Cpu(Yield, None, false), HeldBy(1)))
    ensures Reach(b, Stage(s, Running, USER0, Cpu(InUser, Some(1), false), FREE))
  {
    hide Reach, At, DoOp, OpAllowed;
    OneRunnable(s);
    One1(b, s, Runnable, Cpu(Yield, None, false), HeldBy(1), Pick(Run(1)), Runnable, Cpu(Switch(1), None, false),
      HeldBy(1));
    Adopts(b, s);
  }

  lemma Adopts(b: State, s: State)
    requires Scene(s) && Reach(b, Stage(s, Runnable, USER0, Cpu(Switch(1), None, false), HeldBy(1)))
    ensures Reach(b, Stage(s, Running, USER0, Cpu(InUser, Some(1), false), FREE))
  {
    hide Reach, At, DoOp, OpAllowed, Picks;
    One1(b, s, Runnable, Cpu(Switch(1), None, false), HeldBy(1), Tick, Runnable, Cpu(Adopt(1), None, false), HeldBy(1));
    One1(b, s, Runnable, Cpu(Adopt(1), None, false), HeldBy(1), Tick, Runnable, Cpu(Mark(1), Some(1), false),
      HeldBy(1));
    One1(b, s, Runnable, Cpu(Mark(1), Some(1), false), HeldBy(1), Tick, Running,
      Cpu(UnlockCheck(ToUser), Some(1), false), HeldBy(1));
    var t := Stage(s, Running, USER0, Cpu(UnlockCheck(ToUser), Some(1), false), HeldBy(1));
    StageSized(s, Running, USER0, Cpu(UnlockCheck(ToUser), Some(1), false), HeldBy(1));
    Stays(b, t, 1, UnlockCheck(ToUser), HeldBy(1));
    Unlocks(b, t, 1, ToUser);
    One1(b, s, Running, Cpu(UnlockRelease(ToUser), Some(1), false), Lock(true, None), Tick, Running,
      Cpu(InUser, Some(1), false), FREE);
  }

  lemma OneRunnable(s: State)
    requires Scene(s)
    ensures Picks(Stage(s, Runnable, USER0, Cpu(Yield, None, false), HeldBy(1)).envs, None, Run(1))
  {}

  /** CPU 0 comes in with another system call. */
  lemma ComesIn(b: State, s: State)
    requires Scene(s) && Reach(b, Stage(s, Running, USER0, USER1, FREE))
    ensures Reach(b, Stage(s, Running, Cpu(Dispatch, Some(0), false), USER1, HeldBy(0)))
  {
    hide Reach, At, OpAllowed, Picks;
    var s0 := Stage(s, Running, USER0, USER1, FREE);
    StageSized(s, Running, USER0, USER1, FREE);
    Stays(b, s0, 0, InUser, FREE);
    Glided(b, s0, 0, InUser, FREE);
    One0(b, s, Running, Cpu(Trap(true), Some(0), false), FREE, Tick, Running, Cpu(Came(true), Some(0), false), FREE);
    One0(b, s, Running, Cpu(Came(true), Some(0), false), FREE, Tick, Running, Cpu(LockCheck(Enter), Some(0), false),
      FREE);
    Locks(b, s0, 0, Enter);
    One0(b, s, Running, Cpu(Entered, Some(0), false), HeldBy(0), Tick, Running, Cpu(Dispatch, Some(0), false),
      HeldBy(0));
  }

  // A step of CPU 0.
  lemma One0(b: State, s: State, status: Status, cpu: Cpu, lock: Lock, a: Action, status': Status, cpu': Cpu,
             lock': Lock)
    requires |s.envs| == |s.logs| == NENV && (cpu.cur.Some? ==> cpu.cur.value < NENV)
    requires Reach(b, Stage(s, status, cpu, USER1, lock))
    requires Sized(Stage(s, status, cpu, USER1, lock)) ==>
               && Loose(Stage(s, status, cpu, USER1, lock), 0, a)
               && Step(Stage(s, status, cpu, USER1, lock), 0, a) == Stage(s, status', cpu', USER1, lock')
    ensures Reach(b, Stage(s, status', cpu', USER1, lock'))
  {
    hide Reach, Step, Loose;
    StageSized(s, status, cpu, USER1, lock);
    ReachOne(b, Stage(s, status, cpu, USER1, lock), 0, a);
  }

  // ---------- a child that waits for a message

  /** A message for it arrives. */
  lemma Delivers(b: State, s: State, value: nat) returns (t: State)
    requires Scene(s) && Receives(s) && Reach(b, Stage(s, Running, Cpu(Dispatch, Some(0), false), USER1, HeldBy(0)))
    ensures Reach(b, t) && t.lock == FREE && |t.envs| == NENV && t.envs[1].status == Runnable && RunsAt(t, 1, 1)
  {
    var u := Stage(s, Running, Cpu(Dispatch, Some(0), false), USER1, HeldBy(0));
    StageSized(s, Running, Cpu(Dispatch, Some(0), false), USER1, HeldBy(0));
    var a := Handle(Send(s.envs[1].id, value, false, None));
    var w := Step(u, 0, a);
    assert Sized(w) && w.cpus[0] == Cpu(Decide, Some(0), false) && w.lock == HeldBy(0) && |w.cpus| == 2;
    assert w.envs[0].status == Running && w.logs[0] == s.logs[0] && w.envs[1].status == Runnable && RunsAt(w, 1, 1);
    ReachOne(b, u, 0, a);
    hide Reach, Step, Loose, At;
    Stays(b, w, 0, Decide, HeldBy(0));
    Returns(b, w, 0);
    t := At(w, 0, InUser, FREE);
    OnlyFirst(w);
  }

  lemma OnlyFirst(w: State)
    requires |w.cpus| == 2
    ensures var t := At(w, 0, InUser, FREE); t.envs == w.envs && t.lock == FREE && (RunsAt(w, 1, 1) ==> RunsAt(t, 1, 1))
  {}

  /** Without the assumption on sys_env_set_status, exclusivity is lost: from any such state in
      which the child waits for a message, a run that keeps every other assumption leads to one in
      which the lock is free and the child, the current environment of a CPU, is not running. */
  lemma ExclusivityLost(s: State, value: nat) returns (t: State)
    requires Scene(s) && Receives(s)
    ensures Reach(s, t) && !t.lock.locked && |t.envs| == NENV && RunsAt(t, 1, 1) && !Busy(t.envs[1].status)
  {
    hide Reach;
    Wakes(s);
    TakesUp(s, s);
    ComesIn(s, s);
    t := Delivers(s, s, value);
  }

  // ---------- a child that waits in a ring

  // The parent starts to receive, which takes the child from its ring.
  function Parent(s: State, dstva: nat): State
    requires |s.envs| == NENV
  {
    var me := s.envs[0].(recving := true, dstva := dstva, status := NotRunnable,
      head := (s.envs[0].head + 1) % MAXIPCWAITING);
    s.(envs := s.envs[0 := me])
  }

  lemma RunsOnce(s: State, dstva: nat)
    requires Scene(s) && Queued(s)
    ensures var u, p := Stage(s, Running, Cpu(Dispatch, Some(0), false), USER1, HeldBy(0)), Parent(s, dstva);
            && Sized(u) && Loose(u, 0, Handle(Recv(dstva)))
            && Step(u, 0, Handle(Recv(dstva))) == Stage(p, Runnable, Cpu(Yield, Some(0), false), USER1, HeldBy(0))
  {
    var u, p := Stage(s, Running, Cpu(Dispatch, Some(0), false), USER1, HeldBy(0)), Parent(s, dstva);
    StageSized(s, Running, Cpu(Dispatch, Some(0), false), USER1, HeldBy(0));
    var w := Stage(p, Runnable, Cpu(Yield, Some(0), false), USER1, HeldBy(0));
    hide Queued;
    Dequeued(s, u.envs, dstva);
    assert u.envs[0 := p.envs[0]][1 := u.envs[1].(status := Runnable)] == w.envs;
    hide Receive, Queued;
  }

  lemma Dequeued(s: State, envs: seq<Env>, dstva: nat)
    requires Scene(s) && Queued(s) && envs == s.envs[1 := s.envs[1].(status := Running)]
    ensures Receive(envs, 0, dstva) == (envs[0 := Parent(s, dstva).envs[0]][1 := envs[1].(status := Runnable)], true)
  {
    DequeueTakes(s.envs[0]) by { QueueBound(s.envs[0]); }
    hide Queue;
    var envs1, id := envs[0 := Parent(s, dstva).envs[0]], s.envs[1].id;
    assert envs[0] == s.envs[0] && envs1[1].id == id && envs1[1].status == Running;
    assert Envid2Env(envs1, 0, id, false) == Some(1);
  }

  lemma OneWoken(s: State, dstva: nat)
    requires Scene(s)
    ensures var u := Stage(Parent(s, dstva), Runnable, Cpu(Yield, Some(0), false), USER1, HeldBy(0));
            |u.envs| == NENV && Picks(u.envs, Some(0), Run(1))
  {}

  /** It takes up the child, which already runs on CPU 1. */
  lemma TakesAgain(b: State, s: State, dstva: nat) returns (t: State)
    requires Scene(s) && Reach(b, Stage(Parent(s, dstva), Runnable, Cpu(Yield, Some(0), false), USER1, HeldBy(0)))
    ensures Reach(b, t) && t.lock == FREE && |t.envs| == NENV && t.envs[1].status == Running && RunsAt(t, 0, 1)
            && RunsAt(t, 1, 1)
  {
    var p := Parent(s, dstva);
    hide Reach, At, DoOp, OpAllowed;
    OneWoken(s, dstva);
    One0(b, p, Runnable, Cpu(Yield, Some(0), false), HeldBy(0), Pick(Run(1)), Runnable,
      Cpu(Switch(1), Some(0), false), HeldBy(0));
    hide Picks;
    assert p.envs[0].status == NotRunnable && |p.envs| == |p.logs| == NENV && p.logs[1].pending == false;
    hide Parent, Scene;
    t := Resumes(b, p);
  }

  // env_run of a runnable environment 1 on CPU 0, after one that is blocked
  lemma Resumes(b: State, p: State) returns (t: State)
    requires |p.envs| == |p.logs| == NENV && p.envs[0].status == NotRunnable && !p.logs[1].pending
    requires Reach(b, Stage(p, Runnable, Cpu(Switch(1), Some(0), false), USER1, HeldBy(0)))
    ensures Reach(b, t) && t.lock == FREE && |t.envs| == NENV && t.envs[1].status == Running && RunsAt(t, 0, 1)
            && RunsAt(t, 1, 1)
  {
    hide Reach, At, DoOp, OpAllowed, Picks;
    One0(b, p, Runnable, Cpu(Switch(1), Some(0), false), HeldBy(0), Tick, Runnable, Cpu(Adopt(1), Some(0), false),
      HeldBy(0));
    One0(b, p, Runnable, Cpu(Adopt(1), Some(0), false), HeldBy(0), Tick, Runnable, Cpu(Mark(1), Some(1), false),
      HeldBy(0));
    One0(b, p, Runnable, Cpu(Mark(1), Some(1), false), HeldBy(0), Tick, Running,
      Cpu(UnlockCheck(ToUser), Some(1), false), HeldBy(0));
    var u := Stage(p, Running, Cpu(UnlockCheck(ToUser), Some(1), false), USER1, HeldBy(0));
    StageSized(p, Running, Cpu(UnlockCheck(ToUser), Some(1), false), USER1, HeldBy(0));
    Stays(b, u, 0, UnlockCheck(ToUser), HeldBy(0));
    Unlocks(b, u, 0, ToUser);
    One0(b, p, Running, Cpu(UnlockRelease(ToUser), Some(1), false), Lock(true, None), Tick, Running,
      Cpu(InUser, Some(1), false), FREE);
    t := Stage(p, Running, Cpu(InUser, Some(1), false), USER1, FREE);
  }

  /** And in the same way from any such state in which it waits in the parent's ring: then it runs
      on both CPUs. */
  lemma RunsTwice(s: State, dstva: nat) returns (t: State)
    requires Scene(s) && Queued(s)
    ensures Reach(s, t) && !t.lock.locked && |t.envs| == NENV && t.envs[1].status == Running && RunsAt(t, 0, 1)
            && RunsAt(t, 1, 1)
  {
    hide Reach, Leads, Step, Loose, Parent, Queued;
    Wakes(s);
    TakesUp(s, s);
    ComesIn(s, s);
    var u := Stage(s, Running, Cpu(Dispatch, Some(0), false), USER1, HeldBy(0));
    RunsOnce(s, dstva);
    ReachOne(s, u, 0, Handle(Recv(dstva)));
    t := TakesAgain(s, s, dstva);
  }
}
