/** The big kernel lock (kern/spinlock.c and its uses): mutual exclusion, exactly one acquisition
    per entry and one release per exit, and no panic, in every interleaving. */
module SmpLock {
  import opened Mmu
  import opened Envs
  import opened Ipc
  import opened Sched
  import opened Smp

  // The program points at which a CPU has taken the lock and not yet given it up.
  predicate Holder(pc: Pc) {
    match pc
    case Came(user) => !user
    case LockOwn(_) => true
    case Entered => true
    case Reap => true
    case Forget => true
    case Dispatch => true
    case Decide => true
    case Yield => true
    case Switch(_) => true
    case Adopt(_) => true
    case Mark(_) => true
    case Idle => true
    case Sleep => true
    case Stuck => true
    case UnlockCheck(_) => true
    case UnlockClear(_) => true
    case UnlockRelease(_) => true
    case _ => false
  }

  // Those at which lk->cpu names it.
  predicate Owner(pc: Pc) { Holder(pc) && !pc.LockOwn? && !pc.UnlockRelease? }

  // The program points at which the CPU has a current environment, and those at which it has none.
  predicate HasCur(pc: Pc) {
    match pc
    case InUser => true
    case Trap(user) => user
    case Came(user) => user
    case LockCheck(next) => next == Enter
    case LockSpin(next) => next == Enter
    case LockOwn(next) => next == Enter
    case Entered => true
    case Reap => true
    case Forget => true
    case Dispatch => true
    case Mark(_) => true
    case UnlockCheck(exit) => exit == ToUser
    case UnlockClear(exit) => exit == ToUser
    case UnlockRelease(exit) => exit == ToUser
    case _ => false
  }

  predicate NoCur(pc: Pc) {
    match pc
    case Halted => true
    case ApStart => true
    case Trap(user) => !user
    case Came(user) => !user
    case LockCheck(next) => next != Enter
    case LockSpin(next) => next != Enter
    case LockOwn(next) => next != Enter
    case Sleep => true
    case UnlockCheck(exit) => exit == ToHalt
    case UnlockClear(exit) => exit == ToHalt
    case UnlockRelease(exit) => exit == ToHalt
    case _ => false
  }

  // cpu_status is CPU_HALTED from sched_halt to the next trap.
  predicate Asleep(pc: Pc) {
    match pc
    case Halted => true
    case Trap(user) => !user
    case UnlockCheck(exit) => exit == ToHalt
    case UnlockClear(exit) => exit == ToHalt
    case UnlockRelease(exit) => exit == ToHalt
    case _ => false
  }

  predicate CpuOk(cpu: Cpu) {
    && cpu.pc != Panic
    && (HasCur(cpu.pc) ==> cpu.cur.Some?)
    && (NoCur(cpu.pc) ==> cpu.cur.None?)
    && cpu.halted == Asleep(cpu.pc)
    && (cpu.pc.Switch? || cpu.pc.Adopt? || cpu.pc.Mark? ==> cpu.pc.e < NENV)
    && (cpu.cur.Some? ==> cpu.cur.value < NENV)
  }

  predicate HolderAt(s: State, c: nat) { c < |s.cpus| && Holder(s.cpus[c].pc) }

  ghost predicate LockInv(s: State) {
    && |s.envs| == |s.logs| == NENV
    && (forall c :: 0 <= c < |s.cpus| ==> CpuOk(s.cpus[c]))
    && (forall c, d :: HolderAt(s, c) && HolderAt(s, d) ==> c == d)
    && (s.lock.locked <==> exists c :: HolderAt(s, c))
    && (forall c :: 0 <= c < |s.cpus| ==> (Owner(s.cpus[c].pc) <==> s.lock.cpu == Some(c)))
  }

  // Handling a trap changes the environment table, and of the CPU only where it goes next.
  lemma OpMoves(s: State, c: nat, cur: nat, op: Op)
    requires Sized(s) && c < |s.cpus| && cur < NENV
    ensures var s' := DoOp(s, c, cur, op);
            && |s'.envs| == |s'.logs| == NENV && s'.lock == s.lock && |s'.cpus| == |s.cpus|
            && s'.cpus == s.cpus[c := s.cpus[c].(pc := s'.cpus[c].pc)]
            && (s'.cpus[c].pc == Decide || s'.cpus[c].pc == Yield || s'.cpus[c].pc == Forget)
  {}

  // Only c moves.
  lemma OnlyOneMoves(s: State, c: nat, a: Action)
    requires Sized(s) && Allowed(s, c, a)
    ensures var s' := Step(s, c, a);
            && |s'.envs| == |s'.logs| == NENV && |s'.cpus| == |s.cpus|
            && s'.cpus == s.cpus[c := s'.cpus[c]]
  {
    if s.cpus[c].pc.Dispatch? { OpMoves(s, c, s.cpus[c].cur.value, a.op); }
    hide DoOp, OpAllowed, Envid2Env;
  }

  // What one step of c does to the lock.
  lemma LockMoves(s: State, c: nat, a: Action)
    requires Sized(s) && Allowed(s, c, a) && CpuOk(s.cpus[c]) && (Owner(s.cpus[c].pc) <==> s.lock.cpu == Some(c))
             && (Holder(s.cpus[c].pc) ==> s.lock.locked)
    ensures var s', pc := Step(s, c, a), s.cpus[c].pc;
            && |s'.cpus| == |s.cpus|
            && s'.lock.locked == (if pc.LockSpin? then true else if pc.UnlockRelease? then false else s.lock.locked)
            && s'.lock.cpu == (if pc.LockOwn? then Some(c) else if pc.UnlockClear? then None else s.lock.cpu)
            && (Holder(s'.cpus[c].pc) <==> if pc.LockSpin? then !s.lock.locked else Holder(pc) && !pc.UnlockRelease?)
            && (Owner(s'.cpus[c].pc) <==> if pc.LockOwn? then true else Owner(pc) && !pc.UnlockClear?)
  {
    if s.cpus[c].pc.Dispatch? { OpMoves(s, c, s.cpus[c].cur.value, a.op); }
    hide DoOp, OpAllowed, Envid2Env, Picks;
  }

  lemma StatusOnly(s: State)
    ensures forall e, status :: SetEnvStatus(s, e, status).cpus == s.cpus
    ensures forall e :: Release(s, e).cpus == s.cpus
  {}

  lemma PickInTable(s: State, c: nat, a: Action)
    requires Sized(s) && Allowed(s, c, a) && s.cpus[c].pc.Yield?
    ensures a.Pick? && (a.choice.Run? ==> a.choice.e < NENV)
  {}

  lemma CpuMoves(s: State, c: nat, a: Action)
    requires Sized(s) && Allowed(s, c, a) && CpuOk(s.cpus[c]) && (Owner(s.cpus[c].pc) <==> s.lock.cpu == Some(c))
             && (Holder(s.cpus[c].pc) ==> s.lock.locked)
    ensures |Step(s, c, a).cpus| == |s.cpus| && CpuOk(Step(s, c, a).cpus[c])
  {
    hide Step, CpuOk, Owner;
    if Holder(s.cpus[c].pc) { CpuMovesInside(s, c, a); } else { CpuMovesOutside(s, c, a); }
  }

  lemma CpuMovesInside(s: State, c: nat, a: Action)
    requires Sized(s) && Allowed(s, c, a) && CpuOk(s.cpus[c]) && (Owner(s.cpus[c].pc) <==> s.lock.cpu == Some(c))
    requires Holder(s.cpus[c].pc) && s.lock.locked
    ensures |Step(s, c, a).cpus| == |s.cpus| && CpuOk(Step(s, c, a).cpus[c])
  {
    hide DoOp, OpAllowed, Envid2Env, SetEnvStatus, Release, Observe, Picks;
    StatusOnly(s);
    if s.cpus[c].pc.Dispatch? { OpMoves(s, c, s.cpus[c].cur.value, a.op); }
    else if s.cpus[c].pc.Yield? { PickInTable(s, c, a); }
  }

  lemma CpuMovesOutside(s: State, c: nat, a: Action)
    requires Sized(s) && Allowed(s, c, a) && CpuOk(s.cpus[c]) && (Owner(s.cpus[c].pc) <==> s.lock.cpu == Some(c))
    requires !Holder(s.cpus[c].pc)
    ensures |Step(s, c, a).cpus| == |s.cpus| && CpuOk(Step(s, c, a).cpus[c])
  {
    hide DoOp, OpAllowed, Envid2Env, SetEnvStatus, Release, Observe, Picks;
  }

  lemma LockStep(s: State, c: nat, a: Action)
    requires LockInv(s) && Sized(s) && Allowed(s, c, a)
    ensures LockInv(Step(s, c, a)) && Sized(Step(s, c, a))
  {
    assert HolderAt(s, c) <==> Holder(s.cpus[c].pc);
    OnlyOneMoves(s, c, a);
    LockMoves(s, c, a);
    CpuMoves(s, c, a);
    var s' := Step(s, c, a);
    hide Step, Allowed, Holder, CpuOk;
    forall d | 0 <= d < |s'.cpus| ensures CpuOk(s'.cpus[d]) && (Owner(s'.cpus[d].pc) <==> s'.lock.cpu == Some(d)) {
      assert CpuOk(s.cpus[d]) && (HolderAt(s, d) <==> Holder(s.cpus[d].pc));
    }
    forall d: nat ensures d != c ==> HolderAt(s', d) == HolderAt(s, d) {}
    if s'.lock.locked && !HolderAt(s', c) {
      var d :| HolderAt(s, d);
      assert HolderAt(s', d);
    }
    CpusSized(s');
  }

  lemma CpusSized(s: State)
    requires |s.envs| == |s.logs| == NENV && forall c :: 0 <= c < |s.cpus| ==> CpuOk(s.cpus[c])
    ensures Sized(s)
  {}

  // ---------- whole runs

  // ss[i] is the state before the i-th step, which is taken by CPU es[i].0.
  ghost predicate IsRun(ss: seq<State>, es: seq<(nat, Action)>) {
    && |ss| == |es| + 1
    && forall i :: 0 <= i < |es| ==>
         Sized(ss[i]) && Allowed(ss[i], es[i].0, es[i].1) && ss[i + 1] == Step(ss[i], es[i].0, es[i].1)
  }

  lemma {:induction false} RunLocks(ss: seq<State>, es: seq<(nat, Action)>, n: nat)
    requires IsRun(ss, es) && n <= |es| && LockInv(ss[0])
    ensures LockInv(ss[n]) && |ss[n].cpus| == |ss[0].cpus|
  {
    hide LockInv;
    if n > 0 {
      RunLocks(ss, es, n - 1);
      LockStep(ss[n - 1], es[n - 1].0, es[n - 1].1);
      OnlyOneMoves(ss[n - 1], es[n - 1].0, es[n - 1].1);
    }
  }

  /** Mutual exclusion: in every interleaving at most one CPU runs locked kernel code, the lock
      word says whether one does, and neither holding check nor assert(curenv) panics. */
  lemma MutualExclusion(ss: seq<State>, es: seq<(nat, Action)>, n: nat, c: nat, d: nat)
    requires IsRun(ss, es) && n <= |es| && LockInv(ss[0]) && c < |ss[0].cpus| && d < |ss[0].cpus|
    ensures |ss[n].cpus| == |ss[0].cpus| && ss[n].cpus[c].pc != Panic
    ensures Holder(ss[n].cpus[c].pc) && Holder(ss[n].cpus[d].pc) ==> c == d
    ensures Holder(ss[n].cpus[c].pc) ==> ss[n].lock.locked
  {
    RunLocks(ss, es, n);
    assert HolderAt(ss[n], c) <==> Holder(ss[n].cpus[c].pc);
    assert HolderAt(ss[n], d) <==> Holder(ss[n].cpus[d].pc);
    assert CpuOk(ss[n].cpus[c]);
  }

  // Steps at which a CPU enters the kernel, takes the lock and gives it up.
  predicate EntersAt(s: State, c: nat) {
    c < |s.cpus| && (s.cpus[c].pc == InUser || s.cpus[c].pc == Halted || s.cpus[c].pc == ApStart)
  }
  predicate AcquiresAt(s: State, c: nat) { c < |s.cpus| && s.cpus[c].pc.LockSpin? && !s.lock.locked }
  predicate ReleasesAt(s: State, c: nat) { c < |s.cpus| && s.cpus[c].pc.UnlockRelease? }

  // On the way in, still without the lock.
  predicate Entering(pc: Pc) { pc.Trap? || pc == Came(true) || pc.LockCheck? || pc.LockSpin? }

  function Bit(b: bool): nat { if b then 1 else 0 }

  function Entries(ss: seq<State>, es: seq<(nat, Action)>, c: nat, n: nat): nat
    requires n <= |ss| && n <= |es|
  {
    if n == 0 then 0 else Entries(ss, es, c, n - 1) + Bit(es[n - 1].0 == c && EntersAt(ss[n - 1], c))
  }

  function Acquisitions(ss: seq<State>, es: seq<(nat, Action)>, c: nat, n: nat): nat
    requires n <= |ss| && n <= |es|
  {
    if n == 0 then 0 else Acquisitions(ss, es, c, n - 1) + Bit(es[n - 1].0 == c && AcquiresAt(ss[n - 1], c))
  }

  function Releases(ss: seq<State>, es: seq<(nat, Action)>, c: nat, n: nat): nat
    requires n <= |ss| && n <= |es|
  {
    if n == 0 then 0 else Releases(ss, es, c, n - 1) + Bit(es[n - 1].0 == c && ReleasesAt(ss[n - 1], c))
  }

  lemma EntryBits(s: State, c: nat, a: Action)
    requires LockInv(s) && Sized(s) && Allowed(s, c, a)
    ensures var pc, s' := s.cpus[c].pc, Step(s, c, a);
            && |s'.cpus| == |s.cpus|
            && Bit(Entering(pc)) + Bit(EntersAt(s, c)) == Bit(AcquiresAt(s, c)) + Bit(Entering(s'.cpus[c].pc))
            && Bit(Holder(pc)) + Bit(AcquiresAt(s, c)) == Bit(ReleasesAt(s, c)) + Bit(Holder(s'.cpus[c].pc))
  {
    assert HolderAt(s, c) <==> Holder(s.cpus[c].pc);
    assert CpuOk(s.cpus[c]);
    if s.cpus[c].pc.Dispatch? { OpMoves(s, c, s.cpus[c].cur.value, a.op); }
    LockMoves(s, c, a);
    hide DoOp, OpAllowed, Envid2Env, SetEnvStatus, Release, Observe, Picks;
    StatusOnly(s);
  }

  /** Every entry, by a trap, a wake-up or the start of a CPU, takes the lock exactly once, and
      every exit gives it up exactly once: at any time the entries of a CPU are its acquisitions
      and the one on its way in, if any, and its acquisitions are its releases and the one it
      still holds, counted from the start of the run. */
  lemma {:induction false} LockedOncePerEntry(ss: seq<State>, es: seq<(nat, Action)>, c: nat, n: nat)
    requires IsRun(ss, es) && n <= |es| && LockInv(ss[0]) && c < |ss[0].cpus|
    ensures |ss[n].cpus| == |ss[0].cpus|
    ensures Entries(ss, es, c, n) + Bit(Entering(ss[0].cpus[c].pc))
              == Acquisitions(ss, es, c, n) + Bit(Entering(ss[n].cpus[c].pc))
    ensures Acquisitions(ss, es, c, n) + Bit(Holder(ss[0].cpus[c].pc))
              == Releases(ss, es, c, n) + Bit(Holder(ss[n].cpus[c].pc))
  {
    if n > 0 {
      LockedOncePerEntry(ss, es, c, n - 1);
      RunLocks(ss, es, n - 1);
      var s, d, a := ss[n - 1], es[n - 1].0, es[n - 1].1;
      assert Sized(s) && Allowed(s, d, a) && ss[n] == Step(s, d, a);
      hide LockInv, Step, Allowed, Entering, Holder, EntersAt, AcquiresAt, ReleasesAt;
      OnlyOneMoves(s, d, a);
      if d == c { EntryBits(s, c, a); }
    }
  }
}
