/** Bounded waiting of the round-robin scheduler, and the exact limits of the assumptions that
    runs make about sys_env_set_status and env_destroy. */
module SmpWaiting {
  import opened Mmu
  import opened Envs
  import opened Ipc
  import opened Sched
  import opened Smp
  import opened SmpLock
  import opened SmpTable
  import opened SmpRuns

  // The environment that CPU c runs, or is about to run.
  function AimOf(cpu: Cpu): Option<nat> {
    match cpu.pc
    case Switch(e) => Some(e)
    case Adopt(e) => Some(e)
    case Mark(e) => Some(e)
    case _ => cpu.cur
  }

  predicate YieldsAt(s: State, c: nat) { c < |s.cpus| && s.cpus[c].pc == Yield }

  function Yields(ss: seq<State>, es: seq<(nat, Action)>, c: nat, n: nat): nat
    requires n <= |ss| && n <= |es|
  {
    if n == 0 then 0 else Yields(ss, es, c, n - 1) + Bit(es[n - 1].0 == c && YieldsAt(ss[n - 1], c))
  }

  // How far ahead of what c runs, or is about to run, slot t lies.
  function Gap(s: State, c: nat, t: nat): nat {
    if c < |s.cpus| && AimOf(s.cpus[c]).Some? && AimOf(s.cpus[c]).value < NENV && t < NENV
    then Ahead(AimOf(s.cpus[c]).value, t) else 0
  }

  predicate PickedAt(s: State, c: nat, t: nat) { c < |s.cpus| && AimOf(s.cpus[c]) == Some(t) }

  // t is runnable, and c has a current environment.
  predicate Waiting(s: State, c: nat, t: nat) {
    c < |s.cpus| && t < |s.envs| && s.envs[t].status == Runnable && s.cpus[c].cur.Some?
  }

  lemma CloserYield(s: State, c: nat, a: Action, t: nat)
    requires TableInv(s) && Allowed(s, c, a) && Waiting(s, c, t) && !PickedAt(s, c, t) && s.cpus[c].pc == Yield
    ensures 1 + Gap(Step(s, c, a), c, t) <= Gap(s, c, t)
  {
    var cur := s.cpus[c].cur.value;
    assert RunsAt(s, c, cur) && EnvOk(s.envs[cur], cur);
    PickedIsCloser(s.envs, cur, t, a.choice);
    hide TableInv, Picks, Ahead;
  }

  lemma SameAim(s: State, c: nat, a: Action)
    requires TableInv(s) && Allowed(s, c, a) && s.cpus[c].pc != Yield && s.cpus[c].cur.Some?
    ensures |Step(s, c, a).cpus| == |s.cpus|
            && (AimOf(Step(s, c, a).cpus[c]) == AimOf(s.cpus[c]) || Step(s, c, a).cpus[c].cur.None?)
  {
    var cur := s.cpus[c].cur.value;
    assert RunsAt(s, c, cur) && CpuOk(s.cpus[c]) && Aimed(s.cpus[c], s.envs);
    if s.cpus[c].pc.Dispatch? { OpMoves(s, c, cur, a.op); }
    hide TableInv, DoOp, OpAllowed;
  }

  // One step brings c closer to t if it is a yield of c, and keeps the distance otherwise.
  lemma CloserStep(s: State, d: nat, a: Action, c: nat, t: nat)
    requires TableInv(s) && Allowed(s, d, a) && Waiting(s, c, t) && Waiting(Step(s, d, a), c, t) && !PickedAt(s, c, t)
    ensures Bit(d == c && YieldsAt(s, c)) + Gap(Step(s, d, a), c, t) <= Gap(s, c, t)
  {
    OnlyOneMoves(s, d, a);
    hide TableInv, Step, Allowed, AimOf, PickedAt;
    if d == c {
      if s.cpus[c].pc == Yield { CloserYield(s, c, a, t); } else { SameAim(s, c, a); }
    }
  }

  lemma {:induction false} ClosingIn(ss: seq<State>, es: seq<(nat, Action)>, c: nat, t: nat, n: nat)
    requires IsRun(ss, es) && n <= |es| && RunInv(ss[0])
    requires forall i :: 0 <= i <= n ==> Waiting(ss[i], c, t) && !PickedAt(ss[i], c, t)
    ensures Yields(ss, es, c, n) + Gap(ss[n], c, t) <= Gap(ss[0], c, t)
  {
    if n > 0 {
      ClosingIn(ss, es, c, t, n - 1);
      RunKeeps(ss, es, n - 1);
      var s, d, a := ss[n - 1], es[n - 1].0, es[n - 1].1;
      assert Waiting(s, c, t) && Waiting(ss[n], c, t) && TableInv(s) && Allowed(s, d, a) && ss[n] == Step(s, d, a);
      hide RunInv, TableInv, Step, Allowed, Gap, Waiting;
      CloserStep(s, d, a, c, t);
    }
  }

  /** Bounded waiting: an environment that stays runnable is picked by the (NENV-1)-th yield of
      any CPU at the latest, as long as that CPU does not lose its current environment. */
  lemma BoundedWaiting(ss: seq<State>, es: seq<(nat, Action)>, c: nat, t: nat, n: nat)
    requires IsRun(ss, es) && n <= |es| && RunInv(ss[0])
    requires forall i :: 0 <= i <= n ==> Waiting(ss[i], c, t)
    requires Yields(ss, es, c, n) >= NENV - 1
    ensures exists i :: 0 <= i <= n && PickedAt(ss[i], c, t)
  {
    if forall i :: 0 <= i <= n ==> !PickedAt(ss[i], c, t) {
      ClosingIn(ss, es, c, t, n);
      assert Waiting(ss[n], c, t) && Waiting(ss[0], c, t) && !PickedAt(ss[n], c, t);
      NotThereYet(ss, es, c, t, n);
      GapBound(ss[0], c, t);
    }
  }

  lemma GapBound(s: State, c: nat, t: nat)
    ensures Gap(s, c, t) <= NENV - 1
  {}

  lemma NotThereYet(ss: seq<State>, es: seq<(nat, Action)>, c: nat, t: nat, n: nat)
    requires IsRun(ss, es) && n <= |es| && RunInv(ss[0]) && Waiting(ss[n], c, t) && !PickedAt(ss[n], c, t)
    ensures Gap(ss[n], c, t) >= 1
  {
    RunKeeps(ss, es, n);
    var s := ss[n];
    assert CpuOk(s.cpus[c]);
    var e := AimOf(s.cpus[c]).value;
    hide RunInv;
    if Ahead(e, t) == 0 { AheadDistinct(e, e, t); }
  }

  // ---------- what the assumptions on system calls are for

  /** sys_env_set_status keeps the invariant of the machine exactly when it is used as MaySet
      says. */
  lemma SetStatusExact(s: State, c: nat, cur: nat, id: int, status: Status)
    requires TableInv(s) && RunsAt(s, c, cur) && s.cpus[c].pc.Dispatch? && cur < NENV
    requires Envid2Env(s.envs, cur, id, true).Some? && (status == Runnable || status == NotRunnable)
    ensures var e, s' := Envid2Env(s.envs, cur, id, true).value, DoOp(s, c, cur, SetStatus(id, status));
            TableInv(s') <==> MaySet(s.envs, cur, e, status)
  {
    hide LockInv, CursInv, EnvsInv, MaySet;
    var e, s' := Envid2Env(s.envs, cur, id, true).value, DoOp(s, c, cur, SetStatus(id, status));
    DispatchFacts(s, c, cur);
    if MaySet(s.envs, cur, e, status) {
      TableStep(s, c, Handle(SetStatus(id, status)));
    } else {
      NotSet(s, cur, e, status);
      if Busy(s.envs[e].status) {
        var d := CpuOf(s, e);
        assert RunsAt(s', d, e);
        if d != c { OutsideBusy(s, c, d, e); }
        NotFit(s', d, e);
      } else {
        WokenBreaks(s.envs, s.freeEnvs, e);
      }
    }
  }

  lemma NotSet(s: State, cur: nat, e: nat, status: Status)
    requires e < |s.envs| && (status == Runnable || status == NotRunnable) && !MaySet(s.envs, cur, e, status)
    ensures Busy(s.envs[e].status) ==> !(e == cur && status == NotRunnable)
    ensures !Busy(s.envs[e].status) ==> status == Runnable && (s.envs[e].recving || !NotWaiting(s.envs, e))
  {}

  // Waking an environment that is receiving or waiting in a ring.
  lemma WokenBreaks(envs: seq<Env>, freeEnvs: seq<nat>, e: nat)
    requires e < NENV == |envs| && envs[e].status != Free && (envs[e].recving || !NotWaiting(envs, e))
    ensures !EnvsInv(envs[e := envs[e].(status := Runnable)], freeEnvs)
  {
    var envs' := envs[e := envs[e].(status := Runnable)];
    if envs[e].recving {
      assert !EnvOk(envs'[e], e);
    } else {
      var r: nat, i: nat :| Waits(envs, r, i, e);
      assert RingFormed(envs'[r]) && Queue(envs'[r]) == Queue(envs[r]);
      assert Waits(envs', r, i, e);
    }
  }

  lemma NotFit(s: State, d: nat, e: nat)
    requires RunsAt(s, d, e) && (e < |s.envs| ==> !Fits(s.cpus[d].pc, s.envs[e].status))
    ensures !CursInv(s)
  {}

  /** env_destroy keeps it exactly when its target is not dying already: a zombie still runs on
      its CPU, and freeing it there would leave that CPU in a freed environment. */
  lemma DestroyExact(s: State, c: nat, cur: nat, id: int)
    requires TableInv(s) && RunsAt(s, c, cur) && s.cpus[c].pc.Dispatch? && cur < NENV
    requires Envid2Env(s.envs, cur, id, true).Some?
    ensures var e, s' := Envid2Env(s.envs, cur, id, true).value, DoOp(s, c, cur, Destroy(id));
            TableInv(s') <==> s.envs[e].status != Dying
  {
    hide LockInv, CursInv, EnvsInv;
    var e, s' := Envid2Env(s.envs, cur, id, true).value, DoOp(s, c, cur, Destroy(id));
    DispatchFacts(s, c, cur);
    if s.envs[e].status != Dying {
      TableStep(s, c, Handle(Destroy(id)));
    } else {
      var d := CpuOf(s, e);
      assert RunsAt(s', d, e);
      OutsideBusy(s, c, d, e);
      NotFit(s', d, e);
    }
  }

  lemma DispatchFacts(s: State, c: nat, cur: nat)
    requires TableInv(s) && RunsAt(s, c, cur) && s.cpus[c].pc.Dispatch?
    ensures HolderAt(s, c) && cur < |s.envs| && s.envs[cur].status == Running
  {}

  lemma CpuOf(s: State, e: nat) returns (d: nat)
    requires CursInv(s) && e < |s.envs| && Busy(s.envs[e].status)
    ensures RunsAt(s, d, e)
  {
    d :| RunsAt(s, d, e);
  }
}
