/** What the lock protects: the invariants of the environment table, of the rings of blocked
    senders and of the CPUs' current environments, and that every step keeps them. */
module SmpTable {
  import opened Mmu
  import opened Envs
  import opened Ipc
  import opened Sched
  import opened Smp
  import opened SmpLock

  // ---------- the environment table by itself

  ghost predicate EnvOk(t: Env, e: nat) {
    && RingFormed(t)
    && 0 <= t.id < 0x8000_0000
    && (t.status != Free ==> t.id > 0 && EnvX(t.id) == e)
    && (t.status != Free && t.recving ==> t.status == NotRunnable)
    && (forall i :: 0 <= i < |Queue(t)| ==> Queue(t)[i] > 0)
  }

  // A live environment that waits in a ring is blocked, and not receiving.
  ghost predicate WaitersBlocked(envs: seq<Env>) {
    forall r: nat, i: nat, e: nat :: Waits(envs, r, i, e) ==> envs[e].status == NotRunnable && !envs[e].recving
  }

  // It waits at one place.
  ghost predicate WaitersOnce(envs: seq<Env>) {
    forall r: nat, i: nat, r': nat, i': nat, e: nat :: Waits(envs, r, i, e) && Waits(envs, r', i', e) ==>
      r == r' && i == i'
  }

  ghost predicate FreeSlots(envs: seq<Env>, freeEnvs: seq<nat>) {
    && (forall i, j :: 0 <= i < j < |freeEnvs| ==> freeEnvs[i] != freeEnvs[j])
    && (forall i :: 0 <= i < |freeEnvs| ==> freeEnvs[i] < |envs| && envs[freeEnvs[i]].status == Free)
  }

  ghost predicate EnvsInv(envs: seq<Env>, freeEnvs: seq<nat>) {
    && |envs| == NENV && (forall e :: 0 <= e < NENV ==> EnvOk(envs[e], e))
    && WaitersBlocked(envs) && WaitersOnce(envs) && FreeSlots(envs, freeEnvs)
  }

  ghost predicate NotWaiting(envs: seq<Env>, e: nat) {
    forall r: nat, i: nat :: !Waits(envs, r, i, e)
  }

  lemma RunsNotWaiting(envs: seq<Env>, e: nat)
    requires WaitersBlocked(envs) && e < |envs| && envs[e].status != NotRunnable
    ensures NotWaiting(envs, e)
  {}

  // A new status, for an environment that no ring holds, or for one that dies.
  lemma StatusEnvs(envs: seq<Env>, freeEnvs: seq<nat>, e: nat, status: Status)
    requires EnvsInv(envs, freeEnvs) && e < NENV && envs[e].status != Free
    requires status == Free || (NotWaiting(envs, e) && !envs[e].recving)
    ensures EnvsInv(envs[e := envs[e].(status := status)], if status == Free then [e] + freeEnvs else freeEnvs)
    ensures status != Free ==> NotWaiting(envs[e := envs[e].(status := status)], e)
  {
    var envs' := envs[e := envs[e].(status := status)];
    assert EnvOk(envs[e], e) && Queue(envs'[e]) == Queue(envs[e]);
    forall r: nat, i: nat, d: nat | Waits(envs', r, i, d) ensures Waits(envs, r, i, d) && (d == e ==> status != Free) {}
    forall d | 0 <= d < NENV ensures EnvOk(envs'[d], d) { assert EnvOk(envs[d], d); }
  }

  // sys_env_set_status, within the limits of MaySet
  lemma MaySetEnvs(envs: seq<Env>, freeEnvs: seq<nat>, cur: nat, e: nat, status: Status)
    requires EnvsInv(envs, freeEnvs) && cur < NENV && e < NENV && envs[cur].status == Running && envs[e].status != Free
    requires (status == Runnable || status == NotRunnable) && MaySet(envs, cur, e, status)
    ensures EnvsInv(envs[e := envs[e].(status := status)], freeEnvs)
  {
    assert EnvOk(envs[e], e);
    if status == NotRunnable {
      BlockedEnvs(envs, freeEnvs, e);
    } else {
      assert NotWaiting(envs, e);
      StatusEnvs(envs, freeEnvs, e, status);
    }
  }

  lemma BlockedEnvs(envs: seq<Env>, freeEnvs: seq<nat>, e: nat)
    requires EnvsInv(envs, freeEnvs) && e < NENV && envs[e].status != Free
    ensures EnvsInv(envs[e := envs[e].(status := NotRunnable)], freeEnvs)
  {
    var envs' := envs[e := envs[e].(status := NotRunnable)];
    assert EnvOk(envs[e], e) && Queue(envs'[e]) == Queue(envs[e]);
    forall r: nat, i: nat, d: nat | Waits(envs', r, i, d) ensures Waits(envs, r, i, d) {}
    forall d | 0 <= d < NENV ensures EnvOk(envs'[d], d) { assert EnvOk(envs[d], d); }
  }

  // env_alloc and the rest of sys_exofork
  lemma ExoforkEnvs(envs: seq<Env>, freeEnvs: seq<nat>, parent: int)
    requires EnvsInv(envs, freeEnvs) && freeEnvs != []
    requires forall r: nat, i: nat :: r < NENV && RingFormed(envs[r]) && i < |Queue(envs[r])| ==>
               Queue(envs[r])[i] != NextId(envs[freeEnvs[0]].id, freeEnvs[0])
    ensures freeEnvs[0] < NENV
    ensures var e := freeEnvs[0];
            EnvsInv(envs[e := envs[e].(id := NextId(envs[e].id, e), parent := parent, status := NotRunnable,
              recving := false)], freeEnvs[1..])
  {
    var e := freeEnvs[0];
    assert EnvOk(envs[e], e);
    NextIdNamesSlot(envs[e].id, e);
    var envs' := envs[e := envs[e].(id := NextId(envs[e].id, e), parent := parent, status := NotRunnable,
      recving := false)];
    hide NextId;
    assert Queue(envs'[e]) == Queue(envs[e]);
    forall r: nat, i: nat, d: nat | Waits(envs', r, i, d) ensures d != e && Waits(envs, r, i, d) {
      assert RingFormed(envs[r]) && Queue(envs'[r]) == Queue(envs[r]);
    }
    forall d | 0 <= d < NENV ensures EnvOk(envs'[d], d) { assert EnvOk(envs[d], d); }
  }

  // the sender of an undeliverable message goes to sleep at the back of the ring
  lemma BlockEnvs(envs: seq<Env>, freeEnvs: seq<nat>, cur: nat, e: nat)
    requires EnvsInv(envs, freeEnvs) && cur < NENV && e < NENV && envs[cur].status == Running
    ensures EnvsInv(Block(envs, cur, e), freeEnvs)
  {
    if !RingFull(envs[e]) {
      var envs1 := envs[cur := envs[cur].(status := NotRunnable)];
      RunsNotWaiting(envs, cur);
      assert EnvOk(envs[cur], cur);
      StatusEnvs(envs, freeEnvs, cur, NotRunnable);
      hide EnvsInv, NotWaiting, EnvOk;
      BackOfRing(envs1, freeEnvs, cur, e);
    }
  }

  lemma BackOfRing(envs: seq<Env>, freeEnvs: seq<nat>, cur: nat, e: nat)
    requires EnvsInv(envs, freeEnvs) && cur < NENV && e < NENV && !RingFull(envs[e])
    requires envs[cur].status == NotRunnable && !envs[cur].recving && NotWaiting(envs, cur)
    ensures EnvsInv(envs[e := Enqueue(envs[e], envs[cur].id)], freeEnvs)
  {
    var id, envs' := envs[cur].id, envs[e := Enqueue(envs[e], envs[cur].id)];
    assert EnvOk(envs[e], e) && EnvOk(envs[cur], cur);
    EnqueueAppends(envs[e], id);
    var n := |Queue(envs[e])|;
    forall r: nat, i: nat, d: nat | Waits(envs', r, i, d)
      ensures if r == e && i == n then d == cur else Waits(envs, r, i, d)
    {
      assert EnvOk(envs[d], d);
    }
    forall d | 0 <= d < NENV ensures EnvOk(envs'[d], d) { assert EnvOk(envs[d], d); }
  }

  // a message arrives
  lemma DeliverEnvs(envs: seq<Env>, freeEnvs: seq<nat>, cur: nat, e: nat, value: nat, page: Option<bv12>)
    requires EnvsInv(envs, freeEnvs) && cur < NENV && e < NENV && envs[e].status != Free && envs[e].recving
    ensures EnvsInv(Deliver(envs, cur, e, value, page), freeEnvs)
  {
    var envs' := Deliver(envs, cur, e, value, page);
    assert EnvOk(envs[e], e) && Queue(envs'[e]) == Queue(envs[e]);
    forall r: nat, i: nat, d: nat | Waits(envs', r, i, d) ensures d != e && Waits(envs, r, i, d) {
      assert Waits(envs, r, i, d);
    }
    forall d | 0 <= d < NENV ensures EnvOk(envs'[d], d) { assert EnvOk(envs[d], d); }
  }

  // the receiver goes to sleep, and one sender leaves the front of its ring
  lemma ReceiveEnvs(envs: seq<Env>, freeEnvs: seq<nat>, cur: nat, dstva: nat)
    requires EnvsInv(envs, freeEnvs) && cur < NENV && envs[cur].status == Running
    ensures EnvsInv(Receive(envs, cur, dstva).0, freeEnvs)
  {
    SleepEnvs(envs, freeEnvs, cur, dstva);
    var asleep := envs[cur := envs[cur].(recving := true, dstva := dstva, status := NotRunnable)];
    if asleep[cur].head != asleep[cur].tail { WakeEnvs(asleep, freeEnvs, cur); }
    assert Receive(envs, cur, dstva).0 == if asleep[cur].head == asleep[cur].tail then asleep
             else Wake(asleep, cur) by {
      assert EnvOk(asleep[cur], cur);
      var next := asleep[cur].(head := (asleep[cur].head + 1) % MAXIPCWAITING);
      assert envs[cur := next] == asleep[cur := next];
    }
  }

  // the sender at the front of the ring of r becomes runnable, if it still lives
  function Wake(envs: seq<Env>, r: nat): seq<Env>
    requires |envs| == NENV && r < NENV && RingFormed(envs[r])
  {
    var envs1 := envs[r := envs[r].(head := (envs[r].head + 1) % MAXIPCWAITING)];
    match Envid2Env(envs1, r, envs[r].waiting[envs[r].head], false)
    case None => envs1
    case Some(e) => envs1[e := envs1[e].(status := Runnable)]
  }

  lemma WakeEnvs(envs: seq<Env>, freeEnvs: seq<nat>, r: nat)
    requires EnvsInv(envs, freeEnvs) && r < NENV && envs[r].head != envs[r].tail
    ensures RingFormed(envs[r]) && EnvsInv(Wake(envs, r), freeEnvs)
  {
    assert EnvOk(envs[r], r);
    DequeueTakes(envs[r]);
    FrontOfRing(envs, freeEnvs, r);
    var envs1 := envs[r := envs[r].(head := (envs[r].head + 1) % MAXIPCWAITING)];
    var found := Envid2Env(envs1, r, envs[r].waiting[envs[r].head], false);
    if found.Some? {
      assert Waits(envs, r, 0, found.value);
      hide EnvsInv, NotWaiting, EnvOk;
      StatusEnvs(envs1, freeEnvs, found.value, Runnable);
    }
  }

  lemma SleepEnvs(envs: seq<Env>, freeEnvs: seq<nat>, cur: nat, dstva: nat)
    requires EnvsInv(envs, freeEnvs) && cur < NENV && envs[cur].status == Running
    ensures EnvsInv(envs[cur := envs[cur].(recving := true, dstva := dstva, status := NotRunnable)], freeEnvs)
  {
    var envs' := envs[cur := envs[cur].(recving := true, dstva := dstva, status := NotRunnable)];
    RunsNotWaiting(envs, cur);
    assert EnvOk(envs[cur], cur) && Queue(envs'[cur]) == Queue(envs[cur]);
    forall r: nat, i: nat, d: nat | Waits(envs', r, i, d) ensures d != cur && Waits(envs, r, i, d) {
      assert Waits(envs, r, i, d);
    }
    forall d | 0 <= d < NENV ensures EnvOk(envs'[d], d) { assert EnvOk(envs[d], d); }
  }

  lemma FrontOfRing(envs: seq<Env>, freeEnvs: seq<nat>, r: nat)
    requires EnvsInv(envs, freeEnvs) && r < NENV && envs[r].head != envs[r].tail
    ensures var envs' := envs[r := envs[r].(head := (envs[r].head + 1) % MAXIPCWAITING)];
            && EnvsInv(envs', freeEnvs)
            && (forall e: nat :: Waits(envs, r, 0, e) ==> NotWaiting(envs', e) && !envs'[e].recving)
  {
    var envs' := envs[r := envs[r].(head := (envs[r].head + 1) % MAXIPCWAITING)];
    assert EnvOk(envs[r], r);
    DequeueTakes(envs[r]);
    forall q: nat, i: nat, d: nat | Waits(envs', q, i, d) ensures Waits(envs, q, if q == r then i + 1 else i, d) {}
    forall e: nat | Waits(envs, r, 0, e) ensures NotWaiting(envs', e) && !envs'[e].recving {
      forall q: nat, i: nat ensures !Waits(envs', q, i, e) {}
    }
    forall d | 0 <= d < NENV ensures EnvOk(envs'[d], d) { assert EnvOk(envs[d], d); }
  }

  // ---------- who runs what

  predicate Busy(status: Status) { status == Running || status == Dying }

  // The status that the current environment of a CPU at this point may have.
  predicate Fits(pc: Pc, status: Status) {
    match pc
    case Reap => status == Dying
    case Forget => status == Free
    case Dispatch => status == Running
    case Decide => status == Running || status == NotRunnable
    case Yield => status == Running || status == NotRunnable
    case Switch(_) => status == Running || status == NotRunnable
    case Adopt(_) => status == Runnable || status == NotRunnable
    case Mark(_) => status == Runnable
    case Idle => status == NotRunnable
    case Stuck => status == NotRunnable
    case UnlockCheck(_) => status == Running
    case UnlockClear(_) => status == Running
    case UnlockRelease(_) => status == Running
    case _ => Busy(status)
  }

  // What env_run is about to run.
  predicate Aimed(cpu: Cpu, envs: seq<Env>) {
    match cpu.pc
    case Switch(e) => e < |envs| && envs[e].status == if cpu.cur == Some(e) then Running else Runnable
    case Adopt(e) => e < |envs| && envs[e].status == Runnable && cpu.cur != Some(e)
    case Mark(e) => cpu.cur == Some(e)
    case _ => true
  }

  predicate RunsAt(s: State, c: nat, e: nat) { c < |s.cpus| && s.cpus[c].cur == Some(e) }

  ghost predicate CursInv(s: State) {
    && (forall c: nat, e: nat :: RunsAt(s, c, e) ==> e < |s.envs| && Fits(s.cpus[c].pc, s.envs[e].status))
    && (forall c: nat, d: nat, e: nat :: RunsAt(s, c, e) && RunsAt(s, d, e) ==> c == d)
    && (forall e: nat :: e < |s.envs| && Busy(s.envs[e].status) ==> exists c: nat :: RunsAt(s, c, e))
    && (forall c :: 0 <= c < |s.cpus| ==> Aimed(s.cpus[c], s.envs))
  }

  // Outside the lock, the current environment runs, or has been told to die.
  lemma OutsideBusy(s: State, c: nat, d: nat, e: nat)
    requires LockInv(s) && CursInv(s) && HolderAt(s, c) && RunsAt(s, d, e) && d != c
    ensures Busy(s.envs[e].status) && !Holder(s.cpus[d].pc)
  {
    assert HolderAt(s, d) <==> Holder(s.cpus[d].pc);
  }

  // Every environment but the old and the new current one of c is as busy as it was.
  ghost predicate Gentle(s: State, s': State, c: nat)
    requires c < |s.cpus| == |s'.cpus|
  {
    && |s'.envs| == |s.envs|
    && forall e: nat :: e < |s.envs| && s.cpus[c].cur != Some(e) && s'.cpus[c].cur != Some(e) ==>
         (Busy(s'.envs[e].status) <==> Busy(s.envs[e].status))
  }

  lemma CursStep(s: State, s': State, c: nat)
    requires LockInv(s) && CursInv(s) && c < |s.cpus| == |s'.cpus| && s'.cpus == s.cpus[c := s'.cpus[c]]
    requires HolderAt(s, c) || (s'.envs == s.envs && s'.cpus[c].cur == s.cpus[c].cur)
    requires Gentle(s, s', c)
    requires s'.cpus[c].cur.Some? ==>
               s'.cpus[c].cur.value < |s.envs| && Fits(s'.cpus[c].pc, s'.envs[s'.cpus[c].cur.value].status)
    requires s'.cpus[c].cur != s.cpus[c].cur ==>
               && (s.cpus[c].cur.Some? ==> !Busy(s'.envs[s.cpus[c].cur.value].status))
               && (s'.cpus[c].cur.Some? ==> !Busy(s.envs[s'.cpus[c].cur.value].status))
    requires Aimed(s'.cpus[c], s'.envs)
    ensures CursInv(s')
  {
    assert s.cpus[c].cur.Some? ==> RunsAt(s, c, s.cpus[c].cur.value);
    forall d: nat, e: nat | RunsAt(s', d, e)
      ensures e < |s.envs| && Fits(s'.cpus[d].pc, s'.envs[e].status) && (d != c ==> RunsAt(s, d, e))
    {
      if d != c {
        assert RunsAt(s, d, e);
        if HolderAt(s, c) { OutsideBusy(s, c, d, e); }
      }
    }
    forall d: nat, e: nat | RunsAt(s', d, e) && RunsAt(s', c, e) ensures d == c {
      if d != c && s'.cpus[c].cur != s.cpus[c].cur { OutsideBusy(s, c, d, e); }
    }
    forall e: nat | e < |s'.envs| && Busy(s'.envs[e].status) ensures exists d: nat :: RunsAt(s', d, e) {
      if s'.cpus[c].cur == Some(e) {
        assert RunsAt(s', c, e);
      } else {
        var d: nat :| RunsAt(s, d, e);
        assert RunsAt(s', d, e);
      }
    }
    forall d | 0 <= d < |s'.cpus| ensures Aimed(s'.cpus[d], s'.envs) {
      if d != c { assert Aimed(s.cpus[d], s.envs) && (HolderAt(s, d) <==> Holder(s.cpus[d].pc)); }
    }
  }

  // What handling a trap does to who is busy: nothing, but for the trapped environment itself.
  ghost predicate GentleOp(s: State, s': State, c: nat, cur: nat)
    requires c < |s'.cpus| && |s.envs| == NENV && cur < NENV
  {
    var pc' := s'.cpus[c].pc;
    && |s'.envs| == NENV
    && (forall e :: 0 <= e < NENV && e != cur ==> (Busy(s'.envs[e].status) <==> Busy(s.envs[e].status)))
    && (pc' == Decide || pc' == Yield || pc' == Forget) && Fits(pc', s'.envs[cur].status)
  }

  lemma IpcGentle(s: State, c: nat, cur: nat, op: Op)
    requires Sized(s) && EnvsInv(s.envs, s.freeEnvs) && c < |s.cpus| && cur < NENV && s.envs[cur].status == Running
    requires op.Send? || op.Recv?
    ensures |DoOp(s, c, cur, op).cpus| == |s.cpus| && GentleOp(s, DoOp(s, c, cur, op), c, cur)
  {
    if op.Send? {
      var e := Envid2Env(s.envs, cur, op.id, false);
      if e.Some? { SendGentle(s.envs, s.freeEnvs, cur, e.value, op.value, op.page); }
    } else {
      ReceiveGentle(s.envs, s.freeEnvs, cur, op.dstva);
    }
    hide EnvsInv, Block, Deliver, Receive;
  }

  lemma ControlGentle(s: State, c: nat, cur: nat, op: Op)
    requires Sized(s) && EnvsInv(s.envs, s.freeEnvs) && c < |s.cpus| && cur < NENV && s.envs[cur].status == Running
    requires !op.Send? && !op.Recv? && OpAllowed(s, cur, op)
    ensures |DoOp(s, c, cur, op).cpus| == |s.cpus| && GentleOp(s, DoOp(s, c, cur, op), c, cur)
  {
    hide EnvsInv, DoOp, OpAllowed, GentleOp;
    if op.SetStatus? { SetStatusGentle(s, c, cur, op); }
    else if op.Destroy? { DestroyGentle(s, c, cur, op); }
    else { PlainGentle(s, c, cur, op); }
  }

  lemma SetStatusGentle(s: State, c: nat, cur: nat, op: Op)
    requires Sized(s) && EnvsInv(s.envs, s.freeEnvs) && c < |s.cpus| && cur < NENV && s.envs[cur].status == Running
    requires op.SetStatus? && OpAllowed(s, cur, op)
    ensures |DoOp(s, c, cur, op).cpus| == |s.cpus| && GentleOp(s, DoOp(s, c, cur, op), c, cur)
  {
    hide EnvsInv, MaySet, Waits;
    MaySetIdle(s.envs, cur);
  }

  lemma DestroyGentle(s: State, c: nat, cur: nat, op: Op)
    requires Sized(s) && EnvsInv(s.envs, s.freeEnvs) && c < |s.cpus| && cur < NENV && s.envs[cur].status == Running
    requires op.Destroy? && OpAllowed(s, cur, op)
    ensures |DoOp(s, c, cur, op).cpus| == |s.cpus| && GentleOp(s, DoOp(s, c, cur, op), c, cur)
  {
    hide EnvsInv;
  }

  lemma PlainGentle(s: State, c: nat, cur: nat, op: Op)
    requires Sized(s) && EnvsInv(s.envs, s.freeEnvs) && c < |s.cpus| && cur < NENV && s.envs[cur].status == Running
    requires op.Nothing? || op.GiveUp? || op.Exofork?
    ensures |DoOp(s, c, cur, op).cpus| == |s.cpus| && GentleOp(s, DoOp(s, c, cur, op), c, cur)
  {
    hide NextId, WaitersBlocked, WaitersOnce, EnvOk;
  }

  lemma MaySetIdle(envs: seq<Env>, cur: nat)
    ensures forall e: nat, status :: e < |envs| && MaySet(envs, cur, e, status) ==>
              (e == cur && status == NotRunnable) || !Busy(envs[e].status)
  {}

  lemma OpGentle(s: State, c: nat, cur: nat, op: Op)
    requires Sized(s) && EnvsInv(s.envs, s.freeEnvs) && c < |s.cpus| && cur < NENV && s.envs[cur].status == Running
    requires OpAllowed(s, cur, op)
    ensures |DoOp(s, c, cur, op).cpus| == |s.cpus| && GentleOp(s, DoOp(s, c, cur, op), c, cur)
  {
    hide EnvsInv, DoOp, OpAllowed, GentleOp;
    if op.Send? || op.Recv? { IpcGentle(s, c, cur, op); } else { ControlGentle(s, c, cur, op); }
  }

  lemma SendGentle(envs: seq<Env>, freeEnvs: seq<nat>, cur: nat, e: nat, value: nat, page: Option<bv12>)
    requires EnvsInv(envs, freeEnvs) && cur < NENV && e < NENV && envs[cur].status == Running && envs[e].status != Free
    ensures var envs' := Block(envs, cur, e);
            && |envs'| == NENV && (envs'[cur].status == Running || envs'[cur].status == NotRunnable)
            && (forall d :: 0 <= d < NENV && d != cur ==> (Busy(envs'[d].status) <==> Busy(envs[d].status)))
    ensures envs[e].recving ==>
              var envs' := Deliver(envs, cur, e, value, page);
              && |envs'| == NENV && envs'[cur].status == Running
              && (forall d :: 0 <= d < NENV && d != cur ==> (Busy(envs'[d].status) <==> Busy(envs[d].status)))
  {
    assert EnvOk(envs[e], e);
  }

  lemma ReceiveGentle(envs: seq<Env>, freeEnvs: seq<nat>, cur: nat, dstva: nat)
    requires EnvsInv(envs, freeEnvs) && cur < NENV && envs[cur].status == Running
    ensures var envs' := Receive(envs, cur, dstva).0;
            && |envs'| == NENV && envs'[cur].status == NotRunnable
            && (forall e :: 0 <= e < NENV && e != cur ==> (Busy(envs'[e].status) <==> Busy(envs[e].status)))
            && (forall e :: 0 <= e < NENV && envs[e].status == Free ==> envs'[e].status == Free)
            && (forall e :: 0 <= e < NENV ==>
                 envs'[e].from == envs[e].from && envs'[e].value == envs[e].value && envs'[e].id == envs[e].id)
            && (forall e :: 0 <= e < NENV && e != cur ==> envs'[e].recving == envs[e].recving)
  {
    assert EnvOk(envs[cur], cur);
    var me := envs[cur].(recving := true, dstva := dstva, status := NotRunnable);
    if me.head != me.tail {
      DequeueTakes(me);
      QueueBound(me);
      assert Queue(me) == Queue(envs[cur]);
      var envs1 := envs[cur := me.(head := (me.head + 1) % MAXIPCWAITING)];
      var found := Envid2Env(envs1, cur, Queue(me)[0], false);
      if found.Some? {
        assert EnvOk(envs[found.value], found.value);
        assert Waits(envs, cur, 0, found.value);
      }
    }
  }

  lemma OpEnvs(s: State, c: nat, cur: nat, op: Op)
    requires Sized(s) && EnvsInv(s.envs, s.freeEnvs) && c < |s.cpus| && cur < NENV && s.envs[cur].status == Running
    requires OpAllowed(s, cur, op)
    ensures EnvsInv(DoOp(s, c, cur, op).envs, DoOp(s, c, cur, op).freeEnvs)
  {
    match op
    case Nothing =>
    case GiveUp =>
    case Exofork =>
      if s.freeEnvs != [] { ExoforkEnvs(s.envs, s.freeEnvs, s.envs[cur].id); }
    case SetStatus(id, status) =>
      var e := Envid2Env(s.envs, cur, id, true);
      if e.Some? && (status == Runnable || status == NotRunnable) {
        MaySetEnvs(s.envs, s.freeEnvs, cur, e.value, status);
      }
    case Destroy(id) =>
      var e := Envid2Env(s.envs, cur, id, true);
      if e.Some? {
        assert EnvOk(s.envs[e.value], e.value);
        if s.envs[e.value].status == Running && e.value != cur {
          RunsNotWaiting(s.envs, e.value);
          StatusEnvs(s.envs, s.freeEnvs, e.value, Dying);
        } else {
          StatusEnvs(s.envs, s.freeEnvs, e.value, Free);
        }
      }
    case Send(id, value, refused, page) =>
      var e := Envid2Env(s.envs, cur, id, false);
      if e.Some? {
        if !s.envs[e.value].recving { BlockEnvs(s.envs, s.freeEnvs, cur, e.value); }
        else if !refused { DeliverEnvs(s.envs, s.freeEnvs, cur, e.value, value, page); }
      }
    case Recv(dstva) => ReceiveEnvs(s.envs, s.freeEnvs, cur, dstva);
  }

  // ---------- every step

  // An environment that sched_yield picks is runnable, or runs here already.
  lemma PickedAimed(s: State, c: nat, a: Action)
    requires LockInv(s) && CursInv(s) && Sized(s) && Allowed(s, c, a) && s.cpus[c].pc == Yield
    ensures var s' := Step(s, c, a);
            s'.envs == s.envs && Aimed(s'.cpus[c], s.envs)
              && (s.cpus[c].cur.Some? ==> Fits(s'.cpus[c].pc, s.envs[s.cpus[c].cur.value].status))
  {
    if s.cpus[c].cur.Some? { assert RunsAt(s, c, s.cpus[c].cur.value); }
  }

  // The steps of a CPU that change no environment and not its current one.
  predicate OnlyPc(pc: Pc) {
    !(pc.Reap? || pc.Forget? || pc.Dispatch? || pc.Switch? || pc.Adopt? || pc.Mark? || pc.Idle?)
  }

  lemma PcStepInside(s: State, c: nat, a: Action)
    requires LockInv(s) && CursInv(s) && Sized(s) && Allowed(s, c, a) && OnlyPc(s.cpus[c].pc) && Holder(s.cpus[c].pc)
    ensures CursInv(Step(s, c, a)) && Step(s, c, a).envs == s.envs && Step(s, c, a).freeEnvs == s.freeEnvs
    ensures Step(s, c, a).cpus[c].cur == s.cpus[c].cur
  {
    if s.cpus[c].cur.Some? { assert RunsAt(s, c, s.cpus[c].cur.value); }
    if s.cpus[c].pc == Yield { PickedAimed(s, c, a); }
    assert CpuOk(s.cpus[c]) && (Owner(s.cpus[c].pc) <==> s.lock.cpu == Some(c)) && HolderAt(s, c)
           && Aimed(s.cpus[c], s.envs);
    hide LockInv, CursInv, DoOp, SetEnvStatus, Release, Picks, OpAllowed, CpuOk, HolderAt, Observe, Holder, Owner;
    CursStep(s, Step(s, c, a), c);
  }

  lemma PcStepOutside(s: State, c: nat, a: Action)
    requires LockInv(s) && CursInv(s) && Sized(s) && Allowed(s, c, a) && OnlyPc(s.cpus[c].pc) && !Holder(s.cpus[c].pc)
    ensures CursInv(Step(s, c, a)) && Step(s, c, a).envs == s.envs && Step(s, c, a).freeEnvs == s.freeEnvs
    ensures Step(s, c, a).cpus[c].cur == s.cpus[c].cur
  {
    if s.cpus[c].cur.Some? { assert RunsAt(s, c, s.cpus[c].cur.value); }
    assert CpuOk(s.cpus[c]) && (Owner(s.cpus[c].pc) <==> s.lock.cpu == Some(c));
    hide LockInv, CursInv, DoOp, SetEnvStatus, Release, Picks, OpAllowed, CpuOk, HolderAt;
    CursStep(s, Step(s, c, a), c);
  }

  // The writes of env_run.
  lemma RunStep(s: State, c: nat, a: Action)
    requires LockInv(s) && CursInv(s) && Sized(s) && Allowed(s, c, a)
    requires s.cpus[c].pc.Switch? || s.cpus[c].pc.Adopt? || s.cpus[c].pc.Mark?
    ensures CursInv(Step(s, c, a))
  {
    if s.cpus[c].cur.Some? { assert RunsAt(s, c, s.cpus[c].cur.value); }
    assert CpuOk(s.cpus[c]) && HolderAt(s, c) && Aimed(s.cpus[c], s.envs);
    hide LockInv, CursInv, DoOp, Picks, OpAllowed, CpuOk, HolderAt;
    CursStep(s, Step(s, c, a), c);
  }

  // Those of env_free and sched_halt.
  lemma StopStep(s: State, c: nat, a: Action)
    requires LockInv(s) && CursInv(s) && Sized(s) && Allowed(s, c, a)
    requires s.cpus[c].pc.Reap? || s.cpus[c].pc.Forget? || s.cpus[c].pc.Idle?
    ensures CursInv(Step(s, c, a))
  {
    if s.cpus[c].cur.Some? { assert RunsAt(s, c, s.cpus[c].cur.value); }
    assert CpuOk(s.cpus[c]) && HolderAt(s, c);
    hide LockInv, CursInv, DoOp, Picks, OpAllowed, CpuOk, HolderAt;
    CursStep(s, Step(s, c, a), c);
  }

  lemma DispatchStep(s: State, c: nat, a: Action)
    requires LockInv(s) && CursInv(s) && EnvsInv(s.envs, s.freeEnvs) && Sized(s) && Allowed(s, c, a)
             && s.cpus[c].pc.Dispatch?
    ensures CursInv(Step(s, c, a)) && EnvsInv(Step(s, c, a).envs, Step(s, c, a).freeEnvs)
  {
    var cur := s.cpus[c].cur.value;
    assert RunsAt(s, c, cur) && HolderAt(s, c);
    OpGentle(s, c, cur, a.op);
    OpEnvs(s, c, cur, a.op);
    OpMoves(s, c, cur, a.op);
    hide LockInv, CursInv, DoOp, OpAllowed, EnvsInv;
    CursStep(s, Step(s, c, a), c);
  }

  lemma WriteEnvs(s: State, c: nat, a: Action)
    requires LockInv(s) && CursInv(s) && EnvsInv(s.envs, s.freeEnvs) && Sized(s) && Allowed(s, c, a)
    requires !OnlyPc(s.cpus[c].pc) && !s.cpus[c].pc.Dispatch?
    ensures EnvsInv(Step(s, c, a).envs, Step(s, c, a).freeEnvs)
  {
    if s.cpus[c].cur.Some? {
      var cur := s.cpus[c].cur.value;
      assert RunsAt(s, c, cur) && EnvOk(s.envs[cur], cur);
      if s.cpus[c].pc.Reap? { StatusEnvs(s.envs, s.freeEnvs, cur, Free); }
      if s.cpus[c].pc.Switch? && s.envs[cur].status == Running {
        RunsNotWaiting(s.envs, cur);
        StatusEnvs(s.envs, s.freeEnvs, cur, Runnable);
      }
      if s.cpus[c].pc.Mark? {
        assert Aimed(s.cpus[c], s.envs);
        RunsNotWaiting(s.envs, cur);
        StatusEnvs(s.envs, s.freeEnvs, cur, Running);
      }
    }
    assert CpuOk(s.cpus[c]);
    hide LockInv, CursInv, DoOp, OpAllowed, EnvsInv;
  }

  ghost predicate TableInv(s: State) { LockInv(s) && Sized(s) && CursInv(s) && EnvsInv(s.envs, s.freeEnvs) }

  lemma TableStep(s: State, c: nat, a: Action)
    requires TableInv(s) && Allowed(s, c, a)
    ensures TableInv(Step(s, c, a))
  {
    LockStep(s, c, a);
    hide LockInv, CursInv, EnvsInv, Step, Allowed;
    if OnlyPc(s.cpus[c].pc) {
      if Holder(s.cpus[c].pc) { PcStepInside(s, c, a); } else { PcStepOutside(s, c, a); }
    } else if s.cpus[c].pc.Dispatch? {
      DispatchStep(s, c, a);
    } else {
      if s.cpus[c].pc.Switch? || s.cpus[c].pc.Adopt? || s.cpus[c].pc.Mark? {
        RunStep(s, c, a);
      } else {
        StopStep(s, c, a);
      }
      WriteEnvs(s, c, a);
    }
  }
}
