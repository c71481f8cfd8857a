/** The theorems about whole runs of the multi-CPU machine. */
module SmpRuns {
  import opened Mmu
  import opened Envs
  import opened Ipc
  import opened Sched
  import opened Smp
  import opened SmpLock
  import opened SmpTable

  // ---------- messages

  predicate LogOk(t: Env, log: Log) {
    && log.sent == log.seen + (if log.pending then [(t.from, t.value)] else [])
    && (log.pending ==> !t.recving)
  }

  // On the way back to user mode, where a pending message is read.
  predicate Resuming(pc: Pc) { pc.Mark? || pc.UnlockCheck? || pc.UnlockClear? || pc.UnlockRelease? }

  ghost predicate LogsInv(s: State) {
    && |s.logs| == |s.envs|
    && (forall e :: 0 <= e < |s.envs| && s.envs[e].status != Free ==> LogOk(s.envs[e], s.logs[e]))
    && (forall c: nat, e: nat :: RunsAt(s, c, e) && e < |s.logs| && !Resuming(s.cpus[c].pc) ==> !s.logs[e].pending)
  }

  // A step that sends nothing and reads nothing.
  lemma QuietStep(s: State, s': State, c: nat)
    requires LogsInv(s) && c < |s.cpus| == |s'.cpus| && s'.cpus == s.cpus[c := s'.cpus[c]] && s'.logs == s.logs
             && |s'.envs| == |s.envs|
    requires forall e :: 0 <= e < |s.envs| && s'.envs[e].status != Free ==>
               && s.envs[e].status != Free && s'.envs[e].from == s.envs[e].from && s'.envs[e].value == s.envs[e].value
               && (s'.envs[e].recving ==> s.envs[e].recving || !s.logs[e].pending)
    requires s'.cpus[c].cur.Some? && !Resuming(s'.cpus[c].pc) && s'.cpus[c].cur.value < |s.logs| ==>
               !s.logs[s'.cpus[c].cur.value].pending
    ensures LogsInv(s')
  {
    forall d: nat, e: nat | RunsAt(s', d, e) && e < |s'.logs| && !Resuming(s'.cpus[d].pc) ensures !s'.logs[e].pending {
      if d != c { assert RunsAt(s, d, e); }
    }
    forall e | 0 <= e < |s'.envs| && s'.envs[e].status != Free
      ensures LogOk(s'.envs[e], s'.logs[e])
    {
      assert LogOk(s.envs[e], s.logs[e]);
    }
  }

  lemma ExoforkLogs(s: State, c: nat, cur: nat)
    requires TableInv(s) && LogsInv(s) && RunsAt(s, c, cur) && s.cpus[c].pc.Dispatch? && cur < NENV && s.freeEnvs != []
    ensures LogsInv(DoOp(s, c, cur, Exofork))
  {
    var s', e := DoOp(s, c, cur, Exofork), s.freeEnvs[0];
    assert s.envs[e].status == Free;
    hide NextId;
    forall d: nat, f: nat | RunsAt(s', d, f) && f < |s'.logs| && !Resuming(s'.cpus[d].pc) ensures !s'.logs[f].pending {
      assert RunsAt(s, d, f);
    }
    forall f | 0 <= f < |s'.envs| && s'.envs[f].status != Free ensures LogOk(s'.envs[f], s'.logs[f]) {
      if f != e { assert LogOk(s.envs[f], s.logs[f]); }
    }
  }

  // A receiving environment is nobody's current one.
  lemma ReceiverIdle(s: State, c: nat, d: nat, e: nat)
    requires TableInv(s) && HolderAt(s, c) && s.cpus[c].pc.Dispatch? && e < NENV && s.envs[e].status != Free
             && s.envs[e].recving
    ensures !RunsAt(s, d, e)
  {
    assert EnvOk(s.envs[e], e);
    if RunsAt(s, d, e) && d != c { OutsideBusy(s, c, d, e); }
  }

  lemma SendLogs(s: State, c: nat, cur: nat, op: Op)
    requires TableInv(s) && LogsInv(s) && RunsAt(s, c, cur) && s.cpus[c].pc.Dispatch? && cur < NENV && op.Send?
    ensures LogsInv(DoOp(s, c, cur, op))
  {
    var s', found := DoOp(s, c, cur, op), Envid2Env(s.envs, cur, op.id, false);
    assert HolderAt(s, c) && s.envs[cur].status == Running;
    if found.Some? && s.envs[found.value].recving && !op.refused {
      var e := found.value;
      assert LogOk(s.envs[e], s.logs[e]);
      forall d: nat, f: nat | RunsAt(s', d, f) && f < |s'.logs| && !Resuming(s'.cpus[d].pc)
        ensures !s'.logs[f].pending
      {
        ReceiverIdle(s, c, d, e);
        assert RunsAt(s, d, f);
      }
      forall f | 0 <= f < |s'.envs| && s'.envs[f].status != Free ensures LogOk(s'.envs[f], s'.logs[f]) {
        assert f != e ==> LogOk(s.envs[f], s.logs[f]);
      }
    } else {
      QuietStep(s, s', c);
    }
  }

  // Statuses may change and environments may go, but no message moves.
  ghost predicate SameMessages(s: State, s': State) {
    && s'.logs == s.logs && |s'.envs| == |s.envs| == |s.logs|
    && forall e :: 0 <= e < |s.envs| && s'.envs[e].status != Free ==>
         && s.envs[e].status != Free && s'.envs[e].from == s.envs[e].from && s'.envs[e].value == s.envs[e].value
         && (s'.envs[e].recving ==> s.envs[e].recving || !s.logs[e].pending)
  }

  lemma RecvMessages(s: State, c: nat, cur: nat, dstva: nat)
    requires Sized(s) && EnvsInv(s.envs, s.freeEnvs) && c < |s.cpus| && cur < NENV && s.envs[cur].status == Running
             && !s.logs[cur].pending
    ensures SameMessages(s, DoOp(s, c, cur, Recv(dstva)))
  {
    ReceiveGentle(s.envs, s.freeEnvs, cur, dstva);
    hide EnvsInv, Receive;
  }

  lemma ControlMessages(s: State, c: nat, cur: nat, op: Op)
    requires Sized(s) && EnvsInv(s.envs, s.freeEnvs) && c < |s.cpus| && cur < NENV && s.envs[cur].status == Running
    requires !op.Send? && !op.Recv? && (op.Exofork? ==> s.freeEnvs == [])
    ensures SameMessages(s, DoOp(s, c, cur, op))
  {}

  lemma OtherOpLogs(s: State, c: nat, cur: nat, op: Op)
    requires TableInv(s) && LogsInv(s) && RunsAt(s, c, cur) && s.cpus[c].pc.Dispatch? && cur < NENV && !op.Send?
    ensures LogsInv(DoOp(s, c, cur, op))
  {
    assert s.envs[cur].status == Running;
    PendingNot(s, c, cur);
    if op.Exofork? && s.freeEnvs != [] {
      ExoforkLogs(s, c, cur);
    } else {
      if op.Recv? { RecvMessages(s, c, cur, op.dstva); } else { ControlMessages(s, c, cur, op); }
      OpMoves(s, c, cur, op);
      hide EnvsInv, LockInv, CursInv, LogsInv, DoOp;
      QuietStep(s, DoOp(s, c, cur, op), c);
    }
  }

  lemma PendingNot(s: State, c: nat, cur: nat)
    requires LogsInv(s) && RunsAt(s, c, cur) && !Resuming(s.cpus[c].pc) && cur < |s.logs|
    ensures !s.logs[cur].pending
  {}

  // Coming back to user mode, the environment reads what is pending.
  lemma ResumeLogs(s: State, c: nat, a: Action)
    requires TableInv(s) && LogsInv(s) && Allowed(s, c, a) && s.cpus[c].pc.UnlockRelease?
    ensures LogsInv(Step(s, c, a))
  {
    var s' := Step(s, c, a);
    assert CpuOk(s.cpus[c]);
    if s.cpus[c].cur.Some? {
      var e := s.cpus[c].cur.value;
      assert RunsAt(s, c, e);
      forall d: nat, f: nat | RunsAt(s', d, f) && f < |s'.logs| && !Resuming(s'.cpus[d].pc)
        ensures !s'.logs[f].pending
      {
        assert RunsAt(s, d, f);
      }
      forall f | 0 <= f < |s'.envs| && s'.envs[f].status != Free ensures LogOk(s'.envs[f], s'.logs[f]) {
        assert LogOk(s.envs[f], s.logs[f]);
      }
    } else {
      QuietStep(s, s', c);
    }
  }

  lemma PlainMessages(s: State, c: nat, a: Action)
    requires Sized(s) && c < |s.cpus| && !s.cpus[c].pc.Dispatch? && !s.cpus[c].pc.UnlockRelease?
    requires s.cpus[c].cur.Some? ==>
               s.cpus[c].pc.Reap? || s.envs[s.cpus[c].cur.value].status != Free || s.cpus[c].pc.Forget?
    requires s.cpus[c].pc.Mark? ==> s.cpus[c].cur == Some(s.cpus[c].pc.e)
    ensures SameMessages(s, Step(s, c, a))
  {
    hide DoOp, Picks, Holding, Observe, Envid2Env;
  }

  // A step makes a new environment current only on the way to running it.
  lemma PlainCur(s: State, c: nat, a: Action)
    requires Sized(s) && Allowed(s, c, a) && !s.cpus[c].pc.Dispatch? && !s.cpus[c].pc.UnlockRelease?
    ensures var cpu' := Step(s, c, a).cpus[c];
            && |Step(s, c, a).cpus| == |s.cpus|
            && (cpu'.cur == s.cpus[c].cur || cpu'.cur == None || Resuming(cpu'.pc))
            && (Resuming(s.cpus[c].pc) ==> Resuming(cpu'.pc) || cpu'.pc == Panic)
  {
    hide DoOp, Picks, Holding, Observe, Envid2Env;
  }

  lemma LogsStep(s: State, c: nat, a: Action)
    requires TableInv(s) && LogsInv(s) && Allowed(s, c, a)
    ensures LogsInv(Step(s, c, a))
  {
    var pc := s.cpus[c].pc;
    TableStep(s, c, a);
    assert Step(s, c, a).cpus[c].pc != Panic by { CpuMovesOf(s, c, a); }
    if s.cpus[c].cur.Some? { assert RunsAt(s, c, s.cpus[c].cur.value); }
    if pc.Dispatch? {
      if a.op.Send? {
        SendLogs(s, c, s.cpus[c].cur.value, a.op);
      } else {
        OtherOpLogs(s, c, s.cpus[c].cur.value, a.op);
      }
    } else if pc.UnlockRelease? {
      ResumeLogs(s, c, a);
    } else {
      assert Aimed(s.cpus[c], s.envs);
      if s.cpus[c].cur.Some? && !Resuming(pc) { PendingNot(s, c, s.cpus[c].cur.value); }
      hide DoOp, OpAllowed, Picks, TableInv, EnvsInv, CursInv, LockInv, Step, LogsInv;
      PlainMessages(s, c, a);
      OnlyOneMoves(s, c, a);
      PlainCur(s, c, a);
      QuietStep(s, Step(s, c, a), c);
    }
  }

  lemma CpuMovesOf(s: State, c: nat, a: Action)
    requires TableInv(s) && Allowed(s, c, a)
    ensures |Step(s, c, a).cpus| == |s.cpus| && Step(s, c, a).cpus[c].pc != Panic
  {
    assert HolderAt(s, c) <==> Holder(s.cpus[c].pc);
    CpuMoves(s, c, a);
  }

  // ---------- the theorems

  ghost predicate RunInv(s: State) { TableInv(s) && LogsInv(s) }

  lemma {:induction false} RunKeeps(ss: seq<State>, es: seq<(nat, Action)>, n: nat)
    requires IsRun(ss, es) && n <= |es| && RunInv(ss[0])
    ensures RunInv(ss[n])
  {
    hide TableInv, LogsInv, Step, Allowed;
    if n > 0 {
      RunKeeps(ss, es, n - 1);
      TableStep(ss[n - 1], es[n - 1].0, es[n - 1].1);
      LogsStep(ss[n - 1], es[n - 1].0, es[n - 1].1);
    }
  }

  /** The kernel as booting leaves it: CPU 0 is in sched_yield with the lock, the others have yet
      to take it, and no environment has run. */
  ghost predicate Booted(s: State) {
    && |s.cpus| >= 1 && |s.envs| == |s.logs| == NENV
    && s.lock == Lock(true, Some(0)) && s.cpus[0] == Cpu(Yield, None, false)
    && (forall c :: 1 <= c < |s.cpus| ==> s.cpus[c] == Cpu(ApStart, None, false))
    && (forall e :: 0 <= e < NENV ==>
          && EnvOk(s.envs[e], e) && s.envs[e].head == s.envs[e].tail
          && (s.envs[e].status == Free || s.envs[e].status == Runnable) && s.logs[e] == Log([], [], false))
    && FreeSlots(s.envs, s.freeEnvs)
  }

  lemma BootedInv(s: State)
    requires Booted(s)
    ensures RunInv(s)
  {
    assert HolderAt(s, 0);
    assert forall r: nat, i: nat, e: nat :: !Waits(s.envs, r, i, e);
    forall e | 0 <= e < NENV ensures LogOk(s.envs[e], s.logs[e]) {}
  }

  /** Multi-CPU exclusivity: whenever the kernel lock is free, an environment is running or dying
      exactly when it is the current one of a CPU, and of one CPU only. */
  lemma Exclusive(ss: seq<State>, es: seq<(nat, Action)>, n: nat, e: nat)
    requires IsRun(ss, es) && n <= |es| && RunInv(ss[0]) && e < NENV && !ss[n].lock.locked
    ensures |ss[n].envs| == NENV && (Busy(ss[n].envs[e].status) <==> exists c: nat :: RunsAt(ss[n], c, e))
    ensures forall c: nat, d: nat :: RunsAt(ss[n], c, e) && RunsAt(ss[n], d, e) ==> c == d
  {
    RunKeeps(ss, es, n);
    var s := ss[n];
    forall c: nat | RunsAt(s, c, e) ensures Busy(s.envs[e].status) {
      assert HolderAt(s, c) <==> Holder(s.cpus[c].pc);
    }
  }

  /** The rings, at every point of a run: head and tail below ten, at most nine waiting, and a
      live environment that waits is blocked and stands in one place of one ring. */
  lemma RingsSound(ss: seq<State>, es: seq<(nat, Action)>, n: nat, r: nat, i: nat, e: nat)
    requires IsRun(ss, es) && n <= |es| && RunInv(ss[0]) && r < NENV
    ensures |ss[n].envs| == NENV && RingFormed(ss[n].envs[r]) && |Queue(ss[n].envs[r])| <= MAXIPCWAITING - 1
    ensures Waits(ss[n].envs, r, i, e) ==>
              && ss[n].envs[e].status == NotRunnable
              && forall q: nat, j: nat :: Waits(ss[n].envs, q, j, e) ==> q == r && j == i
  {
    RunKeeps(ss, es, n);
    assert EnvOk(ss[n].envs[r], r);
    QueueBound(ss[n].envs[r]);
  }

  /** Exactly-once delivery: what a live environment has seen is what was successfully sent to
      it, in order, but for a last message it has yet to come back and read; and nothing is
      sent to it while that message is unread. */
  lemma ExactlyOnce(ss: seq<State>, es: seq<(nat, Action)>, n: nat, e: nat)
    requires IsRun(ss, es) && n <= |es| && RunInv(ss[0]) && e < NENV
    ensures |ss[n].envs| == |ss[n].logs| == NENV
    ensures ss[n].envs[e].status != Free ==>
              var t, log := ss[n].envs[e], ss[n].logs[e];
              && log.sent == log.seen + (if log.pending then [(t.from, t.value)] else [])
              && (log.pending ==> !t.recving)
    ensures forall c: nat :: RunsAt(ss[n], c, e) && ss[n].cpus[c].pc == InUser ==>
              ss[n].logs[e].seen == ss[n].logs[e].sent
  {
    RunKeeps(ss, es, n);
    var s := ss[n];
    assert s.envs[e].status != Free ==> LogOk(s.envs[e], s.logs[e]);
    forall c: nat | RunsAt(s, c, e) && s.cpus[c].pc == InUser ensures s.logs[e].seen == s.logs[e].sent {
      PendingNot(s, c, e);
    }
  }

  // Handling a trap writes the message of e, which goes on living, only by a send to it.
  lemma OpKeepsMessage(s: State, c: nat, cur: nat, op: Op, e: nat)
    requires TableInv(s) && RunsAt(s, c, cur) && s.cpus[c].pc.Dispatch? && cur < NENV && e < NENV
             && s.envs[e].status != Free
    requires !s.logs[cur].pending
    ensures var s' := DoOp(s, c, cur, op);
            && |s'.envs| == NENV
            && (s'.envs[e].status != Free
                 && (s'.envs[e].from, s'.envs[e].value) != (s.envs[e].from, s.envs[e].value) ==>
                      s.envs[e].recving && op.Send?)
  {
    assert s.envs[cur].status == Running;
    if op.Send? {
      var found := Envid2Env(s.envs, cur, op.id, false);
      hide TableInv;
    } else if op.Recv? {
      RecvMessages(s, c, cur, op.dstva);
      hide TableInv, DoOp;
    } else if op.Exofork? && s.freeEnvs != [] {
      assert s.envs[s.freeEnvs[0]].status == Free;
      hide TableInv, NextId;
    } else {
      ControlMessages(s, c, cur, op);
      hide TableInv, DoOp;
    }
  }

  /** No delivered value is overwritten before the next sys_ipc_recv: a step changes the message
      of an environment that lives on only if it was receiving, and then nothing was unread. */
  lemma NotOverwritten(s: State, c: nat, a: Action, e: nat)
    requires RunInv(s) && Allowed(s, c, a) && e < NENV && s.envs[e].status != Free
    ensures var s' := Step(s, c, a);
            && |s'.envs| == NENV
            && (s'.envs[e].status != Free
                 && (s'.envs[e].from, s'.envs[e].value) != (s.envs[e].from, s.envs[e].value) ==>
                s.envs[e].recving && !s.logs[e].pending && s.cpus[c].pc.Dispatch? && a.op.Send?)
  {
    assert LogOk(s.envs[e], s.logs[e]);
    var pc := s.cpus[c].pc;
    if s.cpus[c].cur.Some? {
      assert RunsAt(s, c, s.cpus[c].cur.value);
      if !Resuming(pc) { PendingNot(s, c, s.cpus[c].cur.value); }
    }
    assert Aimed(s.cpus[c], s.envs);
    if pc.Dispatch? {
      OpKeepsMessage(s, c, s.cpus[c].cur.value, a.op, e);
      hide TableInv, LogsInv, DoOp, OpAllowed;
    } else if pc.UnlockRelease? {
      hide TableInv, LogsInv, Allowed;
    } else {
      hide TableInv, LogsInv, Step, Allowed;
      PlainMessages(s, c, a);
    }
  }
}
