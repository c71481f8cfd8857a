/** What each step of the machine does to each environment's record, said from the outside: who is
    blocked, woken, preempted, killed or freed by what, and what a system call or a yield comes
    back to. */
module SmpMoves {
  import opened Mmu
  import opened Envs
  import opened Ipc
  import opened Sched
  import opened Smp
  import opened SmpLock
  import opened SmpTable

  /** What a step means to the environments. `who` is the environment that made the system call. */
  datatype Event =
    | Quiet
    | Preempts(e: nat)
    | Starts(e: nat)
    | Collects(e: nat)
    | Sets(e: nat, status: Status)
    | Destroys(who: nat, e: nat)
    | Queues(who: nat, at: nat)
    | Reaches(who: nat, at: nat, value: nat, page: Option<bv12>)
    | Receives(who: nat, dstva: nat)

  function EventOf(s: State, c: nat, a: Action): Event
    requires Sized(s) && c < |s.cpus|
  {
    var cpu := s.cpus[c];
    match cpu.pc
    case Switch(t) =>
      if cpu.cur.Some? && cpu.cur.value != t && s.envs[cpu.cur.value].status == Running then Preempts(cpu.cur.value)
      else Quiet
    case Mark(e) => Starts(e)
    case Reap => if cpu.cur.Some? then Collects(cpu.cur.value) else Quiet
    case Dispatch => if a.Handle? && cpu.cur.Some? then Called(s.envs, cpu.cur.value, a.op) else Quiet
    case _ => Quiet
  }

  // The event that a system call of `who` is.
  function Called(envs: seq<Env>, who: nat, op: Op): Event
    requires |envs| == NENV && who < NENV
  {
    match op
    case SetStatus(id, status) =>
      var e := Envid2Env(envs, who, id, true);
      if e.Some? && (status == Runnable || status == NotRunnable) then Sets(e.value, status) else Quiet
    case Destroy(id) =>
      var e := Envid2Env(envs, who, id, true);
      if e.Some? then Destroys(who, e.value) else Quiet
    case Send(id, value, refused, page) =>
      var e := Envid2Env(envs, who, id, false);
      if e.None? || !RingFormed(envs[e.value]) then Quiet
      else if envs[e.value].recving then (if refused then Quiet else Reaches(who, e.value, value, page))
      else if |Queue(envs[e.value])| < MAXIPCWAITING - 1 then Queues(who, e.value)
      else Quiet
    case Recv(dstva) => Receives(who, dstva)
    case _ => Quiet
  }

  /** The status that an environment has after an event: a preempted one is runnable; one that
      receives, or sends to a target that is not receiving and has room in its ring, is blocked; a
      message wakes its target, and a receive the first in the receiver's ring; one that is
      destroyed while it runs on another CPU is told to die, and is freed otherwise. */
  predicate StatusIs(envs: seq<Env>, v: Event, e: nat, status: Status)
    requires |envs| == NENV && e < NENV && (v.Receives? ==> v.who < NENV && RingFormed(envs[v.who]))
  {
    status == match v
              case Quiet => envs[e].status
              case Preempts(d) => if e == d then Runnable else envs[e].status
              case Starts(d) => if e == d then Running else envs[e].status
              case Collects(d) => if e == d then Free else envs[e].status
              case Sets(d, st) => if e == d then st else envs[e].status
              case Destroys(who, d) =>
                if e != d then envs[e].status else if envs[e].status == Running && who != d then Dying else Free
              case Queues(who, _) => if e == who then NotRunnable else envs[e].status
              case Reaches(_, d, _, _) => if e == d then Runnable else envs[e].status
              case Receives(who, _) =>
                if Front(envs, who) == Some(e) then Runnable else if e == who then NotRunnable else envs[e].status
  }

  /** Its message fields: written by its own receive, and by a message that reaches it. */
  predicate MessageIs(envs: seq<Env>, v: Event, e: nat, t: Env)
    requires |envs| == NENV && e < NENV && (v.Reaches? ==> v.who < NENV)
  {
    if v.Receives? && v.who == e then
      && t.recving && t.dstva == v.dstva
      && t.value == envs[e].value && t.from == envs[e].from && t.perm == envs[e].perm
    else if v.Reaches? && v.at == e then
      && !t.recving && t.dstva == envs[e].dstva
      && t.value == v.value && t.from == envs[v.who].id
      && t.perm == (if v.page.Some? then v.page.value else envs[e].perm)
    else SameMessage(envs[e], t)
  }

  /** Its ring: senders come in at the back, and its own receive takes the front. */
  predicate RingIs(envs: seq<Env>, v: Event, e: nat, t: Env)
    requires |envs| == NENV && e < NENV && RingFormed(envs[e]) && (v.Queues? ==> v.who < NENV)
  {
    RingFormed(t)
    && var q := Queue(envs[e]);
       Queue(t) == if v.Receives? && v.who == e then (if q == [] then [] else q[1..])
                   else if v.Queues? && v.at == e then q + [envs[v.who].id]
                   else q
  }

  predicate InTable(envs: seq<Env>, v: Event, e: nat) {
    && |envs| == NENV && e < NENV && RingFormed(envs[e])
    && (v.Receives? ==> v.who < NENV && RingFormed(envs[v.who])) && (v.Reaches? ==> v.who < NENV)
    && (v.Queues? ==> v.who < NENV)
  }

  predicate RecordIs(envs: seq<Env>, v: Event, e: nat, t: Env)
    requires InTable(envs, v, e)
  {
    && t.id == envs[e].id && t.parent == envs[e].parent
    && StatusIs(envs, v, e, t.status) && MessageIs(envs, v, e, t) && RingIs(envs, v, e, t)
  }

  // ---------- system calls

  lemma AllFormed(envs: seq<Env>, freeEnvs: seq<nat>)
    requires EnvsInv(envs, freeEnvs)
    ensures |envs| == NENV && forall e :: 0 <= e < NENV ==> RingFormed(envs[e])
  {
    forall e | 0 <= e < NENV ensures RingFormed(envs[e]) { assert EnvOk(envs[e], e); }
  }

  lemma SendRecord(envs: seq<Env>, who: nat, op: Op, e: nat)
    requires |envs| == NENV && who < NENV && op.Send? && e < NENV && forall d :: 0 <= d < NENV ==> RingFormed(envs[d])
    ensures var found := Envid2Env(envs, who, op.id, false);
            var t := if found.None? then envs
                     else if !envs[found.value].recving then Block(envs, who, found.value)
                     else if op.refused then envs
                     else Deliver(envs, who, found.value, op.value, op.page);
            |t| == NENV && InTable(envs, Called(envs, who, op), e) && RecordIs(envs, Called(envs, who, op), e, t[e])
  {
    var found := Envid2Env(envs, who, op.id, false);
    hide RingFormed, Queue, Block, Deliver;
    if found.Some? {
      DeliverLeaves(envs, who, found.value, op.value, op.page, e);
      BlockLeaves(envs, who, found.value, e);
    }
    assert forall q: seq<int> :: q + [] == q;
  }

  // A running environment does not wait in its own ring.
  lemma NotOwnFront(envs: seq<Env>, freeEnvs: seq<nat>, cur: nat)
    requires EnvsInv(envs, freeEnvs) && cur < NENV && envs[cur].status == Running
    ensures RingFormed(envs[cur]) && Front(envs, cur) != Some(cur)
  {
    assert EnvOk(envs[cur], cur);
    RunsNotWaiting(envs, cur);
    if Queue(envs[cur]) != [] { assert !Waits(envs, cur, 0, cur); }
  }

  lemma RecvRecord(envs: seq<Env>, freeEnvs: seq<nat>, who: nat, dstva: nat, e: nat)
    requires EnvsInv(envs, freeEnvs) && who < NENV && envs[who].status == Running && e < NENV
    ensures var t := Receive(envs, who, dstva).0;
            |t| == NENV && InTable(envs, Receives(who, dstva), e) && RecordIs(envs, Receives(who, dstva), e, t[e])
  {
    AllFormed(envs, freeEnvs);
    NotOwnFront(envs, freeEnvs, who);
    hide EnvsInv, RingFormed, Front, Receive;
    ReceiveLeaves(envs, who, dstva, e);
    hide Queue;
    var t := Receive(envs, who, dstva).0;
    if e != who { SameQueue(envs[e], t[e]); }
  }

  lemma CallRecord(s: State, c: nat, who: nat, op: Op, e: nat)
    requires Sized(s) && EnvsInv(s.envs, s.freeEnvs) && c < |s.cpus| && who < NENV && s.envs[who].status == Running
    requires e < NENV && s.envs[e].status != Free
    ensures var v, t := Called(s.envs, who, op), DoOp(s, c, who, op).envs;
            |t| == NENV && InTable(s.envs, v, e) && RecordIs(s.envs, v, e, t[e])
  {
    AllFormed(s.envs, s.freeEnvs);
    if op.Exofork? && s.freeEnvs != [] { assert s.envs[s.freeEnvs[0]].status == Free; }
    hide EnvsInv, RingFormed, Queue, Block, Deliver, Receive, Front, NextId;
    if op.Send? { SendRecord(s.envs, who, op, e); }
    else if op.Recv? { RecvRecord(s.envs, s.freeEnvs, who, op.dstva, e); }
    else { StatusRecord(s, c, who, op, e); }
  }

  lemma StatusRecord(s: State, c: nat, who: nat, op: Op, e: nat)
    requires Sized(s) && c < |s.cpus| && who < NENV && !op.Send? && !op.Recv? && e < NENV && RingFormed(s.envs[e])
    requires op.Exofork? && s.freeEnvs != [] ==> s.freeEnvs[0] != e
    ensures var v, t := Called(s.envs, who, op), DoOp(s, c, who, op).envs;
            |t| == NENV && InTable(s.envs, v, e) && RecordIs(s.envs, v, e, t[e])
  {
    hide Queue, NextId, Envid2Env;
    var t := DoOp(s, c, who, op).envs;
    SameQueue(s.envs[e], t[e]);
  }

  // ---------- every step

  /** What every step of every CPU leaves in the record of every live environment. */
  lemma RecordMoves(s: State, c: nat, a: Action, e: nat)
    requires TableInv(s) && Allowed(s, c, a) && e < NENV && s.envs[e].status != Free
    ensures Sized(s) && c < |s.cpus| && |Step(s, c, a).envs| == NENV
    ensures var v := EventOf(s, c, a);
            InTable(s.envs, v, e) && RecordIs(s.envs, v, e, Step(s, c, a).envs[e])
  {
    AllFormed(s.envs, s.freeEnvs);
    assert CpuOk(s.cpus[c]);
    if s.cpus[c].pc.Dispatch? {
      var who := s.cpus[c].cur.value;
      assert RunsAt(s, c, who);
      hide LockInv, CursInv, EnvsInv, OpAllowed, DoOp, Called, RecordIs, InTable, Observe;
      CallRecord(s, c, who, a.op, e);
    } else {
      hide TableInv, LockInv, CursInv, EnvsInv, OpAllowed, DoOp, Called, Observe, Picks, RingFormed, Queue;
      OtherRecord(s, c, a, e);
    }
  }

  lemma OtherRecord(s: State, c: nat, a: Action, e: nat)
    requires Sized(s) && Allowed(s, c, a) && CpuOk(s.cpus[c]) && !s.cpus[c].pc.Dispatch?
    requires e < NENV && RingFormed(s.envs[e])
    ensures |Step(s, c, a).envs| == NENV
    ensures var v := EventOf(s, c, a);
            InTable(s.envs, v, e) && RecordIs(s.envs, v, e, Step(s, c, a).envs[e])
  {
    hide OpAllowed, DoOp, Called, Observe, Picks, Queue;
    SameQueue(s.envs[e], Step(s, c, a).envs[e]);
  }

  // ---------- slots and the list of free ones

  // sys_exofork gives this slot away.
  predicate Gives(s: State, c: nat, a: Action, e: nat)
    requires Sized(s) && c < |s.cpus|
  {
    && s.cpus[c].pc.Dispatch? && a.Handle? && a.op.Exofork? && s.cpus[c].cur.Some?
    && s.freeEnvs != [] && s.freeEnvs[0] == e
  }

  /** A free slot stays as it is until sys_exofork gives it to a child of the caller, with the next
      identifier, blocked, and with what the last tenant left in its ring and message fields. */
  lemma FreeMoves(s: State, c: nat, a: Action, e: nat)
    requires TableInv(s) && Allowed(s, c, a) && e < NENV && s.envs[e].status == Free
    ensures Sized(s) && c < |s.cpus| && |Step(s, c, a).envs| == NENV
            && (s.cpus[c].cur.Some? ==> s.cpus[c].cur.value < NENV)
    ensures var t := Step(s, c, a).envs[e];
            if Gives(s, c, a, e) then
              t == s.envs[e].(id := NextId(s.envs[e].id, e), parent := s.envs[s.cpus[c].cur.value].id,
                              status := NotRunnable, recving := false)
            else t == s.envs[e]
  {
    AllFormed(s.envs, s.freeEnvs);
    var cpu := s.cpus[c];
    assert CpuOk(cpu);
    if cpu.cur.Some? { assert RunsAt(s, c, cpu.cur.value); }
    if cpu.pc.Mark? { assert Aimed(cpu, s.envs); }
    if cpu.pc.Dispatch? {
      FreeCall(s, c, cpu.cur.value, a.op, e);
    }
    hide LockInv, CursInv, EnvsInv, OpAllowed, DoOp, Observe, Picks, NextId;
  }

  lemma FreeCall(s: State, c: nat, cur: nat, op: Op, e: nat)
    requires Sized(s) && EnvsInv(s.envs, s.freeEnvs) && c < |s.cpus| && cur < NENV && s.envs[cur].status == Running
    requires e < NENV && s.envs[e].status == Free
    ensures |DoOp(s, c, cur, op).envs| == NENV
    ensures var t := DoOp(s, c, cur, op).envs[e];
            if op.Exofork? && s.freeEnvs != [] && s.freeEnvs[0] == e then
              t == s.envs[e].(id := NextId(s.envs[e].id, e), parent := s.envs[cur].id, status := NotRunnable,
                recving := false)
            else t == s.envs[e]
  {
    if op.Recv? {
      AllFormed(s.envs, s.freeEnvs);
      ReceiveLeaves(s.envs, cur, op.dstva, e);
      FrontLives(s.envs, cur);
    }
    hide EnvsInv, Front, Receive, NextId, RingFormed, Queue;
  }

  lemma FrontLives(envs: seq<Env>, cur: nat)
    requires |envs| == NENV && cur < NENV && RingFormed(envs[cur]) && envs[cur].status != Free
    ensures Front(envs, cur).Some? ==> Front(envs, cur).value < NENV && envs[Front(envs, cur).value].status != Free
  {}

  // The environment that a step frees, if it does.
  function Freed(s: State, v: Event): Option<nat>
    requires |s.envs| == NENV
  {
    match v
    case Collects(e) => Some(e)
    case Destroys(who, e) => if e < NENV && s.envs[e].status == Running && who != e then None else Some(e)
    case _ => None
  }

  /** The list of free slots: the one that is freed goes in front, the one that is given away comes
      from there, and nothing else changes it. */
  lemma ListMoves(s: State, c: nat, a: Action)
    requires TableInv(s) && Allowed(s, c, a)
    ensures Sized(s) && c < |s.cpus|
    ensures var f := Freed(s, EventOf(s, c, a));
            Step(s, c, a).freeEnvs == if f.Some? then [f.value] + s.freeEnvs
                                      else if s.freeEnvs != [] && Gives(s, c, a, s.freeEnvs[0]) then s.freeEnvs[1..]
                                      else s.freeEnvs
  {
    assert CpuOk(s.cpus[c]);
    if s.cpus[c].pc.Dispatch? {
      var cur := s.cpus[c].cur.value;
      assert RunsAt(s, c, cur) && s.envs[cur].status == Running;
      hide LockInv, CursInv, EnvsInv, OpAllowed, DoOp, Called, Freed;
      ListCall(s, c, cur, a.op);
    }
    hide LockInv, CursInv, EnvsInv, OpAllowed, DoOp, Called, Observe, Picks;
  }

  lemma ListCall(s: State, c: nat, cur: nat, op: Op)
    requires Sized(s) && EnvsInv(s.envs, s.freeEnvs) && c < |s.cpus| && cur < NENV && s.envs[cur].status == Running
    ensures var f := Freed(s, Called(s.envs, cur, op));
            DoOp(s, c, cur, op).freeEnvs == if f.Some? then [f.value] + s.freeEnvs
                                            else if op.Exofork? && s.freeEnvs != [] then s.freeEnvs[1..]
                                            else s.freeEnvs
  {
    assert s.freeEnvs != [] ==> s.freeEnvs[0] < NENV;
    hide EnvsInv, NextId, Receive, Block, Deliver, RingFormed, Queue, Envid2Env;
  }

  /** A live environment is blocked by nothing but a set_status, its own receive, or its own send to
      a target that is not receiving and has room. */
  lemma BlockedExactly(s: State, c: nat, a: Action, e: nat)
    requires TableInv(s) && Allowed(s, c, a) && e < NENV && s.envs[e].status != Free && s.envs[e].status != NotRunnable
    ensures c < |s.cpus| && |Step(s, c, a).envs| == NENV
    ensures var v := EventOf(s, c, a);
            Step(s, c, a).envs[e].status == NotRunnable
            <==> v == Sets(e, NotRunnable) || (v.Queues? && v.who == e) || (v.Receives? && v.who == e)
  {
    hide TableInv, Step, Allowed, EventOf, RecordIs, InTable, Front, RingFormed;
    RecordMoves(s, c, a, e);
    var v := EventOf(s, c, a);
    if v.Receives? && v.who == e { ReceiverRuns(s, c, a); }
    BlockedBy(s.envs, v, e, Step(s, c, a).envs[e]);
  }

  lemma BlockedBy(envs: seq<Env>, v: Event, e: nat, t: Env)
    requires InTable(envs, v, e) && RecordIs(envs, v, e, t) && envs[e].status != NotRunnable
    requires v.Receives? && v.who == e ==> Front(envs, e) != Some(e)
    ensures t.status == NotRunnable
            <==> v == Sets(e, NotRunnable) || (v.Queues? && v.who == e) || (v.Receives? && v.who == e)
  {
    hide MessageIs, RingIs, Front, RingFormed, Queue;
  }

  // Who makes a call runs, and is not in its own ring.
  lemma ReceiverRuns(s: State, c: nat, a: Action)
    requires TableInv(s) && Allowed(s, c, a) && EventOf(s, c, a).Receives?
    ensures var e := EventOf(s, c, a).who; e < NENV && RingFormed(s.envs[e]) && Front(s.envs, e) != Some(e)
  {
    var e := s.cpus[c].cur.value;
    assert RunsAt(s, c, e) && s.envs[e].status == Running;
    NotOwnFront(s.envs, s.freeEnvs, e);
  }

  /** One that receives stays blocked and receiving, at the address it gave, until a message reaches
      it, which makes it runnable, or it is freed. */
  lemma ReceivingStays(s: State, c: nat, a: Action, e: nat)
    requires TableInv(s) && Allowed(s, c, a) && e < NENV && s.envs[e].status != Free && s.envs[e].recving
    ensures c < |s.cpus| && |Step(s, c, a).envs| == NENV
    ensures var v, t := EventOf(s, c, a), Step(s, c, a).envs[e];
            if v.Reaches? && v.at == e then
              !t.recving && t.status == Runnable && t.value == v.value && v.who < NENV && t.from == s.envs[v.who].id
            else t.status == Free || (t.status == NotRunnable && t.recving && t.dstva == s.envs[e].dstva)
  {
    hide TableInv, Step, Allowed, EventOf, RecordIs, InTable, Front, RingFormed;
    RecordMoves(s, c, a, e);
    IdleReceiver(s, c, a, e);
    StillReceives(s.envs, EventOf(s, c, a), e, Step(s, c, a).envs[e]);
  }

  lemma StillReceives(envs: seq<Env>, v: Event, e: nat, t: Env)
    requires InTable(envs, v, e) && RecordIs(envs, v, e, t) && envs[e].recving && envs[e].status == NotRunnable
    requires v != Preempts(e) && v != Starts(e) && (v.Receives? ==> v.who != e) && (v.Queues? ==> v.who != e)
    requires v != Sets(e, Runnable) && (v.Sets? ==> v.status == Runnable || v.status == NotRunnable)
    requires v.Receives? ==> Front(envs, v.who) != Some(e)
    ensures if v.Reaches? && v.at == e then
              !t.recving && t.status == Runnable && t.value == v.value && v.who < NENV && t.from == envs[v.who].id
            else t.status == Free || (t.status == NotRunnable && t.recving && t.dstva == envs[e].dstva)
  {
    hide RingIs, Front, RingFormed, Queue;
  }

  // It neither runs nor waits in a ring, and set_status is not used to wake it.
  lemma IdleReceiver(s: State, c: nat, a: Action, e: nat)
    requires TableInv(s) && Allowed(s, c, a) && e < NENV && s.envs[e].status != Free && s.envs[e].recving
    ensures var v := EventOf(s, c, a);
            && s.envs[e].status == NotRunnable
            && v != Preempts(e) && v != Starts(e) && (v.Receives? ==> v.who != e) && (v.Queues? ==> v.who != e)
            && v != Sets(e, Runnable) && (v.Sets? ==> v.status == Runnable || v.status == NotRunnable)
            && (v.Receives? ==> v.who < NENV && RingFormed(s.envs[v.who]) && Front(s.envs, v.who) != Some(e))
  {
    assert EnvOk(s.envs[e], e);
    var v, cpu := EventOf(s, c, a), s.cpus[c];
    if v.Starts? { assert Aimed(cpu, s.envs); }
    if cpu.cur.Some? { assert RunsAt(s, c, cpu.cur.value); }
    if v.Receives? {
      AllFormed(s.envs, s.freeEnvs);
      NotFront(s.envs, s.freeEnvs, v.who, e);
    }
  }

  lemma NotFront(envs: seq<Env>, freeEnvs: seq<nat>, who: nat, e: nat)
    requires EnvsInv(envs, freeEnvs) && who < NENV && e < NENV && envs[e].recving && RingFormed(envs[who])
    requires envs[e].status != Free
    ensures Front(envs, who) != Some(e)
  {
    assert EnvOk(envs[who], who);
    if Front(envs, who) == Some(e) { assert Waits(envs, who, 0, e); }
  }

  // ---------- what a call, and a yield, come back to

  // Nobody else writes the table while c holds the lock.
  lemma OthersQuiet(s: State, d: nat, a: Action, c: nat)
    requires TableInv(s) && Allowed(s, d, a) && HolderAt(s, c) && d != c
    ensures Step(s, d, a).envs == s.envs && c < |Step(s, d, a).cpus| == |s.cpus| && Step(s, d, a).cpus[c] == s.cpus[c]
  {
    assert !HolderAt(s, d) && CpuOk(s.cpus[d]);
    hide CursInv, EnvsInv, OpAllowed, DoOp, Observe, Picks;
  }

  // The environment that c is about to run.
  predicate Leaving(pc: Pc) { pc == UnlockCheck(ToUser) || pc == UnlockClear(ToUser) || pc == UnlockRelease(ToUser) }

  // Where it goes: where sched_yield says, or back to e.
  ghost predicate Goal(gives: bool, envs: seq<Env>, e: nat, t: nat)
    requires |envs| == NENV && e < NENV
  {
    t < NENV && if gives then Picks(envs, Some(e), Run(t)) else t == e
  }

  // Environment t runs there, and e too, or e is runnable.
  predicate Arrived(s: State, c: nat, e: nat, t: nat) {
    && Sized(s) && c < |s.cpus| && e < NENV && t < NENV && s.cpus[c].cur == Some(t) && s.envs[t].status == Running
    && (t != e ==> s.envs[e].status == Runnable)
  }

  /** c is on its way from a trap of e, which still runs, back to user mode; `envs` is the table as
      the trap left it. */
  ghost predicate OnTheWay(s: State, c: nat, e: nat, envs: seq<Env>, gives: bool) {
    && Sized(s) && c < |s.cpus| && e < NENV && |envs| == NENV
    && var cpu := s.cpus[c];
    match cpu.pc
    case Decide => !gives && cpu.cur == Some(e) && s.envs == envs && envs[e].status == Running
    case Yield => gives && cpu.cur == Some(e) && s.envs == envs && envs[e].status == Running
    case Switch(t) => cpu.cur == Some(e) && s.envs == envs && envs[e].status == Running && Goal(gives, envs, e, t)
    case Adopt(t) => t != e && s.envs[e].status == Runnable && Goal(gives, envs, e, t)
    case Mark(t) => t != e && s.envs[e].status == Runnable && cpu.cur == Some(t) && Goal(gives, envs, e, t)
    case _ => Leaving(cpu.pc) && cpu.cur.Some? && Goal(gives, envs, e, cpu.cur.value) && Arrived(s, c, e, cpu.cur.value)
  }

  // and it is in user mode again.
  ghost predicate Back(s: State, c: nat, e: nat, envs: seq<Env>, gives: bool) {
    && c < |s.cpus| && s.cpus[c].pc.InUser? && s.cpus[c].cur.Some? && |envs| == NENV && e < NENV
    && Goal(gives, envs, e, s.cpus[c].cur.value) && Arrived(s, c, e, s.cpus[c].cur.value)
  }

  lemma WayStep(s: State, d: nat, a: Action, c: nat, e: nat, envs: seq<Env>, gives: bool)
    requires TableInv(s) && Allowed(s, d, a) && OnTheWay(s, c, e, envs, gives)
    ensures OnTheWay(Step(s, d, a), c, e, envs, gives) || Back(Step(s, d, a), c, e, envs, gives)
  {
    assert HolderAt(s, c) by { assert Holder(s.cpus[c].pc); }
    LockStep(s, d, a);
    assert CpuOk(s.cpus[c]);
    if d == c {
      OwnStep(s, c, a, e, envs, gives);
    } else {
      OthersQuiet(s, d, a, c);
      hide Step, LockInv, CursInv, EnvsInv, Allowed, Goal;
    }
  }

  lemma OwnStep(s: State, c: nat, a: Action, e: nat, envs: seq<Env>, gives: bool)
    requires Sized(s) && Allowed(s, c, a) && OnTheWay(s, c, e, envs, gives) && Sized(Step(s, c, a))
    requires s.lock.locked && (Owner(s.cpus[c].pc) <==> s.lock.cpu == Some(c))
    ensures OnTheWay(Step(s, c, a), c, e, envs, gives) || Back(Step(s, c, a), c, e, envs, gives)
  {
    if s.cpus[c].pc.Yield? { PicksSome(envs, e, a.choice); }
    hide DoOp, OpAllowed, Observe, Picks;
  }

  // sched_yield with a running environment at hand always picks one.
  lemma PicksSome(envs: seq<Env>, e: nat, choice: Choice)
    requires |envs| == NENV && e < NENV && envs[e].status == Running && Picks(envs, Some(e), choice)
    ensures choice.Run? && choice.e < NENV
  {}

  lemma {:induction false} WayRun(ss: seq<State>, es: seq<(nat, Action)>, i: nat, j: nat, c: nat, e: nat,
                                  envs: seq<Env>, gives: bool)
    requires IsRun(ss, es) && TableInv(ss[0]) && i < j <= |es| && OnTheWay(ss[i], c, e, envs, gives)
    requires forall m :: i < m < j && c < |ss[m].cpus| ==> !ss[m].cpus[c].pc.InUser?
    requires c < |ss[j].cpus| && ss[j].cpus[c].pc.InUser?
    ensures Back(ss[j], c, e, envs, gives)
    decreases j - i
  {
    TableAlong(ss, es, i);
    hide TableInv, Allowed, OnTheWay, Back, Step;
    WayStep(ss[i], es[i].0, es[i].1, c, e, envs, gives);
    NotBoth(ss[i + 1], c, e, envs, gives);
    if i + 1 < j { WayRun(ss, es, i + 1, j, c, e, envs, gives); }
  }

  lemma NotBoth(s: State, c: nat, e: nat, envs: seq<Env>, gives: bool)
    ensures Back(s, c, e, envs, gives) ==> c < |s.cpus| && s.cpus[c].pc.InUser?
    ensures OnTheWay(s, c, e, envs, gives) ==> c < |s.cpus| && !s.cpus[c].pc.InUser?
  {}

  lemma {:induction false} TableAlong(ss: seq<State>, es: seq<(nat, Action)>, n: nat)
    requires IsRun(ss, es) && n <= |es| && TableInv(ss[0])
    ensures TableInv(ss[n])
  {
    hide TableInv, Allowed, Step;
    if n > 0 {
      TableAlong(ss, es, n - 1);
      TableStep(ss[n - 1], es[n - 1].0, es[n - 1].1);
    }
  }

  // The i-th step handles a trap of e on c, and the j-th state is the next in which c is in user mode.
  ghost predicate TrapToUser(ss: seq<State>, es: seq<(nat, Action)>, i: nat, j: nat, c: nat, e: nat, op: Op) {
    && IsRun(ss, es) && i + 1 < j <= |es| && es[i] == (c, Handle(op))
    && c < |ss[i].cpus| && ss[i].cpus[c].pc.Dispatch? && ss[i].cpus[c].cur == Some(e) && e < NENV
    && c < |ss[j].cpus| && ss[j].cpus[c].pc.InUser?
    && forall m :: i < m < j && c < |ss[m].cpus| ==> !ss[m].cpus[c].pc.InUser?
  }

  /** sys_yield, and the timer: the CPU comes back to the environment that sched_yield picks, and the
      one that gave up is runnable then, or it is the one and runs. */
  lemma YieldComesBack(ss: seq<State>, es: seq<(nat, Action)>, i: nat, j: nat, c: nat, e: nat)
    requires TrapToUser(ss, es, i, j, c, e, GiveUp) && TableInv(ss[0])
    ensures |ss[i].envs| == |ss[j].envs| == NENV && ss[j].cpus[c].cur.Some? && ss[j].cpus[c].cur.value < NENV
    ensures var t := ss[j].cpus[c].cur.value;
            && Picks(ss[i].envs, Some(e), Run(t)) && ss[j].envs[t].status == Running
            && (t != e ==> ss[j].envs[e].status == Runnable)
  {
    TableAlong(ss, es, i);
    assert RunsAt(ss[i], c, e);
    hide LockInv, EnvsInv, Picks, OpAllowed;
    WayRun(ss, es, i + 1, j, c, e, ss[i].envs, true);
  }

  /** Any other call that leaves its caller running comes back to it. */
  lemma CallComesBack(ss: seq<State>, es: seq<(nat, Action)>, i: nat, j: nat, c: nat, e: nat, op: Op)
    requires TrapToUser(ss, es, i, j, c, e, op) && TableInv(ss[0]) && op != GiveUp
    requires e < |ss[i + 1].envs| && ss[i + 1].envs[e].status == Running
    ensures ss[j].cpus[c].cur == Some(e) && e < |ss[j].envs| && ss[j].envs[e].status == Running
  {
    TableAlong(ss, es, i);
    TableAlong(ss, es, i + 1);
    StaysToDecide(ss[i], c, e, op);
    hide TableInv, Picks, OpAllowed, Step;
    WayRun(ss, es, i + 1, j, c, e, ss[i + 1].envs, false);
  }

  lemma StaysToDecide(s: State, c: nat, e: nat, op: Op)
    requires TableInv(s) && Allowed(s, c, Handle(op)) && s.cpus[c].pc.Dispatch? && s.cpus[c].cur == Some(e)
             && op != GiveUp
    requires var s' := Step(s, c, Handle(op)); TableInv(s') && e < |s'.envs| && s'.envs[e].status == Running
    ensures OnTheWay(Step(s, c, Handle(op)), c, e, Step(s, c, Handle(op)).envs, false)
  {
    assert RunsAt(s, c, e) && s.envs[e].status == Running;
    hide LockInv, CursInv, EnvsInv, OpAllowed, DoOp, Picks;
    DecidesNext(s, c, e, op);
  }

  lemma DecidesNext(s: State, c: nat, e: nat, op: Op)
    requires Sized(s) && EnvsInv(s.envs, s.freeEnvs) && c < |s.cpus| && s.cpus[c].cur == Some(e) && e < NENV
    requires s.envs[e].status == Running && op != GiveUp
    ensures var s' := DoOp(s, c, e, op);
            |s'.envs| == NENV && c < |s'.cpus|
              && (s'.envs[e].status == Running ==> s'.cpus[c] == s.cpus[c].(pc := Decide))
  {
    if op.Recv? {
      NotOwnFront(s.envs, s.freeEnvs, e);
      ReceiveLeaves(s.envs, e, op.dstva, e);
    }
    hide EnvsInv, Front, Receive, Block, Deliver, NextId, Envid2Env, RingFormed, Queue;
  }
}
