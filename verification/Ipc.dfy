/** The environment side of IPC (sys_ipc_try_send and sys_ipc_recv of kern/syscall.c): what the
    two calls do to the environment table. Page transfer is in module Syscalls. */
module Ipc {
  import opened Mmu
  import opened Envs

  predicate RingFull(t: Env) { (t.tail + 1) % MAXIPCWAITING == t.head }

  function Enqueue(t: Env, id: int): Env {
    t.(waiting := if t.tail < |t.waiting| then t.waiting[t.tail := id] else t.waiting,
       tail := (t.tail + 1) % MAXIPCWAITING)
  }

  // The target is not receiving: block the caller if there is room in the target's ring.
  function Block(envs: seq<Env>, cur: nat, e: nat): seq<Env>
    requires cur < |envs| && e < |envs|
  {
    if RingFull(envs[e]) then envs
    else
      var blocked := envs[cur := envs[cur].(status := NotRunnable)];
      blocked[e := Enqueue(blocked[e], envs[cur].id)]
  }

  // The target is receiving; `page` is the new env_ipc_perm, if the call writes it.
  function Deliver(envs: seq<Env>, cur: nat, e: nat, value: nat, page: Option<bv12>): seq<Env>
    requires cur < |envs| && e < |envs|
  {
    var t := envs[e].(recving := false, from := envs[cur].id, value := value, status := Runnable);
    envs[e := if page.Some? then t.(perm := page.value) else t]
  }

  // sys_ipc_recv with an acceptable dstva, up to its sys_yield; the flag tells whether the
  // head of the ring named no live environment, in which case the call returns -E_BAD_ENV.
  function Receive(envs: seq<Env>, cur: nat, dstva: nat): (seq<Env>, bool)
    requires |envs| == NENV && cur < NENV
  {
    var me := envs[cur].(recving := true, dstva := dstva, status := NotRunnable);
    if me.head == me.tail then (envs[cur := me], true)
    else
      var id := if me.head < |me.waiting| then me.waiting[me.head] else 0;
      var envs1 := envs[cur := me.(head := (me.head + 1) % MAXIPCWAITING)];
      match Envid2Env(envs1, cur, id, false)
      case None => (envs1, false)
      case Some(e) => (envs1[e := envs1[e].(status := Runnable)], true)
  }

  // ---------- the ring as a queue

  predicate RingFormed(t: Env) { |t.waiting| == MAXIPCWAITING && t.head < MAXIPCWAITING && t.tail < MAXIPCWAITING }

  function QueueLength(t: Env): nat
    requires RingFormed(t)
  {
    (t.tail + MAXIPCWAITING - t.head) % MAXIPCWAITING
  }

  /** The identifiers waiting in a ring, first to be woken first. */
  function Queue(t: Env): seq<int>
    requires RingFormed(t)
  {
    seq(QueueLength(t), i requires 0 <= i => t.waiting[(t.head + i) % MAXIPCWAITING])
  }

  /** A ring holds at most nine, and is full at nine. */
  lemma QueueBound(t: Env)
    requires RingFormed(t)
    ensures |Queue(t)| <= MAXIPCWAITING - 1
    ensures RingFull(t) <==> |Queue(t)| == MAXIPCWAITING - 1
    ensures t.head == t.tail <==> Queue(t) == []
  {}

  // Going round the ring is adding, less one round.
  lemma Wrap(x: nat)
    requires x < 2 * MAXIPCWAITING
    ensures x % MAXIPCWAITING == if x < MAXIPCWAITING then x else x - MAXIPCWAITING
  {}

  // Two indices of the queue do not share a cell.
  lemma Apart(head: nat, i: nat, j: nat)
    requires head < MAXIPCWAITING && i < j < MAXIPCWAITING
    ensures (head + i) % MAXIPCWAITING != (head + j) % MAXIPCWAITING < MAXIPCWAITING
  {
    Wrap(head + i);
    Wrap(head + j);
  }

  lemma TailCell(t: Env)
    requires RingFormed(t)
    ensures (t.head + QueueLength(t)) % MAXIPCWAITING == t.tail
  {
    Wrap(t.tail + MAXIPCWAITING - t.head);
    Wrap(t.head + QueueLength(t));
  }

  lemma OneLonger(t: Env, t': Env)
    requires RingFormed(t) && !RingFull(t) && RingFormed(t') && t'.head == t.head
             && t'.tail == (t.tail + 1) % MAXIPCWAITING
    ensures QueueLength(t') == QueueLength(t) + 1
  {
    Wrap(t.tail + 1);
    Wrap(t.tail + MAXIPCWAITING - t.head);
  }

  /** Blocking appends at the back. */
  lemma EnqueueAppends(t: Env, id: int)
    requires RingFormed(t) && !RingFull(t)
    ensures RingFormed(Enqueue(t, id)) && Queue(Enqueue(t, id)) == Queue(t) + [id]
  {
    var t', n := Enqueue(t, id), QueueLength(t);
    TailCell(t);
    OneLonger(t, t');
    hide QueueLength;
    forall i | 0 <= i < n + 1 ensures Queue(t')[i] == (Queue(t) + [id])[i] {
      if i < n { Apart(t.head, i, n); }
    }
  }

  /** Waking takes from the front: wake order is blocking order. */
  lemma DequeueTakes(t: Env)
    requires RingFormed(t) && t.head != t.tail
    ensures var t' := t.(head := (t.head + 1) % MAXIPCWAITING);
            RingFormed(t') && Queue(t) != [] && Queue(t)[0] == t.waiting[t.head] && Queue(t') == Queue(t)[1..]
  {
    var t' := t.(head := (t.head + 1) % MAXIPCWAITING);
    assert (t.head + 0) % MAXIPCWAITING == t.head by { Wrap(t.head); }
    OneShorter(t, t');
    hide QueueLength;
    assert Queue(t)[0] == t.waiting[(t.head + 0) % MAXIPCWAITING];
    forall i | 0 <= i < |Queue(t')| ensures Queue(t')[i] == Queue(t)[1..][i] { Rotated(t.head, i); }
  }

  lemma Rotated(head: nat, i: nat)
    requires head < MAXIPCWAITING && i < MAXIPCWAITING - 1
    ensures ((head + 1) % MAXIPCWAITING + i) % MAXIPCWAITING == (head + (i + 1)) % MAXIPCWAITING
  {
    Wrap(head + 1);
    Wrap(head + (i + 1));
  }

  lemma OneShorter(t: Env, t': Env)
    requires RingFormed(t) && t.head != t.tail && t'.head == (t.head + 1) % MAXIPCWAITING && t' == t.(head := t'.head)
    ensures RingFormed(t') && QueueLength(t) <= MAXIPCWAITING - 1 && QueueLength(t') == QueueLength(t) - 1
  {
    Wrap(t.head + 1);
    Wrap(t.tail + MAXIPCWAITING - t.head);
    Wrap(t'.tail + MAXIPCWAITING - t'.head);
  }

  // ---------- what the calls leave in each record

  // The message fields.
  predicate SameMessage(t: Env, t': Env) {
    t'.recving == t.recving && t'.dstva == t.dstva && t'.value == t.value && t'.from == t.from && t'.perm == t.perm
  }

  // Who it is, and, by `more`, what has been added to the end of its queue.
  predicate SameBut(t: Env, t': Env, more: seq<int>) {
    t'.id == t.id && t'.parent == t.parent && (RingFormed(t) ==> RingFormed(t') && Queue(t') == Queue(t) + more)
  }

  /** A send to a target that is not receiving blocks the sender and appends it to the target's
      queue, if fewer than nine wait there, and does nothing otherwise. */
  lemma BlockLeaves(envs: seq<Env>, cur: nat, e: nat, d: nat)
    requires cur < |envs| && e < |envs| && d < |envs| && RingFormed(envs[e])
    ensures var t, room := Block(envs, cur, e), |Queue(envs[e])| < MAXIPCWAITING - 1;
            && |t| == |envs| && SameMessage(envs[d], t[d])
            && SameBut(envs[d], t[d], if room && d == e then [envs[cur].id] else [])
            && t[d].status == (if room && d == cur then NotRunnable else envs[d].status)
  {
    QueueBound(envs[e]);
    if !RingFull(envs[e]) {
      var blocked := envs[cur].(status := NotRunnable);
      if d == e && d == cur {
        EnqueueAppends(blocked, envs[cur].id);
      } else if d == e {
        EnqueueAppends(envs[e], envs[cur].id);
      }
    }
  }

  /** A send to a receiving target fills in its message fields and makes it runnable. */
  lemma DeliverLeaves(envs: seq<Env>, cur: nat, e: nat, value: nat, page: Option<bv12>, d: nat)
    requires cur < |envs| && e < |envs| && d < |envs|
    ensures var t := Deliver(envs, cur, e, value, page);
            && |t| == |envs| && SameBut(envs[d], t[d], [])
            && (d != e ==> t[d] == envs[d])
            && (d == e ==>
                && !t[d].recving && t[d].status == Runnable && t[d].value == value && t[d].from == envs[cur].id
                && t[d].dstva == envs[d].dstva && t[d].perm == (if page.Some? then page.value else envs[d].perm))
  {}

  // The first in the queue of cur, if it names a live environment.
  function Front(envs: seq<Env>, cur: nat): Option<nat>
    requires |envs| == NENV && cur < NENV && RingFormed(envs[cur])
  {
    if Queue(envs[cur]) == [] then None else Envid2Env(envs, cur, Queue(envs[cur])[0], false)
  }

  /** A receive marks the caller as receiving at dstva and blocks it, takes the first from its queue
      and makes that runnable; it fails exactly if that is no live environment. Nothing else
      changes for anybody. */
  lemma ReceiveLeaves(envs: seq<Env>, cur: nat, dstva: nat, d: nat)
    requires |envs| == NENV && cur < NENV && d < NENV && RingFormed(envs[cur]) && envs[cur].status != Free
    ensures var (t, ok), q, front := Receive(envs, cur, dstva), Queue(envs[cur]), Front(envs, cur);
            && |t| == NENV && (ok <==> q == [] || front.Some?)
            && (d != cur ==> t[d] == envs[d].(status := if front == Some(d) then Runnable else envs[d].status))
            && (d == cur ==>
                && t[d].recving && t[d].dstva == dstva
                && t[d].status == (if front == Some(d) then Runnable else NotRunnable)
                && t[d].value == envs[d].value && t[d].from == envs[d].from && t[d].perm == envs[d].perm
                && t[d].id == envs[d].id && t[d].parent == envs[d].parent
                && RingFormed(t[d]) && Queue(t[d]) == (if q == [] then [] else q[1..])
                && t[d].tail == envs[d].tail && t[d].waiting == envs[d].waiting)
  {
    QueueBound(envs[cur]);
    var me := envs[cur].(recving := true, dstva := dstva, status := NotRunnable);
    if me.head == me.tail {
      assert Queue(me) == [];
    } else {
      DequeueTakes(envs[cur]);
      DequeueTakes(me);
      assert Queue(me) == Queue(envs[cur]);
      var id, me' := me.waiting[me.head], me.(head := (me.head + 1) % MAXIPCWAITING);
      SameNames(envs, envs[cur := me'], cur, id);
      hide Queue;
      var woken := me'.(status := Runnable);
      SameQueue(me', woken);
    }
  }

  lemma SameQueue(t: Env, t': Env)
    requires RingFormed(t) && t'.head == t.head && t'.tail == t.tail && t'.waiting == t.waiting
    ensures RingFormed(t') && Queue(t') == Queue(t)
  {}

  lemma SameNames(envs: seq<Env>, envs': seq<Env>, cur: nat, id: int)
    requires |envs| == |envs'| == NENV && cur < NENV
    requires forall e :: 0 <= e < NENV ==>
               envs'[e].id == envs[e].id && (envs'[e].status == Free <==> envs[e].status == Free)
    ensures Envid2Env(envs', cur, id, false) == Envid2Env(envs, cur, id, false)
  {}
}
