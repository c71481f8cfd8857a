/** The two IPC system calls (kern/syscall.c), memory and records together: everything that each
    leaves, and that a receive is followed by a send that arrives. */
module IpcCalls {
  import opened Mmu
  import opened Errors
  import opened Pmap
  import opened Envs
  import opened Ipc
  import opened Syscalls

  // What a send asks of its page, and what there must be for it.
  predicate PageOk(k: Kern, cur: nat, srcva: nat, perm: bv12) {
    srcva < UTOP ==>
      && srcva % PGSIZE == 0 && PteOf(k, cur, srcva / PGSIZE).Some?
      && Subset(perm, PteOf(k, cur, srcva / PGSIZE).value.flags)
  }

  ghost predicate RoomAt(k: Kern, e: nat, va: nat) { HasTable(k.phys, k.dirs, e, va / PGSIZE) || k.phys.free != [] }

  /** sys_ipc_try_send to a receiving environment: it returns 0 exactly if the page is in order and,
      if both sides ask for one, there is room for it; then the receiver is runnable and has the
      value, the sender's identifier and, at the address it asked for, the page; and otherwise
      nothing changes. */
  lemma SendArrives(k: Kern, pins: seq<nat>, cur: nat, id: int, value: nat, srcva: nat, perm: bv12, e: nat)
    requires KInv(k, pins) && cur in k.dirs && BelowLimit(k.phys) && Formed(k) && cur < NENV && e < NENV
    requires Envid2Env(k.envs, cur, id, false) == Some(e) && k.envs[e].recving
    ensures var (k', r) := SysIpcTrySend(k, cur, id, value, srcva, perm);
            var t, paged := k.envs[e], srcva < UTOP && k.envs[e].dstva < UTOP;
            && (r == Ret(0) <==> PageOk(k, cur, srcva, perm) && (paged ==> RoomAt(k, e, t.dstva)))
            && (r != Ret(0) ==> k' == k)
            && (r == Ret(0) ==>
                && Formed(k') && k' == k.(phys := k'.phys, envs := k'.envs)
                && (forall d :: 0 <= d < NENV && d != e ==> k'.envs[d] == k.envs[d])
                && k'.envs[e].status == Runnable && !k'.envs[e].recving
                && k'.envs[e].value == value && k'.envs[e].from == k.envs[cur].id
                && k'.envs[e].perm == (if srcva >= UTOP then 0 else if paged then perm else t.perm)
                && k'.envs[e].dstva == t.dstva && SameBut(t, k'.envs[e], [])
                && (!paged ==> k'.phys == k.phys)
                && (paged ==> PteOf(k', e, t.dstva / PGSIZE)
                              == Some(Word(PteOf(k, cur, srcva / PGSIZE).value.frame, perm | PTE_P))))
  {
    IpcSendReturns(k, pins, cur, id, value, srcva, perm);
    SendIs(k, cur, id, value, srcva, perm, e);
    hide KInv, SysIpcTrySend, TransferPage, Envid2Env, Deliver, PteOf, Subset, HasTable, Insert, BelowLimit;
    var (k', r) := SysIpcTrySend(k, cur, id, value, srcva, perm);
    var page := TransferPage(k, cur, e, srcva, perm).1;
    if r == Ret(0) {
      forall d | 0 <= d < NENV
        ensures |k'.envs| == NENV && (d != e ==> k'.envs[d] == k.envs[d])
      {
        DeliverLeaves(k.envs, cur, e, value, page.page, d);
      }
      DeliverLeaves(k.envs, cur, e, value, page.page, e);
    } else {
      RefusedSame(k, pins, cur, e, srcva, perm);
    }
  }

  lemma SendIs(k: Kern, cur: nat, id: int, value: nat, srcva: nat, perm: bv12, e: nat)
    requires Formed(k) && cur < NENV && e < NENV && Envid2Env(k.envs, cur, id, false) == Some(e) && k.envs[e].recving
    ensures var (k', r), (s, page) :=
              SysIpcTrySend(k, cur, id, value, srcva, perm), TransferPage(k, cur, e, srcva, perm);
            && (page.Accept? ==> r == Ret(0) && k' == k.(phys := s, envs := Deliver(k.envs, cur, e, value, page.page)))
            && (page.Refuse? ==> r == Ret(page.code) && k' == k.(phys := s))
            && (page.Refuse? ==> page.code < 0)
            && (page.Accept? ==>
                 page.page == if srcva >= UTOP then Some(0) else if k.envs[e].dstva < UTOP then Some(perm) else None)
  {
    hide Insert, Deliver, Envid2Env;
  }

  lemma RefusedSame(k: Kern, pins: seq<nat>, cur: nat, e: nat, srcva: nat, perm: bv12)
    requires KInv(k, pins) && cur in k.dirs && Formed(k) && e < NENV && e in k.dirs && BelowLimit(k.phys)
    requires TransferPage(k, cur, e, srcva, perm).1.Refuse?
    ensures TransferPage(k, cur, e, srcva, perm).0 == k.phys
  {
    TransferStep(k, pins, cur, e, srcva, perm);
  }

  /** A send to an environment that is not receiving: the caller waits in its ring, or is refused for
      good if nine do, and nothing else changes. */
  lemma SendWaits(k: Kern, cur: nat, id: int, value: nat, srcva: nat, perm: bv12, e: nat, d: nat)
    requires Formed(k) && cur < NENV && e < NENV && d < NENV && RingFormed(k.envs[e])
    requires Envid2Env(k.envs, cur, id, false) == Some(e) && !k.envs[e].recving
    ensures var (k', r), room := SysIpcTrySend(k, cur, id, value, srcva, perm), |Queue(k.envs[e])| < MAXIPCWAITING - 1;
            && r == Ret(-E_IPC_NOT_RECV) && Formed(k') && k' == k.(envs := k'.envs)
            && k'.envs[d].status == (if room && d == cur then NotRunnable else k.envs[d].status)
            && SameMessage(k.envs[d], k'.envs[d])
            && SameBut(k.envs[d], k'.envs[d], if room && d == e then [k.envs[cur].id] else [])
  {
    hide Block, Envid2Env, RingFormed, Queue;
    BlockLeaves(k.envs, cur, e, d);
  }

  /** sys_ipc_recv: with an address in order the caller is receiving there and blocked, the first in
      its ring is woken (be it the caller), and nobody else changes; it fails exactly if that one is gone. */
  lemma RecvBlocks(k: Kern, cur: nat, dstva: nat, d: nat)
    requires Formed(k) && cur < NENV && d < NENV && RingFormed(k.envs[cur]) && k.envs[cur].status != Free
    ensures var (k', r), q, front := SysIpcRecv(k, cur, dstva), Queue(k.envs[cur]), Front(k.envs, cur);
            && Formed(k') && k' == k.(envs := k'.envs)
            && (dstva < UTOP && dstva % PGSIZE != 0 ==> r == Ret(-E_INVAL) && k' == k)
            && (dstva >= UTOP || dstva % PGSIZE == 0 ==>
                && r == Ret(if q == [] || front.Some? then 0 else -E_BAD_ENV)
                && (d != cur ==>
                    k'.envs[d] == k.envs[d].(status := if front == Some(d) then Runnable else k.envs[d].status))
                && k'.envs[cur].recving && k'.envs[cur].dstva == dstva
                && k'.envs[cur].status == (if front == Some(cur) then Runnable else NotRunnable)
                && k'.envs[cur].id == k.envs[cur].id
                && RingFormed(k'.envs[cur]) && Queue(k'.envs[cur]) == (if q == [] then [] else q[1..])
                && k'.envs[cur].tail == k.envs[cur].tail && k'.envs[cur].waiting == k.envs[cur].waiting)
  {
    hide Receive, Front, RingFormed, Queue;
    ReceiveLeaves(k.envs, cur, dstva, d);
    ReceiveLeaves(k.envs, cur, dstva, cur);
  }

  /** A receive, then a send: as long as nobody else has written to the receiver's record, a send to
      it by anybody whose page is in order, with room for it if there is one, succeeds, and the
      receiver is runnable with the message, and with the page where it asked for it. */
  lemma ReceiveThenSend(k: Kern, e: nat, dstva: nat, k1: Kern, pins: seq<nat>, cur: nat, value: nat, srcva: nat,
                        perm: bv12)
    requires Formed(k) && e < NENV && RingFormed(k.envs[e]) && k.envs[e].status != Free
    requires SysIpcRecv(k, e, dstva).1 == Ret(0)
    requires KInv(k1, pins) && Formed(k1) && cur in k1.dirs && cur < NENV && e in k1.dirs && BelowLimit(k1.phys)
    requires Formed(SysIpcRecv(k, e, dstva).0) && k1.envs[e] == SysIpcRecv(k, e, dstva).0.envs[e]
    requires PageOk(k1, cur, srcva, perm) && (srcva < UTOP && dstva < UTOP ==> RoomAt(k1, e, dstva))
    ensures var (k2, r) := SysIpcTrySend(k1, cur, k.envs[e].id, value, srcva, perm);
            && r == Ret(0) && Formed(k2)
            && k2.envs[e].status == Runnable && !k2.envs[e].recving
            && k2.envs[e].value == value && k2.envs[e].from == k1.envs[cur].id
            && (srcva >= UTOP ==> k2.envs[e].perm == 0)
            && (srcva < UTOP && dstva < UTOP ==>
                && k2.envs[e].perm == perm
                && PteOf(k2, e, dstva / PGSIZE) == Some(Word(PteOf(k1, cur, srcva / PGSIZE).value.frame, perm | PTE_P)))
  {
    RecvBlocks(k, e, dstva, e);
    Found(k1, pins, cur, e);
    hide KInv, SysIpcTrySend, SysIpcRecv, PageOk, RoomAt, Front, RingFormed, Queue, BelowLimit, PteOf, Envid2Env;
    SendArrives(k1, pins, cur, k1.envs[e].id, value, srcva, perm, e);
  }

  lemma Found(k: Kern, pins: seq<nat>, cur: nat, e: nat)
    requires KInv(k, pins) && Formed(k) && cur < NENV && e in k.dirs && e < NENV
    ensures Envid2Env(k.envs, cur, k.envs[e].id, false) == Some(e)
  {}
}
