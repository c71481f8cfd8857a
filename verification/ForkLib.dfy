/** lib/fork.c in place: the fault handler and fork as sequences of system calls on the kernel
    of module Kernel. */
module ForkLib {
  import opened Mmu
  import opened Envs
  import opened Pmap
  import K = Kernel
  import S = Syscalls
  import opened Perms
  import F = CowFault
  import C = CowRefine
  import CF = CowFork

  // memcpy(PFTEMP, addr, PGSIZE)
  method CopyPage(os: K.Kernel, e: nat, dst: nat, src: nat, ghost pins: seq<nat>)
    requires os.Valid() && S.KInv(os.View(), pins) && e in os.View().dirs && S.PteOf(os.View(), e, src).Some?
    modifies os.pm.mem
    ensures os.Valid() && os.View() == F.CopyWords(old(os.View()), e, dst, src, 0)
            && CopyKept(old(os.View()), os.View(), pins)
  {
    hide *;
    ghost var k := os.View();
    NothingCopied(k, pins);
    ghost var end := F.CopyWords(k, e, dst, src, 0);
    for i := 0 to 1024
      invariant os.Valid() && S.KInv(os.View(), pins) && e in os.View().dirs && S.PteOf(os.View(), e, src).Some?
      invariant F.CopyWords(os.View(), e, dst, src, i) == end && CopyKept(k, os.View(), pins)
    {
      ghost var before := os.View();
      CopyOneMore(before, e, dst, src, i);
      CopyWord(os, e, dst, src, i, pins);
      KeptMore(k, before, os.View(), pins);
      KeptEntries(before, os.View(), pins, e, src);
      CopyInv(before, os.View(), pins);
    }
    CopyDone(os.View(), e, dst, src);
  }

  lemma CopyOneMore(k: S.Kern, e: nat, dst: nat, src: nat, i: nat)
    requires i < 1024
    ensures F.CopyWords(k, e, dst, src, i) == F.CopyWords(F.CopyWord(k, e, dst, src, i), e, dst, src, i + 1)
  {
    hide F.CopyWord;
  }

  lemma NothingCopied(k: S.Kern, pins: seq<nat>)
    requires S.KInv(k, pins)
    ensures CopyKept(k, k, pins)
  {
    hide S.KInv;
  }

  lemma CopyDone(k: S.Kern, e: nat, dst: nat, src: nat)
    ensures F.CopyWords(k, e, dst, src, 1024) == k
  {}

  // A copy in progress changes no entry, no count and no table.
  ghost predicate CopyKept(k: S.Kern, k': S.Kern, pins: seq<nat>) {
    S.KInv(k', pins) && k'.dirs == k.dirs && SameLinks(k.phys, k'.phys, k.dirs) && k'.phys.refs == k.phys.refs
  }

  lemma KeptMore(k: S.Kern, k1: S.Kern, k2: S.Kern, pins: seq<nat>)
    requires CopyKept(k, k1, pins) && CopyKept(k1, k2, pins)
    ensures CopyKept(k, k2, pins)
  {
    hide S.KInv;
  }

  lemma KeptEntries(k: S.Kern, k': S.Kern, pins: seq<nat>, e: nat, v: nat)
    requires CopyKept(k, k', pins)
    ensures S.PteOf(k', e, v) == S.PteOf(k, e, v) && (S.CanShare(k, e, v) ==> S.CanShare(k', e, v))
  {
    hide S.KInv;
  }

  method CopyWord(os: K.Kernel, e: nat, dst: nat, src: nat, i: nat, ghost pins: seq<nat>)
    requires os.Valid() && S.KInv(os.View(), pins) && e in os.View().dirs && S.PteOf(os.View(), e, src).Some?
             && i < 1024
    modifies os.pm.mem
    ensures os.Valid() && os.View() == F.CopyWord(old(os.View()), e, dst, src, i)
            && CopyKept(old(os.View()), os.View(), pins)
  {
    hide S.KInv, S.PteOf, S.UserStore, S.Contents;
    var w := os.UserLoad(e, src, i, pins);
    StoreKeepsEntries(os.View(), pins, e, dst, i, w);
    os.UserStore(e, dst, i, w, pins);
  }

  lemma StoreKeepsEntries(k: S.Kern, pins: seq<nat>, e: nat, dst: nat, i: nat, w: Word)
    requires S.KInv(k, pins) && e in k.dirs && i < 1024
    ensures CopyKept(k, S.UserStore(k, e, dst, i, w), pins)
  {
    hide S.KInv, S.UserStore;
    S.UserStoreStep(k, pins, e, dst, i, w);
  }

  /** pgfault: it panics (returns false) unless the fault was a write to a copy-on-write page, no
      system call fails, and its copy does not fault itself. */
  method PgFault(os: K.Kernel, e: nat, v: nat, write: bool, ghost pins: seq<nat>) returns (ok: bool)
    requires os.Valid() && S.KInv(os.View(), pins) && e in os.View().dirs && e < NENV && v < USER_PAGES
             && v != PFTEMP_PAGE
    requires S.CanShare(os.View(), e, PFTEMP_PAGE)
    modifies os.pm, os.pm.ppLink, os.pm.ppRef, os.pm.mem
    ensures os.Valid() && (write ==> ok == F.PgFault(old(os.View()), e, v).Some?) && (!write ==> !ok)
    ensures ok ==> os.View() == F.PgFault(old(os.View()), e, v).value
  {
    hide S.SysPageAlloc, S.SysPageMap, S.SysPageUnmap, S.KInv, F.CopyWords, S.PteOf, S.CanShare, CopyKept;
    var pte := os.Uvpt(e, v, pins);
    if !write || pte == None || !Cow(pte.value) { return false; }
    ghost var k := os.View();
    var r := os.SysPageAlloc(e, 0, PFTEMP_PAGE * PGSIZE, Perm(0, F.RW), pins);
    if F.Failed(r) { return false; }
    ghost var pins1 := AfterAlloc(k, pins, e, v);
    var temp := os.Uvpt(e, PFTEMP_PAGE, pins1);
    if temp == None || !Writable(temp.value) || !User(temp.value) || !User(pte.value) { return false; }
    ghost var k1 := os.View();
    CopyPage(os, e, PFTEMP_PAGE, v, pins1);
    KeptEntries(k1, os.View(), pins1, e, PFTEMP_PAGE);
    CopyInv(k1, os.View(), pins1);
    ok := Replace(os, e, v, pins1);
  }

  lemma CopyInv(k: S.Kern, k': S.Kern, pins: seq<nat>)
    requires CopyKept(k, k', pins)
    ensures S.KInv(k', pins) && k'.dirs == k.dirs
  {}

  // the last two system calls of pgfault
  method Replace(os: K.Kernel, e: nat, v: nat, ghost pins: seq<nat>) returns (ok: bool)
    requires os.Valid() && S.KInv(os.View(), pins) && e in os.View().dirs && e < NENV && v < USER_PAGES
             && v != PFTEMP_PAGE
    requires S.CanShare(os.View(), e, PFTEMP_PAGE) && S.PteOf(os.View(), e, PFTEMP_PAGE).Some?
    modifies os.pm, os.pm.ppLink, os.pm.ppRef, os.pm.mem
    ensures os.Valid()
    ensures var (k3, r3) := S.SysPageMap(old(os.View()), e, 0, PFTEMP_PAGE * PGSIZE, 0, v * PGSIZE, F.RW);
            S.Formed(k3) && ok == (!F.Failed(r3) && !F.Failed(S.SysPageUnmap(k3, e, 0, PFTEMP_PAGE * PGSIZE).1))
            && (ok ==> os.View() == S.SysPageUnmap(k3, e, 0, PFTEMP_PAGE * PGSIZE).0)
  {
    hide S.SysPageMap, S.SysPageUnmap, S.KInv;
    ghost var k2 := os.View();
    assert PFTEMP_PAGE * PGSIZE / PGSIZE == PFTEMP_PAGE;
    var r := os.SysPageMap(e, 0, PFTEMP_PAGE * PGSIZE, 0, v * PGSIZE, Perm(0, F.RW), pins);
    assert S.Formed(os.View());
    if F.Failed(r) { return false; }
    F.NeverPositive(k2, e, v);
    F.MoveStep(k2, pins, e, PFTEMP_PAGE, v, F.RW);
    r := os.SysPageUnmap(e, 0, PFTEMP_PAGE * PGSIZE, pins);
    return !F.Failed(r);
  }

  // Whether or not there was memory, the copy starts from a kernel in its invariant.
  lemma AfterAlloc(k: S.Kern, pins: seq<nat>, e: nat, v: nat) returns (pins1: seq<nat>)
    requires S.KInv(k, pins) && e in k.dirs && e < NENV && v != PFTEMP_PAGE && S.PteOf(k, e, v).Some?
    requires S.CanShare(k, e, PFTEMP_PAGE) && !F.Failed(S.SysPageAlloc(k, e, 0, PFTEMP_PAGE * PGSIZE, F.RW).1)
    ensures var k1 := S.SysPageAlloc(k, e, 0, PFTEMP_PAGE * PGSIZE, F.RW).0;
            S.KInv(k1, pins1) && k1.dirs == k.dirs && S.PteOf(k1, e, v) == S.PteOf(k, e, v)
              && S.CanShare(k1, e, PFTEMP_PAGE)
  {
    hide S.SysPageAlloc, S.KInv, S.PteOf;
    F.KernFormed(k, pins, e);
    var (k1, r) := S.SysPageAlloc(k, e, 0, PFTEMP_PAGE * PGSIZE, F.RW);
    if r == S.Ret(0) {
      F.FreshPageAt(k, pins, e, 0, e, PFTEMP_PAGE, F.RW);
      pins1 := Bump(pins, k.phys.free[0], 1);
      assert S.PteOf(k1, e, v) == S.PteOf(k, e, v);
      TempShareable(k1, e);
    } else {
      S.PageAllocStep(k, pins, e, 0, PFTEMP_PAGE * PGSIZE, F.RW);
      pins1 := pins;
    }
  }

  lemma TempShareable(k: S.Kern, e: nat)
    requires S.PteOf(k, e, PFTEMP_PAGE).Some? && S.PteOf(k, e, PFTEMP_PAGE).value.frame < |k.phys.refs|
    requires k.phys.refs[S.PteOf(k, e, PFTEMP_PAGE).value.frame] == 2
    ensures S.CanShare(k, e, PFTEMP_PAGE)
  {}

  // ---------- fork

  // sys_page_map(0, va, envid, va, perm)
  method MapOwn(os: K.Kernel, e: nat, id: int, v: nat, perm: bv12) returns (r: S.Outcome)
    requires os.Valid() && C.Sound(os.View()) && e in os.View().dirs && e < NENV
    modifies os.pm, os.pm.ppLink, os.pm.ppRef, os.pm.mem
    ensures os.Valid() && (os.View(), r) == S.SysPageMap(old(os.View()), e, 0, v * PGSIZE, id, v * PGSIZE, perm)
  {
    ghost var pins :| S.KInv(os.View(), pins);
    hide S.KInv, S.SysPageMap;
    r := os.SysPageMap(e, 0, v * PGSIZE, id, v * PGSIZE, Perm(0, perm), pins);
  }

  // A call of sys_page_map on behalf of duppage succeeds with 0, or fails with a negative number
  // and changes nothing.
  lemma MapOutcome(k: S.Kern, e: nat, id: int, v: nat, perm: bv12)
    requires C.Sound(k) && e in k.dirs && e < NENV && S.Formed(k) && S.BelowLimit(k.phys)
    ensures var (k', r) := S.SysPageMap(k, e, 0, v * PGSIZE, id, v * PGSIZE, perm);
            r.Ret? && r.code <= 0 && (r.code != 0 ==> k' == k)
  {
    var pins :| S.KInv(k, pins);
    assert forall d: nat :: S.CanShare(k, d, v * PGSIZE / PGSIZE);
    hide S.KInv, S.BelowLimit, S.CanShare, S.MapPage;
    S.PageMapStep(k, pins, e, 0, v * PGSIZE, id, v * PGSIZE, perm);
    S.PageMapReturns(k, pins, e, 0, v * PGSIZE, id, v * PGSIZE, perm);
  }

  // The step of a run that a call is.
  function Sharing(e: nat, c: nat, v: nat, pte: Word): C.Act {
    if Writable(pte) || Cow(pte) then C.ShareCow(e, c, v, Writable(pte)) else C.ShareRo(e, c, v)
  }

  // The first call of duppage.
  method Share(os: K.Kernel, e: nat, id: int, v: nat, pte: Word, ghost c: nat, ghost p: C.Prog) returns (r: S.Outcome)
    requires os.Valid() && os.View() == p.k && C.CowInv(p) && e in p.k.dirs && e < NENV
             && S.PteOf(p.k, e, v) == Some(pte)
    requires c < NENV && os.envs[c].id == id && C.Allowed(p, Sharing(e, c, v, pte))
    modifies os.pm, os.pm.ppLink, os.pm.ppRef, os.pm.mem
    ensures os.Valid() && r.Ret? && (r.code < 0 <==> C.Do(p, Sharing(e, c, v, pte)).None?) && os.envs[c].id == id
    ensures os.View() == if r.code < 0 then p.k else C.Do(p, Sharing(e, c, v, pte)).value.k
  {
    hide S.SysPageMap, S.BelowLimit, C.Private, C.AllUser, C.FaultsOk, C.GapsOk, C.Sound, C.Pending;
    ghost var perm := if Writable(pte) || Cow(pte) then C.COW_PERM else C.RO_PERM;
    MapOutcome(p.k, e, id, v, perm);
    if Writable(pte) || Cow(pte) {
      r := MapOwn(os, e, id, v, C.COW_PERM);
    } else {
      r := MapOwn(os, e, id, v, C.RO_PERM);
    }
  }

  // The second call.
  method Mark(os: K.Kernel, e: nat, v: nat, ghost p: C.Prog) returns (r: S.Outcome)
    requires os.Valid() && os.View() == p.k && C.CowInv(p) && C.Allowed(p, C.MarkCow(e)) && v == p.b.gaps[e].v
    modifies os.pm, os.pm.ppLink, os.pm.ppRef, os.pm.mem
    ensures os.Valid() && r == S.Ret(0) && C.Do(p, C.MarkCow(e)).Some? && os.View() == C.Do(p, C.MarkCow(e)).value.k
  {
    CF.MarkNeverFails(p, e);
    hide S.SysPageMap, S.BelowLimit, C.Private, C.AllUser, C.FaultsOk, C.GapsOk, C.Sound, C.Pending;
    r := MapOwn(os, e, 0, v, C.COW_PERM);
  }

  lemma ShareKeeps(p: C.Prog, e: nat, c: nat, v: nat, pte: Word)
    requires C.CowInv(p) && S.PteOf(p.k, e, v) == Some(pte) && C.Allowed(p, Sharing(e, c, v, pte))
             && C.Do(p, Sharing(e, c, v, pte)).Some?
    ensures C.CowInv(C.Do(p, Sharing(e, c, v, pte)).value)
    ensures Writable(pte) || Cow(pte) ==>
              e in C.Do(p, Sharing(e, c, v, pte)).value.b.gaps && C.Do(p, Sharing(e, c, v, pte)).value.b.gaps[e].v == v
  {
    hide C.CowInv, C.Allowed, C.Do, S.PteOf;
    C.ShowsIsEagerOf(p, C.EagerOf(p));
    C.ActStep(p, C.EagerOf(p), Sharing(e, c, v, pte));
    if Writable(pte) || Cow(pte) { CF.GapOpened(p, e, c, v, Writable(pte)); }
  }

  /** duppage, also where its first call fails. */
  method DupPage(os: K.Kernel, e: nat, id: int, v: nat, ghost c: nat, ghost p: C.Prog) returns (r: int)
    requires os.Valid() && os.View() == p.k && C.CowInv(p) && e in p.k.dirs && e < NENV && S.PteOf(p.k, e, v).Some?
    requires c < NENV && os.envs[c].id == id && CF.DupPage(p, e, c, v).Some?
    modifies os.pm, os.pm.ppLink, os.pm.ppRef, os.pm.mem
    ensures os.Valid() && os.View() == CF.DupPage(p, e, c, v).value.0.k && (r == 0 <==> CF.DupPage(p, e, c, v).value.1)
  {
    ghost var pins :| S.KInv(p.k, pins);
    hide C.CowInv, S.SysPageMap, C.Allowed, C.Do, S.PteOf, S.KInv;
    var pte := os.Uvpt(e, v, pins);
    var o := Share(os, e, id, v, pte.value, c, p);
    if o.code < 0 { return o.code; }
    ShareKeeps(p, e, c, v, pte.value);
    if Writable(pte.value) || Cow(pte.value) {
      o := Mark(os, e, v, C.Do(p, Sharing(e, c, v, pte.value)).value);
    }
    return 0;
  }

  lemma SpawnOutcome(p: C.Prog, e: nat, c: nat)
    requires C.CowInv(p) && C.Allowed(p, C.Spawn(e, c))
    ensures var (k', r) := S.SysExofork(p.k, e);
            && r.Ret? && (r.code < 0 <==> C.Do(p, C.Spawn(e, c)).None?) && (r.code < 0 ==> k' == p.k)
            && (r.code >= 0 ==>
                 S.Formed(k') && Envid2Env(k'.envs, e, r.code, true) == Some(c) && k'.envs[c].id == r.code
                   && e in k'.dirs && c in k'.dirs)
  {
    var pins :| S.KInv(p.k, pins);
    hide S.KInv, S.SysExofork, C.Pending;
    S.ExoforkStep(p.k, pins, e);
    var (k', r) := S.SysExofork(p.k, e);
    if r.code >= 0 { LiveId(k'.envs, e, r.code, c); }
  }

  lemma LiveId(envs: seq<Env>, cur: nat, id: int, c: nat)
    requires |envs| == NENV && cur < NENV && id > 0 && Envid2Env(envs, cur, id, true) == Some(c)
    ensures c < NENV && envs[c].id == id
  {}

  lemma SpawnKeeps(p: C.Prog, e: nat, c: nat)
    requires C.CowInv(p) && C.Allowed(p, C.Spawn(e, c)) && C.Do(p, C.Spawn(e, c)).Some?
    ensures C.CowInv(C.Do(p, C.Spawn(e, c)).value)
            && C.Do(p, C.Spawn(e, c)).value == C.Prog(S.SysExofork(p.k, e).0, p.b)
  {
    hide C.CowInv, C.Allowed, C.Do, S.SysExofork;
    C.SpawnIs(p, C.Spawn(e, c));
    C.ShowsIsEagerOf(p, C.EagerOf(p));
    C.ActStep(p, C.EagerOf(p), C.Spawn(e, c));
  }

  // e is not in the middle of a duppage, and nobody is duplicating a page to it.
  ghost predicate Ready(b: C.Busy, e: nat) { e !in b.gaps && C.NotAwaited(b, e) }

  /** fork in the parent, whatever others are in the middle of. A failing sys_exofork panics (the
      number is negative); a failing duppage is ignored; the kernel ends up where CowFork.Fork says,
      with the child marked runnable. */
  method Fork(os: K.Kernel, e: nat, ghost c: nat, ghost p: C.Prog) returns (id: int)
    requires os.Valid() && os.View() == p.k && C.CowInv(p) && Ready(p.b, e) && C.Allowed(p, C.Spawn(e, c))
    requires C.Do(p, C.Spawn(e, c)).Some? ==> CF.Fork(p, e, c).Some?
    modifies os, os.pm, os.pm.ppLink, os.pm.ppRef, os.pm.mem, os.envs, os.envPgdir
    ensures os.Valid() && c < NENV
    ensures C.Do(p, C.Spawn(e, c)).None? ==> id < 0 && os.View() == p.k
    ensures C.Do(p, C.Spawn(e, c)).Some? ==>
              var k := CF.Fork(p, e, c).value.p.k;
              S.Formed(k) && id == k.envs[c].id && os.View() == k.(envs := k.envs[c := k.envs[c].(status := Runnable)])
  {
    SpawnOutcome(p, e, c);
    hide C.CowInv, C.Do, C.Allowed, S.SysExofork, CF.Fork, CF.DupAll, S.SysPageAlloc, Envs.Envid2Env, Ready;
    C.SpawnAllowed(p, e, c);
    id := os.SysExofork(e);
    if id < 0 { return; }
    SpawnKeeps(p, e, c);
    ghost var p1 := C.Do(p, C.Spawn(e, c)).value;
    ForkIs(p, p1, e, c);
    Duplicate(os, e, id, c, p1, CF.Fork(p, e, c).value.p);
  }

  // What fork does after sys_exofork, on the memory model.
  ghost predicate Finishes(p: C.Prog, p': C.Prog, e: nat, c: nat) {
    && CF.DupAll(p, e, c, 0).Some?
    && var p2, z := CF.DupAll(p, e, c, 0).value.0, C.Zero(e, c, XSTACK_PAGE, CF.XSTACK_PERM);
    && C.Allowed(p2, z) && S.Formed(p2.k) && e < NENV && c < NENV
    && !S.SysPageAlloc(p2.k, e, p2.k.envs[c].id, XSTACK_PAGE * PGSIZE, CF.XSTACK_PERM).1.Panic?
    && p' == if C.Do(p2, z).Some? then C.Do(p2, z).value else p2
  }

  method Duplicate(os: K.Kernel, e: nat, id: int, ghost c: nat, ghost p: C.Prog, ghost p': C.Prog)
    requires os.Valid() && os.View() == p.k && C.CowInv(p) && e < NENV && e in p.k.dirs && Ready(p.b, e)
    requires c < NENV && os.envs[c].id == id && Envid2Env(os.envs[..], e, id, true) == Some(c) && Finishes(p, p', e, c)
    modifies os, os.pm, os.pm.ppLink, os.pm.ppRef, os.pm.mem, os.envs
    ensures os.Valid() && S.Formed(p'.k) && id == p'.k.envs[c].id
    ensures os.View() == p'.k.(envs := p'.k.envs[c := p'.k.envs[c].(status := Runnable)])
  {
    hide C.CowInv, C.Do, C.Allowed, CF.DupAll, S.SysPageAlloc, Envs.Envid2Env, Ready;
    ghost var p2 := DupAll(os, e, id, c, p);
    FinishFork(os, e, id, c, p2);
  }

  lemma ForkIs(p: C.Prog, p1: C.Prog, e: nat, c: nat)
    requires C.Allowed(p, C.Spawn(e, c)) && C.Do(p, C.Spawn(e, c)) == Some(p1) && CF.Fork(p, e, c).Some?
    ensures Finishes(p1, CF.Fork(p, e, c).value.p, e, c)
  {
    hide C.Do, CF.DupAll, S.SysPageAlloc, C.Pending;
  }

  // the loop over the pages below USTACKTOP
  method DupAll(os: K.Kernel, e: nat, id: int, ghost c: nat, ghost p: C.Prog) returns (ghost p': C.Prog)
    requires os.Valid() && os.View() == p.k && C.CowInv(p) && e < NENV && e in p.k.dirs && Ready(p.b, e)
    requires c < NENV && os.envs[c].id == id && CF.DupAll(p, e, c, 0).Some?
    modifies os.pm, os.pm.ppLink, os.pm.ppRef, os.pm.mem
    ensures os.Valid() && p' == CF.DupAll(p, e, c, 0).value.0 && os.View() == p'.k && C.CowInv(p')
  {
    p' := p;
    ghost var end := CF.DupAll(p, e, c, 0).value.0;
    assert 0 <= STACK_TOP_PAGE && c < os.envs.Length;
    hide *;
    for pn := 0 to STACK_TOP_PAGE
      invariant os.Valid() && os.View() == p'.k && C.CowInv(p') && e in p'.k.dirs && Ready(p'.b, e)
      invariant CF.DupAll(p', e, c, pn).Some? && CF.DupAll(p', e, c, pn).value.0 == end
    {
      DupOneMore(p', e, c, pn);
      p' := DupNext(os, e, id, pn, c, p');
    }
    DupDone(p', e, c);
  }

  lemma DupOneMore(p: C.Prog, e: nat, c: nat, v: nat)
    requires v < STACK_TOP_PAGE && CF.DupAll(p, e, c, v).Some?
    ensures CF.DupNext(p, e, c, v).Some? && CF.DupAll(CF.DupNext(p, e, c, v).value.0, e, c, v + 1).Some?
    ensures CF.DupAll(p, e, c, v).value.0 == CF.DupAll(CF.DupNext(p, e, c, v).value.0, e, c, v + 1).value.0
  {
    hide CF.DupNext;
  }

  lemma DupDone(p: C.Prog, e: nat, c: nat)
    ensures CF.DupAll(p, e, c, STACK_TOP_PAGE) == Some((p, {}))
  {}

  // One round: what duppage returns is ignored.
  method DupNext(os: K.Kernel, e: nat, id: int, v: nat, ghost c: nat, ghost p: C.Prog) returns (ghost p': C.Prog)
    requires os.Valid() && os.View() == p.k && C.CowInv(p) && e < NENV && e in p.k.dirs && Ready(p.b, e)
             && v < STACK_TOP_PAGE
    requires c < NENV && os.envs[c].id == id && CF.DupNext(p, e, c, v).Some?
    modifies os.pm, os.pm.ppLink, os.pm.ppRef, os.pm.mem
    ensures os.Valid() && p' == CF.DupNext(p, e, c, v).value.0 && os.View() == p'.k && C.CowInv(p') && e in p'.k.dirs
            && p'.b == p.b
  {
    NextKeeps(p, e, c, v);
    ghost var pins :| S.KInv(p.k, pins);
    hide C.CowInv, CF.DupPage, S.PteOf, S.KInv;
    var pte := os.Uvpt(e, v, pins);
    p' := p;
    if pte != None && User(pte.value) {
      var r := DupPage(os, e, id, v, c, p);
      p' := CF.DupPage(p, e, c, v).value.0;
    }
  }

  lemma NextKeeps(p: C.Prog, e: nat, c: nat, v: nat)
    requires C.CowInv(p) && Ready(p.b, e) && e in p.k.dirs && v < STACK_TOP_PAGE && CF.DupNext(p, e, c, v).Some?
    ensures var p' := CF.DupNext(p, e, c, v).value.0; C.CowInv(p') && p'.b == p.b && e in p'.k.dirs
  {
    var m := C.EagerOf(p);
    C.ShowsIsEagerOf(p, m);
    CF.NoneAwaited(p.b, e, v);
    hide C.CowInv, CF.DupNext, C.Pending, C.NotAwaited;
    CF.NextCopies(p, m, e, c, v);
  }

  // sys_page_alloc of the child's exception stack: 0, or a positive number when memory is out.
  lemma StackOutcome(p: C.Prog, pins: seq<nat>, e: nat, c: nat, id: int)
    requires C.CowInv(p) && S.KInv(p.k, pins) && C.Allowed(p, C.Zero(e, c, XSTACK_PAGE, CF.XSTACK_PERM))
    requires S.Formed(p.k) && e < NENV && c < NENV && p.k.envs[c].id == id
             && Envid2Env(p.k.envs, e, id, true) == Some(c)
    requires !S.SysPageAlloc(p.k, e, id, XSTACK_PAGE * PGSIZE, CF.XSTACK_PERM).1.Panic?
    ensures var (k', r) := S.SysPageAlloc(p.k, e, id, XSTACK_PAGE * PGSIZE, CF.XSTACK_PERM);
            && r.Ret? && r.code >= 0 && (r.code != 0 ==> k' == p.k)
            && (r.code == 0 <==> C.Do(p, C.Zero(e, c, XSTACK_PAGE, CF.XSTACK_PERM)).Some?)
            && (r.code == 0 ==> k' == C.Do(p, C.Zero(e, c, XSTACK_PAGE, CF.XSTACK_PERM)).value.k)
            && k'.envs == p.k.envs
  {
    assert S.GoodVa(XSTACK_PAGE * PGSIZE) && S.UserPresent(CF.XSTACK_PERM);
    hide S.KInv, C.Pending, S.SysPageAlloc, C.CowInv, S.UserPresent;
    S.PageAllocReturns(p.k, pins, e, id, XSTACK_PAGE * PGSIZE, CF.XSTACK_PERM);
    S.PageAllocStep(p.k, pins, e, id, XSTACK_PAGE * PGSIZE, CF.XSTACK_PERM);
  }

  // the child's exception stack, and its start
  method FinishFork(os: K.Kernel, e: nat, id: int, ghost c: nat, ghost p: C.Prog)
    requires os.Valid() && os.View() == p.k && C.CowInv(p) && C.Allowed(p, C.Zero(e, c, XSTACK_PAGE, CF.XSTACK_PERM))
    requires S.Formed(p.k) && e < NENV && c < NENV && os.envs[c].id == id
             && Envid2Env(os.envs[..], e, id, true) == Some(c)
    requires !S.SysPageAlloc(p.k, e, id, XSTACK_PAGE * PGSIZE, CF.XSTACK_PERM).1.Panic?
    modifies os, os.pm, os.pm.ppLink, os.pm.ppRef, os.pm.mem, os.envs
    ensures os.Valid()
    ensures var d := C.Do(p, C.Zero(e, c, XSTACK_PAGE, CF.XSTACK_PERM));
            var k := if d.Some? then d.value.k else p.k;
            S.Formed(k) && id == k.envs[c].id && os.View() == k.(envs := k.envs[c := k.envs[c].(status := Runnable)])
  {
    ghost var pins :| S.KInv(p.k, pins);
    StackOutcome(p, pins, e, c, id);
    hide C.CowInv, S.KInv, C.Do, C.Allowed, S.SysPageAlloc;
    var r := os.SysPageAlloc(e, id, UXSTACKTOP - PGSIZE, Perm(0, CF.XSTACK_PERM), pins);
    if r.Ret? && r.code < 0 { return; }
    r := os.SysEnvSetStatus(e, id, Runnable);
  }
}
