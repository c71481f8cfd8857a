/** The memory system calls (kern/syscall.c) over physical memory, page directories and the
    environment table, and what every run of them keeps. */
module Syscalls {
  import opened Mmu
  import opened Errors
  import opened Pmap
  import opened Envs
  import opened EnvVm
  import opened Ipc

  /** `dirs` is env_pgdir of every live environment, `freeEnvs` the list of free slots. */
  datatype Kern = Kern(phys: Phys, dirs: map<nat, Frame>, envs: seq<Env>, freeEnvs: seq<nat>, kdir: nat)

  datatype Outcome = Ret(code: int) | Panic

  predicate Formed(k: Kern) { |k.envs| == NENV }

  function DirOf(k: Kern, e: nat): nat { RootOf(k.dirs, e) }

  // the two checks every page call makes on an address
  predicate GoodVa(va: nat) { va < UTOP && va % PGSIZE == 0 }

  predicate UserPresent(perm: bv12) { perm & (PTE_U | PTE_P) == PTE_U | PTE_P }

  function SysPageAlloc(k: Kern, cur: nat, id: int, va: nat, perm: bv12): (Kern, Outcome)
    requires Formed(k) && cur < NENV
  {
    match Envid2Env(k.envs, cur, id, true)
    case None => (k, Ret(-E_BAD_ENV))
    case Some(e) =>
      if !GoodVa(va) || !UserPresent(perm) then (k, Ret(-E_INVAL))
      else if k.phys.free == [] || k.phys.free[0] >= 0x10_0000 then (k, Ret(E_NO_MEM))
      else
        var pp := k.phys.free[0];
        var (s, ok) := Insert(AllocPinned(k.phys), DirOf(k, e), pp, va / PGSIZE, perm);
        if ok then (k.(phys := s), Ret(0)) else (k.(phys := s), Panic)
  }

  function SysPageMap(k: Kern, cur: nat, srcid: int, srcva: nat, dstid: int, dstva: nat, perm: bv12): (Kern, Outcome)
    requires Formed(k) && cur < NENV
  {
    match Envid2Env(k.envs, cur, srcid, true)
    case None => (k, Ret(-E_BAD_ENV))
    case Some(src) =>
      match Envid2Env(k.envs, cur, dstid, true)
      case None => (k, Ret(-E_BAD_ENV))
      case Some(dst) =>
        if !GoodVa(srcva) || !GoodVa(dstva) then (k, Ret(-E_INVAL))
        else MapPage(k, src, srcva / PGSIZE, dst, dstva / PGSIZE, perm)
  }

  // sys_page_map once its addresses are accepted
  function MapPage(k: Kern, src: nat, v: nat, dst: nat, u: nat, perm: bv12): (Kern, Outcome) {
    var pte := Pt(k.phys, DirOf(k, src), v);
    if pte.None? || !UserPresent(perm) || (perm & PTE_W != 0 && !Writable(pte.value)) then (k, Ret(-E_INVAL))
    else
      var (s, ok) := Insert(k.phys, DirOf(k, dst), pte.value.frame, u, perm);
      (k.(phys := s), Ret(if ok then 0 else -E_NO_MEM))
  }

  // The code looks the environment up without checking the caller's permission.
  function SysPageUnmap(k: Kern, cur: nat, id: int, va: nat): (Kern, Outcome)
    requires Formed(k) && cur < NENV
  {
    match Envid2Env(k.envs, cur, id, false)
    case None => (k, Ret(-E_BAD_ENV))
    case Some(e) =>
      if !GoodVa(va) then (k, Ret(-E_INVAL))
      else (k.(phys := Remove(k.phys, DirOf(k, e), va / PGSIZE)), Ret(0))
  }

  // What a send does about its page: refuse with an error, or go on, writing env_ipc_perm or not.
  datatype Transfer = Refuse(code: int) | Accept(page: Option<bv12>)

  function TransferPage(k: Kern, cur: nat, e: nat, srcva: nat, perm: bv12): (Phys, Transfer)
    requires Formed(k) && e < NENV
  {
    if srcva >= UTOP then (k.phys, Accept(Some(0)))
    else if srcva % PGSIZE != 0 then (k.phys, Refuse(-E_INVAL))
    else
      var pte := Pt(k.phys, DirOf(k, cur), srcva / PGSIZE);
      if pte.None? || !Subset(perm, pte.value.flags) then (k.phys, Refuse(-E_INVAL))
      else if k.envs[e].dstva >= UTOP then (k.phys, Accept(None))
      else
        var (s, ok) := Insert(k.phys, DirOf(k, e), pte.value.frame, k.envs[e].dstva / PGSIZE, perm);
        (s, if ok then Accept(Some(perm)) else Refuse(-E_NO_MEM))
  }

  // sys_ipc_try_send
  function SysIpcTrySend(k: Kern, cur: nat, id: int, value: nat, srcva: nat, perm: bv12): (Kern, Outcome)
    requires Formed(k) && cur < NENV
  {
    match Envid2Env(k.envs, cur, id, false)
    case None => (k, Ret(-E_BAD_ENV))
    case Some(e) =>
      if k.envs[e].recving then Send(k, cur, e, value, srcva, perm)
      else (k.(envs := Block(k.envs, cur, e)), Ret(-E_IPC_NOT_RECV))
  }

  // the send to a receiving environment
  function Send(k: Kern, cur: nat, e: nat, value: nat, srcva: nat, perm: bv12): (Kern, Outcome)
    requires Formed(k) && cur < NENV && e < NENV
  {
    var (s, t) := TransferPage(k, cur, e, srcva, perm);
    match t
    case Refuse(code) => (k.(phys := s), Ret(code))
    case Accept(page) => (k.(phys := s, envs := Deliver(k.envs, cur, e, value, page)), Ret(0))
  }

  function SysIpcRecv(k: Kern, cur: nat, dstva: nat): (Kern, Outcome)
    requires Formed(k) && cur < NENV
  {
    if dstva < UTOP && dstva % PGSIZE != 0 then (k, Ret(-E_INVAL))
    else
      var (envs, ok) := Receive(k.envs, cur, dstva);
      (k.(envs := envs), Ret(if ok then 0 else -E_BAD_ENV))
  }

  // env_alloc, for a free list that is not exhausted
  function EnvAlloc(k: Kern, parent: int): (Kern, Outcome)
    requires Formed(k) && k.freeEnvs != [] && k.freeEnvs[0] < NENV
  {
    var e := k.freeEnvs[0];
    var (s, p) := SetupVm(k.phys, k.kdir);
    if p.None? || p.value >= 0x10_0000 then (k, Ret(-E_NO_MEM))
    else
      var env := NewTenant(k.envs[e], e, parent, Runnable);
      (Kern(s, k.dirs[e := p.value], k.envs[e := env], k.freeEnvs[1..], k.kdir), Ret(env.id))
  }

  function SysExofork(k: Kern, cur: nat): (Kern, Outcome)
    requires Formed(k) && cur < NENV && k.freeEnvs != [] && k.freeEnvs[0] < NENV
  {
    var e := k.freeEnvs[0];
    var (k1, r) := EnvAlloc(k, k.envs[cur].id);
    if r.code < 0 then (k1, r)
    else (k1.(envs := k1.envs[e := k1.envs[e].(status := NotRunnable)]), r)
  }

  function SysEnvSetStatus(k: Kern, cur: nat, id: int, status: Status): (Kern, Outcome)
    requires Formed(k) && cur < NENV
  {
    if status != Runnable && status != NotRunnable then (k, Ret(-E_INVAL))
    else
      match Envid2Env(k.envs, cur, id, true)
      case None => (k, Ret(-E_BAD_ENV))
      case Some(e) => (k.(envs := k.envs[e := k.envs[e].(status := status)]), Ret(0))
  }

  // env_free
  function FreeEnv(k: Kern, e: nat): Kern
    requires Formed(k) && e < NENV
  {
    Kern(EnvFree(k.phys, DirOf(k, e)), k.dirs - {e}, k.envs[e := k.envs[e].(status := Free)], [e] + k.freeEnvs, k.kdir)
  }

  // A store by the running environment; the processor lets it through only where both the
  // directory entry and the page table entry are present, writable and user.
  function UserStore(k: Kern, e: nat, v: nat, i: nat, w: Word): Kern {
    var pde, pte := Cell(k.phys, DirOf(k, e), v / 1024), Pt(k.phys, DirOf(k, e), v);
    if v < USER_PAGES && Writable(pde) && User(pde) && pte.Some? && Writable(pte.value) && User(pte.value) then
      k.(phys := SetCell(k.phys, pte.value.frame, i, w))
    else k
  }

  // Every pp_ref can be incremented without wrapping.
  predicate BelowLimit(s: Phys) {
    forall p :: 0 <= p < |s.refs| ==> s.refs[p] < 0xFFFF
  }

  // The page of this entry, if any, can take one more reference.
  predicate CanShare(k: Kern, e: nat, v: nat) {
    var pte := Link(k.phys, k.dirs, Leaf(e, v));
    pte.Some? && pte.value.frame < |k.phys.refs| ==> k.phys.refs[pte.value.frame] < 0xFFFF
  }

  predicate Subset(a: bv12, b: bv12) { a & b == a }

  // ---------- the invariant

  ghost predicate EnvTable(envs: seq<Env>, dirs: map<nat, Frame>, freeEnvs: seq<nat>) {
    && |envs| == NENV
    && (forall e: nat :: e in dirs <==> e < NENV && !envs[e].status.Free?)
    && (forall i, j :: 0 <= i < j < |freeEnvs| ==> freeEnvs[i] != freeEnvs[j])
    && (forall e: nat :: e in freeEnvs <==> e < NENV && envs[e].status.Free?)
    && (forall e :: 0 <= e < NENV ==> 0 <= envs[e].id < 0x8000_0000 && (envs[e].id == 0 || EnvX(envs[e].id) == e))
    && (forall e :: 0 <= e < NENV && !envs[e].status.Free? ==> envs[e].id > 0)
  }

  // Every user page table is reached through a directory entry that allows everything.
  ghost predicate TablesOpen(s: Phys, dirs: map<nat, Frame>) {
    forall e, i :: Link(s, dirs, Table(e, i)).Some? ==> Link(s, dirs, Table(e, i)).value.flags == PTE_P | PTE_W | PTE_U
  }

  ghost predicate KInv(k: Kern, pins: seq<nat>) {
    && Formed(k) && EnvTable(k.envs, k.dirs, k.freeEnvs)
    && Inv(k.phys, k.dirs, pins, k.kdir)
    && TablesOpen(k.phys, k.dirs)
  }

  function PteOf(k: Kern, e: nat, v: nat): Option<Word> { Link(k.phys, k.dirs, Leaf(e, v)) }

  // The contents of page v of environment e, for a mapped page.
  function Contents(k: Kern, e: nat, v: nat): Page
    requires PteOf(k, e, v).Some?
  {
    PageWords(k.phys, PteOf(k, e, v).value.frame)
  }

  // Every page that some environment maps reads as before.
  ghost predicate DataKept(k: Kern, k': Kern) {
    forall e, v :: PteOf(k, e, v).Some? ==> PageWords(k'.phys, PteOf(k, e, v).value.frame) == Contents(k, e, v)
  }

  ghost predicate Put(k: Kern, k': Kern, e: nat, v: nat, w: Word) {
    && k' == k.(phys := k'.phys)
    && PteOf(k', e, v) == Some(w)
    && (forall d: nat, u: nat :: (d, u) != (e, v) ==> PteOf(k', d, u) == PteOf(k, d, u))
    && DataKept(k, k')
  }

  /** page_insert seen from the environments: one entry of one of them is put, and whatever
      any of them could read it still reads. */
  lemma MapStep(k: Kern, pins: seq<nat>, e: nat, pp: Frame, v: nat, perm: bv12)
    requires KInv(k, pins) && e in k.dirs && v < USER_PAGES
    requires Mappable(k.phys, k.dirs, k.kdir, pp) && k.phys.refs[pp] < 0xFFFF
    ensures var (s, ok) := Insert(k.phys, k.dirs[e], pp, v, perm);
            var k' := k.(phys := s);
            && (ok <==> HasTable(k.phys, k.dirs, e, v) || k.phys.free != [])
            && (!ok ==> k' == k)
            && (ok ==>
                && KInv(k', pins) && Put(k, k', e, v, Word(pp, perm | PTE_P))
                && PageWords(s, pp) == PageWords(k.phys, pp))
  {
    InUse(k.phys, k.dirs, pins, k.kdir, pp);
    InsertStep(k.phys, k.dirs, pins, k.kdir, e, pp, v, perm);
    var (s, ok) := Insert(k.phys, k.dirs[e], pp, v, perm);
    var k' := k.(phys := s);
    if ok {
      KeepsData(k, pins, s, e, v);
      KeepsTablesOpen(k, s, e, v);
      LeafPagesAreData(s, k.dirs, e, v, Root(e));
      LeafPagesAreData(s, k.dirs, e, v, Table(e, v / 1024));
    }
  }

  lemma KeepsTablesOpen(k: Kern, s: Phys, e: nat, v: nat)
    requires TablesOpen(k.phys, k.dirs)
    requires forall r {:trigger Link(s, k.dirs, r)} :: r != Leaf(e, v) && r != Table(e, v / 1024) ==>
               Link(s, k.dirs, r) == Link(k.phys, k.dirs, r)
    requires Link(s, k.dirs, Table(e, v / 1024)) != Link(k.phys, k.dirs, Table(e, v / 1024)) ==>
               && Link(s, k.dirs, Table(e, v / 1024)).Some?
               && Link(s, k.dirs, Table(e, v / 1024)).value.flags == PTE_P | PTE_W | PTE_U
    ensures TablesOpen(s, k.dirs)
  {
    forall d, i | Link(s, k.dirs, Table(d, i)).Some?
      ensures Link(s, k.dirs, Table(d, i)).value.flags == PTE_P | PTE_W | PTE_U
    {
      if Table(d, i) != Table(e, v / 1024) { assert Link(s, k.dirs, Table(d, i)) == Link(k.phys, k.dirs, Table(d, i)); }
    }
  }

  lemma KeepsData(k: Kern, pins: seq<nat>, s: Phys, e: nat, v: nat)
    requires KInv(k, pins) && e in k.dirs && v < USER_PAGES && Owned(s, k.dirs)
    requires HasTable(k.phys, k.dirs, e, v) ==>
               Link(s, k.dirs, Table(e, v / 1024)) == Link(k.phys, k.dirs, Table(e, v / 1024))
    requires !HasTable(k.phys, k.dirs, e, v) ==> TableOf(s, k.dirs, e, v) in k.phys.free
    requires forall q :: q != k.dirs[e] && q != TableOf(s, k.dirs, e, v) ==> PageWords(s, q) == PageWords(k.phys, q)
    ensures DataKept(k, k.(phys := s))
  {
    forall d, u | PteOf(k, d, u).Some? ensures PageWords(s, PteOf(k, d, u).value.frame) == Contents(k, d, u) {
      var q := PteOf(k, d, u).value.frame;
      LeafPagesAreData(k.phys, k.dirs, d, u, Root(e));
      if HasTable(k.phys, k.dirs, e, v) {
        LeafPagesAreData(k.phys, k.dirs, d, u, Table(e, v / 1024));
      } else if TableOf(s, k.dirs, e, v) == q {
        FreePageUnused(k.phys, k.dirs, pins, k.kdir, q, Leaf(d, u));
      }
      assert Target(k.phys, k.dirs, Root(e)) == Some(k.dirs[e]);
    }
  }

  // ---------- what each call does

  lemma PinnedKern(k: Kern, pins: seq<nat>)
    requires KInv(k, pins) && k.phys.free != []
    ensures var pp, k1 := k.phys.free[0], k.(phys := AllocPinned(k.phys));
            && pp < |pins| && KInv(k1, Bump(pins, pp, 1)) && Mappable(k1.phys, k.dirs, k.kdir, pp)
            && k1.phys.refs[pp] == 1
            && SameLinks(k.phys, k1.phys, k.dirs) && Unused(k.phys, k.dirs, pp)
            && PageWords(k1.phys, pp) == ZeroPage() && DataKept(k, k1)
  {
    var pp, k1 := k.phys.free[0], k.(phys := AllocPinned(k.phys));
    assert pp in k.phys.free;
    AllocStep(k.phys, k.dirs, pins, k.kdir);
    forall e, v | PteOf(k, e, v).Some? ensures PageWords(k1.phys, PteOf(k, e, v).value.frame) == Contents(k, e, v) {
      assert Target(k.phys, k.dirs, Leaf(e, v)) != Some(pp);
    }
  }

  /** sys_page_alloc: on success the entry names a zeroed page that nobody referred to, which
      keeps one reference for good; any other return changes nothing. */
  lemma PageAllocStep(k: Kern, pins: seq<nat>, cur: nat, id: int, va: nat, perm: bv12)
    requires KInv(k, pins) && cur in k.dirs
    ensures var (k', r) := SysPageAlloc(k, cur, id, va, perm);
            && (r.Ret? && r.code != 0 ==> k' == k)
            && (r == Ret(0) ==>
                && k.phys.free != [] && Envid2Env(k.envs, cur, id, true).Some?
                && var e, pp := Envid2Env(k.envs, cur, id, true).value, k.phys.free[0];
                && e in k.dirs && va / PGSIZE < USER_PAGES && pp < |pins| && pp < 0x10_0000
                && KInv(k', Bump(pins, pp, 1)) && Put(k, k', e, va / PGSIZE, Word(pp, perm | PTE_P))
                && PageWords(k'.phys, pp) == ZeroPage() && Unused(k.phys, k.dirs, pp))
  {
    var (k', r) := SysPageAlloc(k, cur, id, va, perm);
    if r == Ret(0) {
      var e, pp := Envid2Env(k.envs, cur, id, true).value, k.phys.free[0];
      PinnedKern(k, pins);
      var k1 := k.(phys := AllocPinned(k.phys));
      MapStep(k1, Bump(pins, pp, 1), e, pp, va / PGSIZE, perm);
      forall d, u ensures PteOf(k1, d, u) == PteOf(k, d, u) {}
    }
  }

  /** What sys_page_alloc costs where nothing was mapped: the page, and one for the page table if that
      was missing. */
  lemma PageAllocTakes(k: Kern, pins: seq<nat>, cur: nat, id: int, e: nat, v: nat, perm: bv12)
    requires KInv(k, pins) && cur in k.dirs && Formed(k) && cur < NENV && v < USER_PAGES
    requires Envid2Env(k.envs, cur, id, true) == Some(e) && PteOf(k, e, v) == None
    requires SysPageAlloc(k, cur, id, v * PGSIZE, perm).1 == Ret(0)
    ensures var k' := SysPageAlloc(k, cur, id, v * PGSIZE, perm).0;
            && |k'.phys.free| == |k.phys.free| - (if HasTable(k.phys, k.dirs, e, v) then 1 else 2)
            && (forall d, i {:trigger Link(k'.phys, k.dirs, Table(d, i))} :: Link(k'.phys, k.dirs, Table(d, i)).Some?
                  <==> Link(k.phys, k.dirs, Table(d, i)).Some? || (d == e && i == v / 1024))
  {
    KernFacts(k, pins, cur, id);
    PinnedKern(k, pins);
    var pp, s1, left := k.phys.free[0], AllocPinned(k.phys), Bump(pins, k.phys.free[0], 1);
    assert v * PGSIZE / PGSIZE == v && s1.free == k.phys.free[1..];
    assert Link(s1, k.dirs, Leaf(e, v)) == None;
    hide Inv, Insert, TablesOpen, EnvTable, Mappable, AllocPinned, Envid2Env, UserPresent, HasTable;
    TableIsLink(k.phys, k.dirs, e, v);
    TableIsLink(s1, k.dirs, e, v);
    PageAllocReturns(k, pins, cur, id, v * PGSIZE, perm);
    PutTakes(s1, k.dirs, left, k.kdir, e, pp, v, perm);
  }

  /** What sys_page_alloc returns, error by error; out of memory is the positive code of
      kern/syscall.c:197. The panic of kern/syscall.c:200 is reached exactly by a well-formed
      request whose page table is missing when one page of memory is left. */
  lemma PageAllocReturns(k: Kern, pins: seq<nat>, cur: nat, id: int, va: nat, perm: bv12)
    requires KInv(k, pins) && cur in k.dirs
    ensures Formed(k) && cur < NENV
    ensures var e := Envid2Env(k.envs, cur, id, true);
            SysPageAlloc(k, cur, id, va, perm).1
            == if e.None? then Ret(-E_BAD_ENV)
               else if !GoodVa(va) || !UserPresent(perm) then Ret(-E_INVAL)
               else if k.phys.free == [] then Ret(E_NO_MEM)
               else if |k.phys.free| == 1 && !HasTable(k.phys, k.dirs, e.value, va / PGSIZE) then Panic
               else Ret(0)
  {
    hide Inv, TablesOpen, UserPresent;
    var e := Envid2Env(k.envs, cur, id, true);
    if e.Some? && GoodVa(va) && k.phys.free != [] {
      PinnedKern(k, pins);
      FreeFrame(k, pins);
      var k1 := k.(phys := AllocPinned(k.phys));
      MapStep(k1, Bump(pins, k.phys.free[0], 1), e.value, k.phys.free[0], va / PGSIZE, perm);
      assert Link(k1.phys, k.dirs, Table(e.value, va / PGSIZE / 1024))
               == Link(k.phys, k.dirs, Table(e.value, va / PGSIZE / 1024));
    }
  }

  lemma FreeFrame(k: Kern, pins: seq<nat>)
    requires KInv(k, pins) && k.phys.free != []
    ensures k.phys.free[0] < |pins| && k.phys.free[0] < 0x10_0000
  {
    assert k.phys.free[0] in k.phys.free;
  }

  lemma MappedIsMappable(k: Kern, pins: seq<nat>, e: nat, v: nat)
    requires KInv(k, pins) && PteOf(k, e, v).Some?
    ensures Mappable(k.phys, k.dirs, k.kdir, PteOf(k, e, v).value.frame)
  {
    var q := PteOf(k, e, v).value.frame;
    assert Target(k.phys, k.dirs, Leaf(e, v)) == Some(q);
    HoldersAreTargets(k.phys, k.dirs, q, Leaf(e, v));
    forall r: Ref | !r.Leaf? ensures Target(k.phys, k.dirs, r) != Some(q) { LeafPagesAreData(k.phys, k.dirs, e, v, r); }
  }

  lemma KernFacts(k: Kern, pins: seq<nat>, cur: nat, id: int)
    requires KInv(k, pins) && cur in k.dirs
    ensures Formed(k) && cur < NENV
    ensures Envid2Env(k.envs, cur, id, true).Some? ==> Envid2Env(k.envs, cur, id, true).value in k.dirs
  {
    hide Inv, TablesOpen;
  }

  lemma MapPageStep(k: Kern, pins: seq<nat>, src: nat, v: nat, dst: nat, u: nat, perm: bv12)
    requires KInv(k, pins) && src in k.dirs && dst in k.dirs && u < USER_PAGES && CanShare(k, src, v) && v < USER_PAGES
    ensures var (k', r) := MapPage(k, src, v, dst, u, perm);
            && r.Ret? && (r.code != 0 ==> k' == k)
            && (r == Ret(0) ==>
                && PteOf(k, src, v).Some? && (perm & PTE_W != 0 ==> Writable(PteOf(k, src, v).value))
                && KInv(k', pins) && Put(k, k', dst, u, Word(PteOf(k, src, v).value.frame, perm | PTE_P)))
  {
    hide Inv, Insert, TablesOpen, EnvTable, Put, UserPresent, Writable;
    if Pt(k.phys, DirOf(k, src), v).Some? {
      MappedIsMappable(k, pins, src, v);
      MapStep(k, pins, dst, PteOf(k, src, v).value.frame, u, perm);
    }
  }

  /** sys_page_map: on success the destination entry names the page of the source entry, with
      the permissions asked for, which are writable only if the source was. */
  lemma PageMapStep(k: Kern, pins: seq<nat>, cur: nat, srcid: int, srcva: nat, dstid: int, dstva: nat, perm: bv12)
    requires KInv(k, pins) && cur in k.dirs && forall e: nat :: CanShare(k, e, srcva / PGSIZE)
    ensures var (k', r) := SysPageMap(k, cur, srcid, srcva, dstid, dstva, perm);
            && r.Ret? && (r.code != 0 ==> k' == k)
            && (r == Ret(0) ==>
                && Envid2Env(k.envs, cur, srcid, true).Some? && Envid2Env(k.envs, cur, dstid, true).Some?
                && var src, dst := Envid2Env(k.envs, cur, srcid, true).value, Envid2Env(k.envs, cur, dstid, true).value;
                var pte := PteOf(k, src, srcva / PGSIZE);
                && src in k.dirs && dst in k.dirs && dstva / PGSIZE < USER_PAGES && pte.Some?
                && (perm & PTE_W != 0 ==> Writable(pte.value))
                && KInv(k', pins) && Put(k, k', dst, dstva / PGSIZE, Word(pte.value.frame, perm | PTE_P)))
  {
    hide MapPage, KInv, Put, Inv, TablesOpen;
    KernFacts(k, pins, cur, srcid);
    KernFacts(k, pins, cur, dstid);
    var src, dst := Envid2Env(k.envs, cur, srcid, true), Envid2Env(k.envs, cur, dstid, true);
    if src.Some? && dst.Some? && GoodVa(srcva) && GoodVa(dstva) {
      assert CanShare(k, src.value, srcva / PGSIZE);
      MapPageStep(k, pins, src.value, srcva / PGSIZE, dst.value, dstva / PGSIZE, perm);
    }
  }

  /** What a mapping costs: a page if the destination had no page table, and then that table. Mapped
      where nothing was mapped, or over itself, it frees nothing. */
  lemma MapPageTakes(k: Kern, pins: seq<nat>, src: nat, v: nat, dst: nat, u: nat, perm: bv12)
    requires KInv(k, pins) && src in k.dirs && dst in k.dirs && u < USER_PAGES && CanShare(k, src, v) && v < USER_PAGES
    requires MapPage(k, src, v, dst, u, perm).1 == Ret(0)
    requires PteOf(k, dst, u).Some? ==> dst == src && u == v
    ensures var k' := MapPage(k, src, v, dst, u, perm).0;
            && k'.phys.free == (if HasTable(k.phys, k.dirs, dst, u) || k.phys.free == [] then k.phys.free
                                else k.phys.free[1..])
            && (forall d, i {:trigger Link(k'.phys, k.dirs, Table(d, i))} :: Link(k'.phys, k.dirs, Table(d, i)).Some?
                  <==> Link(k.phys, k.dirs, Table(d, i)).Some? || (d == dst && i == u / 1024))
  {
    MappedIsMappable(k, pins, src, v);
    TableOrFree(k, pins, src, v, dst, u, perm);
    hide Inv, Insert, TablesOpen, EnvTable, Mappable, HasTable, UserPresent;
    PutTakes(k.phys, k.dirs, pins, k.kdir, dst, PteOf(k, src, v).value.frame, u, perm);
  }

  lemma TableOrFree(k: Kern, pins: seq<nat>, src: nat, v: nat, dst: nat, u: nat, perm: bv12)
    requires KInv(k, pins) && src in k.dirs && dst in k.dirs && u < USER_PAGES && CanShare(k, src, v) && v < USER_PAGES
    requires MapPage(k, src, v, dst, u, perm).1 == Ret(0)
    ensures HasTable(k.phys, k.dirs, dst, u) || k.phys.free != []
  {
    hide KInv, MapPage, HasTable, UserPresent, CanShare;
    MapPageReturns(k, pins, src, v, dst, u, perm);
  }

  /** What sys_page_map returns, error by error. */
  lemma PageMapReturns(k: Kern, pins: seq<nat>, cur: nat, srcid: int, srcva: nat, dstid: int, dstva: nat, perm: bv12)
    requires KInv(k, pins) && cur in k.dirs && Formed(k) && cur < NENV
    requires var src := Envid2Env(k.envs, cur, srcid, true); src.Some? ==> CanShare(k, src.value, srcva / PGSIZE)
    ensures var src, dst := Envid2Env(k.envs, cur, srcid, true), Envid2Env(k.envs, cur, dstid, true);
            SysPageMap(k, cur, srcid, srcva, dstid, dstva, perm).1
            == if src.None? || dst.None? then Ret(-E_BAD_ENV)
               else
                 var pte := PteOf(k, src.value, srcva / PGSIZE);
                 if !GoodVa(srcva) || !GoodVa(dstva) || pte.None? || !UserPresent(perm)
                   || (perm & PTE_W != 0 && !Writable(pte.value)) then Ret(-E_INVAL)
                 else if HasTable(k.phys, k.dirs, dst.value, dstva / PGSIZE) || k.phys.free != [] then Ret(0)
                 else Ret(-E_NO_MEM)
  {
    hide KInv, MapPage, Inv, TablesOpen, PteOf, UserPresent, Writable;
    KernFacts(k, pins, cur, srcid);
    KernFacts(k, pins, cur, dstid);
    var src, dst := Envid2Env(k.envs, cur, srcid, true), Envid2Env(k.envs, cur, dstid, true);
    if src.Some? && dst.Some? && GoodVa(srcva) && GoodVa(dstva) {
      assert CanShare(k, src.value, srcva / PGSIZE);
      MapPageReturns(k, pins, src.value, srcva / PGSIZE, dst.value, dstva / PGSIZE, perm);
    }
  }

  lemma MapPageReturns(k: Kern, pins: seq<nat>, src: nat, v: nat, dst: nat, u: nat, perm: bv12)
    requires KInv(k, pins) && src in k.dirs && dst in k.dirs && u < USER_PAGES && CanShare(k, src, v) && v < USER_PAGES
    ensures MapPage(k, src, v, dst, u, perm).1
            == if PteOf(k, src, v).None? || !UserPresent(perm)
              || (perm & PTE_W != 0 && !Writable(PteOf(k, src, v).value)) then Ret(-E_INVAL)
               else if HasTable(k.phys, k.dirs, dst, u) || k.phys.free != [] then Ret(0)
               else Ret(-E_NO_MEM)
  {
    hide Inv, Insert, TablesOpen, EnvTable, UserPresent, Writable, HasTable;
    if Pt(k.phys, DirOf(k, src), v).Some? {
      MappedIsMappable(k, pins, src, v);
      MapStep(k, pins, dst, PteOf(k, src, v).value.frame, u, perm);
    }
  }

  lemma RemoveEntry(k: Kern, pins: seq<nat>, e: nat, v: nat)
    requires KInv(k, pins) && PteOf(k, e, v).Some?
    ensures var k' := k.(phys := Remove(k.phys, k.dirs[e], v));
            && KInv(k', pins) && DataKept(k, k')
            && (forall d: nat, u: nat :: PteOf(k', d, u) == if d == e && u == v then None else PteOf(k, d, u))
  {
    var k' := k.(phys := Remove(k.phys, k.dirs[e], v));
    assert Target(k.phys, k.dirs, Leaf(e, v)).Some?;
    RemoveStep(k.phys, k.dirs, pins, k.kdir, e, v);
    forall d, i ensures Link(k'.phys, k.dirs, Table(d, i)) == Link(k.phys, k.dirs, Table(d, i)) {}
    forall d, u | PteOf(k, d, u).Some? ensures PageWords(k'.phys, PteOf(k, d, u).value.frame) == Contents(k, d, u) {
      LeafPagesAreData(k.phys, k.dirs, d, u, Table(e, v / 1024));
    }
  }

  /** sys_page_unmap deletes one entry, and succeeds when there is none. */
  lemma PageUnmapStep(k: Kern, pins: seq<nat>, cur: nat, id: int, va: nat)
    requires KInv(k, pins) && cur in k.dirs
    ensures Formed(k) && cur < NENV
    ensures var (k', r) := SysPageUnmap(k, cur, id, va);
            && r == Ret(if Envid2Env(k.envs, cur, id, false).None? then -E_BAD_ENV else if !GoodVa(va) then -E_INVAL
                 else 0)
            && (r.code != 0 ==> k' == k)
            && (r == Ret(0) ==>
                var e, v := Envid2Env(k.envs, cur, id, false).value, va / PGSIZE;
                && e in k.dirs && v < USER_PAGES && KInv(k', pins) && DataKept(k, k') && k' == k.(phys := k'.phys)
                && (forall d: nat, u: nat :: PteOf(k', d, u) == if d == e && u == v then None else PteOf(k, d, u)))
  {
    var (k', r) := SysPageUnmap(k, cur, id, va);
    if r == Ret(0) {
      var e, v := Envid2Env(k.envs, cur, id, false).value, va / PGSIZE;
      if PteOf(k, e, v).Some? { RemoveEntry(k, pins, e, v); } else { assert k' == k; }
    }
  }

  lemma SameTenants(k: Kern, pins: seq<nat>, envs: seq<Env>)
    requires KInv(k, pins) && |envs| == NENV
    requires forall e :: 0 <= e < NENV ==> envs[e].id == k.envs[e].id && envs[e].status.Free? == k.envs[e].status.Free?
    ensures KInv(k.(envs := envs), pins)
  {}

  lemma SendKeepsTenants(k: Kern, pins: seq<nat>, cur: nat, e: nat, value: nat, page: Option<bv12>)
    requires KInv(k, pins) && cur in k.dirs && e in k.dirs
    ensures KInv(k.(envs := Block(k.envs, cur, e)), pins)
    ensures KInv(k.(envs := Deliver(k.envs, cur, e, value, page)), pins)
  {
    SameTenants(k, pins, Block(k.envs, cur, e));
    SameTenants(k, pins, Deliver(k.envs, cur, e, value, page));
  }

  // The entry a successful send put at the receiver.
  ghost predicate Transferred(k: Kern, s: Phys, cur: nat, e: nat, srcva: nat, perm: bv12) {
    var pte := PteOf(k, cur, srcva / PGSIZE);
    && e in k.dirs && e < |k.envs| && k.envs[e].dstva / PGSIZE < USER_PAGES
    && pte.Some? && Subset(perm, pte.value.flags)
    && Put(k, k.(phys := s), e, k.envs[e].dstva / PGSIZE, Word(pte.value.frame, perm | PTE_P))
  }

  lemma TransferInsert(k: Kern, pins: seq<nat>, cur: nat, e: nat, srcva: nat, perm: bv12)
    requires KInv(k, pins) && e in k.dirs && BelowLimit(k.phys) && k.envs[e].dstva < UTOP
    requires PteOf(k, cur, srcva / PGSIZE).Some? && Subset(perm, PteOf(k, cur, srcva / PGSIZE).value.flags)
    ensures var (s, ok) := Insert(k.phys, k.dirs[e], PteOf(k, cur, srcva / PGSIZE).value.frame,
              k.envs[e].dstva / PGSIZE, perm);
            && (ok <==> HasTable(k.phys, k.dirs, e, k.envs[e].dstva / PGSIZE) || k.phys.free != [])
            && (!ok ==> s == k.phys)
            && (ok ==>
                && KInv(k.(phys := s), pins) && DataKept(k, k.(phys := s))
                && Transferred(k, s, cur, e, srcva, perm))
  {
    hide Inv, TablesOpen;
    MappedIsMappable(k, pins, cur, srcva / PGSIZE);
    MapStep(k, pins, e, PteOf(k, cur, srcva / PGSIZE).value.frame, k.envs[e].dstva / PGSIZE, perm);
  }

  /** The page half of sys_ipc_try_send: memory changes only when the page is accepted and
      wanted, and then by one entry at the receiver's address with flags the sender has. */
  lemma TransferStep(k: Kern, pins: seq<nat>, cur: nat, e: nat, srcva: nat, perm: bv12)
    requires KInv(k, pins) && cur in k.dirs && e in k.dirs && BelowLimit(k.phys)
    ensures var (s, t) := TransferPage(k, cur, e, srcva, perm);
            && KInv(k.(phys := s), pins) && DataKept(k, k.(phys := s))
            && (s != k.phys ==> t == Accept(Some(perm)) && Transferred(k, s, cur, e, srcva, perm))
            && (t.Refuse? ==> t.code < 0)
  {
    var (s, t) := TransferPage(k, cur, e, srcva, perm);
    var pte := PteOf(k, cur, srcva / PGSIZE);
    if srcva < UTOP && pte.Some? && Subset(perm, pte.value.flags) && k.envs[e].dstva < UTOP {
      TransferInsert(k, pins, cur, e, srcva, perm);
    } else {
      assert s == k.phys;
    }
  }

  lemma SendStep(k: Kern, pins: seq<nat>, cur: nat, e: nat, value: nat, srcva: nat, perm: bv12)
    requires KInv(k, pins) && cur in k.dirs && e in k.dirs && BelowLimit(k.phys)
    ensures var (k', r) := Send(k, cur, e, value, srcva, perm);
            && r.Ret? && KInv(k', pins) && DataKept(k, k') && k'.dirs == k.dirs
            && (k'.phys != k.phys ==> r == Ret(0) && Transferred(k, k'.phys, cur, e, srcva, perm))
  {
    TransferStep(k, pins, cur, e, srcva, perm);
    var (s, t) := TransferPage(k, cur, e, srcva, perm);
    hide Inv, EnvTable, TablesOpen, TransferPage, Transferred, PteOf, Deliver;
    if t.Accept? { SendKeepsTenants(k.(phys := s), pins, cur, e, value, t.page); }
  }

  /** sys_env_set_status: what it returns, error by error. It changes one status, of the caller
      or a child of the caller, to one of the two statuses allowed, and nothing else; memory and
      the invariant are untouched. */
  lemma SetStatusStep(k: Kern, pins: seq<nat>, cur: nat, id: int, status: Status)
    requires KInv(k, pins) && cur in k.dirs
    ensures Formed(k) && cur < NENV
    ensures var (k', r) := SysEnvSetStatus(k, cur, id, status);
            var e := Envid2Env(k.envs, cur, id, true);
            && r == Ret(if status != Runnable && status != NotRunnable then -E_INVAL else if e.None? then -E_BAD_ENV
                 else 0)
            && KInv(k', pins) && k' == k.(envs := k'.envs)
            && (r.code != 0 ==> k' == k)
            && (r.code == 0 ==>
                && (e.value == cur || k.envs[e.value].parent == k.envs[cur].id)
                && k'.envs[e.value].status == status
                && k'.envs[e.value].(status := k.envs[e.value].status) == k.envs[e.value]
                && (forall d :: 0 <= d < NENV && d != e.value ==> k'.envs[d] == k.envs[d]))
  {
    hide Inv, TablesOpen;
    KernFacts(k, pins, cur, id);
    var (k', r) := SysEnvSetStatus(k, cur, id, status);
    if r == Ret(0) { SameTenants(k, pins, k'.envs); }
  }

  /** sys_ipc_try_send: whatever it returns, the environments' pages read as before; an entry
      changes only on success, and then as Transferred says. */
  lemma IpcSendStep(k: Kern, pins: seq<nat>, cur: nat, id: int, value: nat, srcva: nat, perm: bv12)
    requires KInv(k, pins) && cur in k.dirs && BelowLimit(k.phys)
    ensures var (k', r) := SysIpcTrySend(k, cur, id, value, srcva, perm);
            && r.Ret? && KInv(k', pins) && DataKept(k, k') && k'.dirs == k.dirs
            && (k'.phys != k.phys ==>
                && r == Ret(0) && Envid2Env(k.envs, cur, id, false).Some?
                && Transferred(k, k'.phys, cur, Envid2Env(k.envs, cur, id, false).value, srcva, perm))
  {
    var found := Envid2Env(k.envs, cur, id, false);
    if found.Some? {
      hide Inv, TablesOpen, Send, Transferred, PteOf, Block;
      if k.envs[found.value].recving {
        SendStep(k, pins, cur, found.value, value, srcva, perm);
      } else {
        SendKeepsTenants(k, pins, cur, found.value, value, None);
      }
    }
  }

  /** What sys_ipc_try_send returns, error by error. The page is mapped at the receiver exactly
      when both ask for it and the call succeeds. */
  lemma IpcSendReturns(k: Kern, pins: seq<nat>, cur: nat, id: int, value: nat, srcva: nat, perm: bv12)
    requires KInv(k, pins) && cur in k.dirs && BelowLimit(k.phys)
    ensures Formed(k) && cur < NENV
    ensures var (k', r) := SysIpcTrySend(k, cur, id, value, srcva, perm);
            match Envid2Env(k.envs, cur, id, false)
            case None => r == Ret(-E_BAD_ENV)
            case Some(e) =>
              var pte, dstva := PteOf(k, cur, srcva / PGSIZE), k.envs[e].dstva;
              if !k.envs[e].recving then r == Ret(-E_IPC_NOT_RECV)
              else if srcva >= UTOP then r == Ret(0) && k'.phys == k.phys
              else if srcva % PGSIZE != 0 || pte.None? || !Subset(perm, pte.value.flags) then r == Ret(-E_INVAL)
              else if dstva >= UTOP then r == Ret(0) && k'.phys == k.phys
              else if HasTable(k.phys, k.dirs, e, dstva / PGSIZE) || k.phys.free != [] then
                r == Ret(0) && Transferred(k, k'.phys, cur, e, srcva, perm)
              else r == Ret(-E_NO_MEM)
  {
    hide Inv, TablesOpen, Transferred, Deliver, Insert, HasTable;
    var found := Envid2Env(k.envs, cur, id, false);
    if found.Some? && k.envs[found.value].recving && srcva < UTOP && PteOf(k, cur, srcva / PGSIZE).Some?
       && Subset(perm, PteOf(k, cur, srcva / PGSIZE).value.flags) && k.envs[found.value].dstva < UTOP {
      TransferInsert(k, pins, cur, found.value, srcva, perm);
    }
  }

  /** An IPC receiver never gets a permission that the sender lacks. */
  lemma IpcFlagsSubset(k: Kern, pins: seq<nat>, cur: nat, id: int, value: nat, srcva: nat, perm: bv12)
    requires KInv(k, pins) && cur in k.dirs && BelowLimit(k.phys)
    requires SysIpcTrySend(k, cur, id, value, srcva, perm).0.phys != k.phys
    ensures var k' := SysIpcTrySend(k, cur, id, value, srcva, perm).0;
            && Envid2Env(k.envs, cur, id, false).Some?
            && var e := Envid2Env(k.envs, cur, id, false).value;
            && e < |k.envs| && PteOf(k, cur, srcva / PGSIZE).Some? && PteOf(k', e, k.envs[e].dstva / PGSIZE).Some?
            && PteOf(k', e, k.envs[e].dstva / PGSIZE).value.frame == PteOf(k, cur, srcva / PGSIZE).value.frame
            && Subset(PteOf(k', e, k.envs[e].dstva / PGSIZE).value.flags, PteOf(k, cur, srcva / PGSIZE).value.flags)
  {
    hide KInv, SysIpcTrySend;
    IpcSendStep(k, pins, cur, id, value, srcva, perm);
    var pte := PteOf(k, cur, srcva / PGSIZE).value;
    PresentEntry(k, cur, srcva / PGSIZE);
    PresentSubset(perm, pte.flags);
  }

  lemma PresentEntry(k: Kern, e: nat, v: nat)
    requires PteOf(k, e, v).Some?
    ensures Present(PteOf(k, e, v).value)
  {}

  lemma PresentSubset(perm: bv12, flags: bv12)
    requires Subset(perm, flags) && flags & PTE_P != 0
    ensures Subset(perm | PTE_P, flags)
  {}

  /** A failed send leaves the message fields of everybody as they were, the target's included. */
  lemma FailedSendLeavesMessages(k: Kern, cur: nat, id: int, value: nat, srcva: nat, perm: bv12, e: nat)
    requires Formed(k) && cur < NENV && e < NENV
    requires SysIpcTrySend(k, cur, id, value, srcva, perm).1 != Ret(0)
    ensures var t := SysIpcTrySend(k, cur, id, value, srcva, perm).0.envs;
            |t| == NENV && t[e].value == k.envs[e].value && t[e].from == k.envs[e].from
              && t[e].recving == k.envs[e].recving
  {
    hide TransferPage;
  }

  lemma IpcRecvStep(k: Kern, pins: seq<nat>, cur: nat, dstva: nat)
    requires KInv(k, pins) && cur in k.dirs
    ensures var (k', r) := SysIpcRecv(k, cur, dstva);
            r.Ret? && KInv(k', pins) && k'.phys == k.phys && k'.dirs == k.dirs
  {
    SameTenants(k, pins, Receive(k.envs, cur, dstva).0);
  }

  // What sys_exofork leaves at the new environment's slot.
  predicate Newborn(k: Kern, k': Kern, cur: nat, c: nat, id: int)
    requires Formed(k) && Formed(k')
  {
    && cur < NENV && c < NENV && c !in k.dirs && c != cur && k'.dirs.Keys == k.dirs.Keys + {c}
    && Envid2Env(k'.envs, cur, id, true) == Some(c)
    && (forall e :: 0 <= e < NENV && e != c ==> k'.envs[e] == k.envs[e])
    && k'.envs[c] == Tenant(k.envs[c], id, k.envs[cur].id, NotRunnable)
  }

  // The record of a new environment: its ring and message fields are what the last tenant left.
  function Tenant(t: Env, id: int, parent: int, status: Status): Env {
    t.(id := id, parent := parent, status := status, recving := false)
  }

  lemma ExoforkMemory(k: Kern, pins: seq<nat>, c: nat, s: Phys, p: Frame)
    requires KInv(k, pins) && c !in k.dirs && SetupVm(k.phys, k.kdir) == (s, Some(p))
    ensures var dirs' := k.dirs[c := p];
            && Inv(s, dirs', pins, k.kdir) && TablesOpen(s, dirs')
            && (forall e, v :: Link(s, dirs', Leaf(e, v)) == PteOf(k, e, v)) && (forall v :: PteOf(k, c, v) == None)
            && (forall e, v :: PteOf(k, e, v).Some? ==> PageWords(s, PteOf(k, e, v).value.frame) == Contents(k, e, v))
            && k.phys.free != [] && s.free == k.phys.free[1..]
  {
    SetupStep(k.phys, k.dirs, pins, k.kdir, c);
    var dirs' := k.dirs[c := p];
    forall e, v | PteOf(k, e, v).Some? ensures PageWords(s, PteOf(k, e, v).value.frame) == Contents(k, e, v) {
      assert Target(k.phys, k.dirs, Leaf(e, v)) != Some(p);
    }
    forall d, i ensures Link(s, dirs', Table(d, i)) == Link(k.phys, k.dirs, Table(d, i)) {}
  }

  lemma ExoforkTable(k: Kern, cur: nat, p: Frame)
    requires EnvTable(k.envs, k.dirs, k.freeEnvs) && cur in k.dirs && k.freeEnvs != []
    ensures var c := k.freeEnvs[0];
            && c < NENV
            && var id := NextId(k.envs[c].id, c);
            var env := Tenant(k.envs[c], id, k.envs[cur].id, NotRunnable);
            && EnvTable(k.envs[c := env], k.dirs[c := p], k.freeEnvs[1..]) && id > 0
            && Newborn(k, k.(envs := k.envs[c := env], dirs := k.dirs[c := p]), cur, c, id)
  {
    TenantTable(k, k.envs[cur].id, NotRunnable, p);
  }

  lemma TenantTable(k: Kern, parent: int, status: Status, p: Frame)
    requires EnvTable(k.envs, k.dirs, k.freeEnvs) && k.freeEnvs != [] && status != Free
    ensures var c := k.freeEnvs[0];
            && c < NENV && c !in k.dirs
            && var id := NextId(k.envs[c].id, c);
            EnvTable(k.envs[c := Tenant(k.envs[c], id, parent, status)], k.dirs[c := p], k.freeEnvs[1..])
            && 0 < id && EnvX(id) == c
  {
    var c := k.freeEnvs[0];
    assert c in k.freeEnvs;
    NextIdNamesSlot(k.envs[c].id, c);
    assert forall e: nat :: e in k.freeEnvs <==> e == c || e in k.freeEnvs[1..];
  }

  /** env_alloc: a new environment in the first free slot, runnable, that maps nothing and has the
      next identifier of its slot; everybody else keeps everything. */
  lemma EnvAllocStep(k: Kern, pins: seq<nat>, parent: int)
    requires KInv(k, pins) && k.freeEnvs != []
    ensures Formed(k) && k.freeEnvs[0] < NENV
    ensures var (k', r), c := EnvAlloc(k, parent), k.freeEnvs[0];
            && r.Ret? && (r.code < 0 <==> k.phys.free == []) && (r.code < 0 ==> k' == k && r.code == -E_NO_MEM)
            && (r.code >= 0 ==>
                && KInv(k', pins) && DataKept(k, k') && r.code == NextId(k.envs[c].id, c) > 0 && EnvX(r.code) == c
                && k'.envs == k.envs[c := Tenant(k.envs[c], r.code, parent, Runnable)]
                && k'.dirs.Keys == k.dirs.Keys + {c} && c !in k.dirs && k'.freeEnvs == k.freeEnvs[1..]
                && (forall e, v :: PteOf(k', e, v) == PteOf(k, e, v)) && (forall v :: PteOf(k, c, v) == None)
                && k'.phys.free == k.phys.free[1..])
  {
    TenantTable(k, parent, Runnable, 0);
    var c := k.freeEnvs[0];
    SetupFails(k, pins, c);
    hide Inv, TablesOpen, EnvTable, SetupVm, NextId;
    if k.phys.free != [] {
      var (s, p) := SetupVm(k.phys, k.kdir);
      TenantTable(k, parent, Runnable, p.value);
      ExoforkMemory(k, pins, c, s, p.value);
    }
  }

  lemma SetupFails(k: Kern, pins: seq<nat>, c: nat)
    requires KInv(k, pins) && c !in k.dirs
    ensures SetupVm(k.phys, k.kdir).1.None? <==> k.phys.free == []
    ensures SetupVm(k.phys, k.kdir).1.Some? ==> SetupVm(k.phys, k.kdir).1.value < 0x10_0000
  {
    hide Inv, SetupVm;
    SetupStep(k.phys, k.dirs, pins, k.kdir, c);
  }

  lemma ExoforkShape(k: Kern, cur: nat)
    requires Formed(k) && cur < NENV && k.freeEnvs != [] && k.freeEnvs[0] < NENV
             && NextId(k.envs[k.freeEnvs[0]].id, k.freeEnvs[0]) > 0
    ensures var (k', r) := SysExofork(k, cur);
            var c, (s, p) := k.freeEnvs[0], SetupVm(k.phys, k.kdir);
            var id := NextId(k.envs[c].id, c);
            var env := Tenant(k.envs[c], id, k.envs[cur].id, NotRunnable);
            && r.Ret? && r.code != 0
            && (r.code < 0 <==> p.None? || p.value >= 0x10_0000)
            && (r.code < 0 ==> k' == k && r.code == -E_NO_MEM)
            && (r.code >= 0 ==> p.Some? && p.value < 0x10_0000 && r.code == id
                                && k' == Kern(s, k.dirs[c := p.value], k.envs[c := env], k.freeEnvs[1..], k.kdir))
  {
    hide NextId;
  }

  /** sys_exofork: a new environment that maps nothing and answers to its parent; everybody
      else keeps everything. */
  lemma ExoforkStep(k: Kern, pins: seq<nat>, cur: nat)
    requires KInv(k, pins) && cur in k.dirs && k.freeEnvs != []
    ensures k.freeEnvs[0] < NENV
    ensures var (k', r) := SysExofork(k, cur);
            && r.Ret? && (r.code < 0 ==> k' == k && r.code == -E_NO_MEM) && r.code != 0
            && (r.code < 0 <==> k.phys.free == [])
            && (r.code >= 0 ==>
                && KInv(k', pins) && DataKept(k, k') && Newborn(k, k', cur, k.freeEnvs[0], r.code)
                && (forall e, v :: PteOf(k', e, v) == PteOf(k, e, v))
                && (forall v :: PteOf(k, k.freeEnvs[0], v) == None)
                && k.phys.free != [] && k'.phys.free == k.phys.free[1..] && k'.freeEnvs == k.freeEnvs[1..])
  {
    hide Inv, TablesOpen, EnvTable, SysExofork, SetupVm, NextId, Envid2Env;
    KernFacts(k, pins, cur, 0);
    ExoforkTable(k, cur, 0);
    ExoforkShape(k, cur);
    SetupFails(k, pins, k.freeEnvs[0]);
    var (k', r) := SysExofork(k, cur);
    if r.code >= 0 {
      var c, p := k.freeEnvs[0], SetupVm(k.phys, k.kdir).1.value;
      ExoforkTable(k, cur, p);
      ExoforkMemory(k, pins, c, k'.phys, p);
    }
  }

  /** env_free: the environment's entries go, nobody else's do, and what the others map reads
      as before. */
  lemma FreeEnvStep(k: Kern, pins: seq<nat>, e: nat)
    requires KInv(k, pins) && e in k.dirs
    ensures var k' := FreeEnv(k, e);
            && KInv(k', pins) && k'.dirs == k.dirs - {e}
            && (forall d, v :: PteOf(k', d, v) == if d == e then None else PteOf(k, d, v))
            && OthersRead(k.phys, k'.phys, k.dirs, e)
            && e < |k.envs| && k'.envs == k.envs[e := k.envs[e].(status := Free)] && k'.freeEnvs == [e] + k.freeEnvs
  {
    var k' := FreeEnv(k, e);
    EnvFreeStep(k.phys, k.dirs, pins, k.kdir, e);
    forall d, i | Link(k'.phys, k'.dirs, Table(d, i)).Some?
      ensures Link(k'.phys, k'.dirs, Table(d, i)) == Link(k.phys, k.dirs, Table(d, i)) {}
    assert e !in k.freeEnvs;
  }

  lemma StoreKeepsLinks(s: Phys, dirs: map<nat, Frame>, e: nat, v: nat, i: nat, w: Word, r: Ref)
    requires Owned(s, dirs) && Link(s, dirs, Leaf(e, v)).Some?
    ensures Link(SetCell(s, Link(s, dirs, Leaf(e, v)).value.frame, i, w), dirs, r) == Link(s, dirs, r)
  {
    var q := Link(s, dirs, Leaf(e, v)).value.frame;
    assert forall p, j :: p != q ==> Cell(SetCell(s, q, i, w), p, j) == Cell(s, p, j);
    if r.Table? || r.Leaf? {
      LeafPagesAreData(s, dirs, e, v, Root(r.e));
      LeafPagesAreData(s, dirs, e, v, Table(r.e, if r.Table? then r.i else r.v / 1024));
    }
  }

  /** A user store changes one word of one mapped page: no store can touch a page table, a
      directory, a count or the free list. */
  lemma UserStoreStep(k: Kern, pins: seq<nat>, e: nat, v: nat, i: nat, w: Word)
    requires KInv(k, pins) && e in k.dirs && i < 1024
    ensures var k', pte := UserStore(k, e, v, i, w), PteOf(k, e, v);
            && KInv(k', pins) && SameLinks(k.phys, k'.phys, k.dirs) && k' == k.(phys := k'.phys)
            && (pte.Some? && Writable(pte.value) && User(pte.value) ==>
                && k'.phys == k.phys.(mem := k'.phys.mem) && pte.value.frame < |k.phys.mem|
                && k'.phys.mem == k.phys.mem[pte.value.frame := Contents(k, e, v)[i := w]])
            && (pte.None? || !Writable(pte.value) || !User(pte.value) ==> k' == k)
  {
    var k', pte := UserStore(k, e, v, i, w), PteOf(k, e, v);
    if pte.Some? {
      var q := pte.value.frame;
      assert Target(k.phys, k.dirs, Leaf(e, v)) == Some(q);
      assert Link(k.phys, k.dirs, Table(e, v / 1024)).Some?;
      var s' := SetCell(k.phys, q, i, w);
      forall r
        ensures Link(s', k.dirs, r) == Link(k.phys, k.dirs, r) && Target(s', k.dirs, r) == Target(k.phys, k.dirs, r)
      {
        StoreKeepsLinks(k.phys, k.dirs, e, v, i, w, r);
      }
      Relink(k.phys, s', k.dirs, k.dirs, pins, pins, k.kdir, Leaf(e, v));
    }
  }
}
