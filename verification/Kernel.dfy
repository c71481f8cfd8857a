/** kern/env.c and the memory and IPC calls of kern/syscall.c in place: the environment table,
    its free list and the page tables of module PageTables. Each method is tied to the function
    of module Syscalls that says what it does. */
module Kernel {
  import opened Mmu
  import opened Errors
  import opened Pmap
  import opened PageTables
  import opened Perms
  import opened EnvVm
  import PageInit
  import opened Envs
  import Ipc
  import S = Syscalls
  import W = PermCalls

  /** The list of free environments, in which &envs[NENV] and not NULL is the last link. */
  ghost predicate EnvList(links: seq<nat>, head: nat, free: seq<nat>)
    decreases |free|
  {
    if free == [] then head == NENV
    else
      && head == free[0] && free[0] < NENV && free[0] < |links| && free[0] !in free[1..]
      && EnvList(links, links[free[0]], free[1..])
  }

  lemma {:induction false} EnvListElsewhere(links: seq<nat>, head: nat, free: seq<nat>, e: nat, next: nat)
    requires EnvList(links, head, free) && e < |links| && e !in free
    ensures EnvList(links[e := next], head, free)
    decreases |free|
  {
    if free != [] { EnvListElsewhere(links, links[free[0]], free[1..], e, next); }
  }

  lemma PushEnv(links: seq<nat>, head: nat, free: seq<nat>, e: nat)
    requires EnvList(links, head, free) && e < |links| && e < NENV && e !in free
    ensures EnvList(links[e := head], e, [e] + free)
  {
    EnvListElsewhere(links, head, free, e, head);
    assert ([e] + free)[1..] == free;
  }

  // env_pgdir of every environment that has one
  function DirMap(dirs: seq<Option<Frame>>): map<nat, Frame> {
    map e: nat | e < |dirs| && dirs[e].Some? :: dirs[e].value
  }

  lemma DirMapSet(dirs: seq<Option<Frame>>, e: nat, d: Option<Frame>)
    requires e < |dirs|
    ensures DirMap(dirs[e := d]) == if d.Some? then DirMap(dirs)[e := d.value] else DirMap(dirs) - {e}
  {}

  // What a place names is a page with a count.
  lemma LastReference(s: Phys, dirs: map<nat, Frame>, pins: seq<nat>, kdir: nat, r: Ref)
    requires Inv(s, dirs, pins, kdir) && Target(s, dirs, r).Some?
    ensures Target(s, dirs, r).value < |s.refs| && s.refs[Target(s, dirs, r).value] >= 1
            && Target(s, dirs, r).value !in s.free
  {
    HoldersAreTargets(s, dirs, Target(s, dirs, r).value, r);
  }

  lemma TablesInRange(s: Phys, dirs: map<nat, Frame>, pins: seq<nat>, kdir: nat, e: nat, i: nat)
    requires Inv(s, dirs, pins, kdir) && e in dirs && i < USER_PDES
    ensures dirs[e] < |s.mem| && (Present(Cell(s, dirs[e], i)) ==> Cell(s, dirs[e], i).frame < |s.mem|)
  {
    LastReference(s, dirs, pins, kdir, Root(e));
    if Present(Cell(s, dirs[e], i)) { LastReference(s, dirs, pins, kdir, Table(e, i)); }
  }

  lemma DirWalkable(s: Phys, dirs: map<nat, Frame>, pins: seq<nat>, kdir: nat, e: nat, v: nat)
    requires Inv(s, dirs, pins, kdir) && e in dirs && v < USER_PAGES
    ensures Walkable(s, dirs[e], v)
  {
    LastReference(s, dirs, pins, kdir, Root(e));
    TablesInRange(s, dirs, pins, kdir, e, v / 1024);
    if Pt(s, dirs[e], v).Some? { LastReference(s, dirs, pins, kdir, Leaf(e, v)); }
  }

  lemma UserWalkable(k: S.Kern, pins: seq<nat>, e: nat, v: nat)
    requires S.KInv(k, pins) && e in k.dirs && v < USER_PAGES
    ensures Walkable(k.phys, k.dirs[e], v)
  {
    DirWalkable(k.phys, k.dirs, pins, k.kdir, e, v);
  }

  // The zeroed environment records of a fresh kernel.
  function BlankEnv(): Env {
    Env(0, 0, Free, false, 0, 0, 0, 0, 0, 0, seq(MAXIPCWAITING, i => 0))
  }

  // The slots from i on, in order.
  function SlotsFrom(i: nat): seq<nat>
    decreases NENV - i
  {
    if i >= NENV then [] else [i] + SlotsFrom(i + 1)
  }

  lemma {:induction false} SlotsFromContains(i: nat, e: nat)
    requires i <= NENV
    ensures e in SlotsFrom(i) <==> i <= e < NENV
    decreases NENV - i
  {
    if i < NENV { SlotsFromContains(i + 1, e); }
  }

  // The list that env_init builds is in slot order, and its last link is &envs[NENV].
  lemma {:induction false} InitList(links: seq<nat>, i: nat)
    requires |links| == NENV && i <= NENV && forall e :: 0 <= e < NENV ==> links[e] == e + 1
    ensures EnvList(links, i, SlotsFrom(i))
    decreases NENV - i
  {
    if i < NENV {
      SlotsFromContains(i + 1, i);
      InitList(links, i + 1);
      assert SlotsFrom(i)[1..] == SlotsFrom(i + 1);
    }
  }

  lemma AllocatedWalkable(k: S.Kern, pins: seq<nat>, e: nat, v: nat)
    requires S.KInv(k, pins) && k.phys.free != [] && e < NENV && !k.envs[e].status.Free? && v < USER_PAGES
    ensures e in k.dirs && Walkable(AllocPinned(k.phys), k.dirs[e], v)
    ensures k.phys.free[0] < |k.phys.refs| && AllocPinned(k.phys).refs[k.phys.free[0]] == 1
  {
    S.PinnedKern(k, pins);
    UserWalkable(k.(phys := AllocPinned(k.phys)), Bump(pins, k.phys.free[0], 1), e, v);
  }

  // The page v of src, if there is one, may be inserted at page u of dst.
  ghost predicate Shareable(k: S.Kern, src: nat, v: nat, dst: nat, u: nat) {
    && src in k.dirs && dst in k.dirs
    && Walkable(k.phys, k.dirs[src], v) && Walkable(k.phys, k.dirs[dst], u)
    && var pte := Pt(k.phys, k.dirs[src], v);
       pte.Some? ==> pte.value.frame < |k.phys.refs| && pte.value.frame !in k.phys.free
  }

  // The page a receiver asks for, and page 0 when it asks for none.
  function DstPage(t: Env): nat { if t.dstva < UTOP then t.dstva / PGSIZE else 0 }

  lemma Walkables(k: S.Kern, pins: seq<nat>, src: nat, v: nat, dst: nat, u: nat)
    requires S.KInv(k, pins) && v < USER_PAGES && u < USER_PAGES
    requires src < NENV && !k.envs[src].status.Free? && dst < NENV && !k.envs[dst].status.Free?
    ensures Shareable(k, src, v, dst, u)
  {
    UserWalkable(k, pins, src, v);
    UserWalkable(k, pins, dst, u);
    if Pt(k.phys, k.dirs[src], v).Some? {
      assert S.PteOf(k, src, v).Some?;
      S.MappedIsMappable(k, pins, src, v);
    }
  }

  predicate AddsWrite(perm: bv12, pte: Word) { perm & PTE_W != 0 && !Writable(pte) }

  // The second permission test of sys_ipc_try_send follows from the first.
  lemma SubsetWrites(perm: bv12, pte: Word)
    requires S.Subset(perm, pte.flags)
    ensures !AddsWrite(perm, pte)
  {}

  lemma {:induction false} SlotsFromDistinct(i: nat)
    requires i <= NENV
    ensures forall a, b :: 0 <= a < b < |SlotsFrom(i)| ==> SlotsFrom(i)[a] != SlotsFrom(i)[b]
    decreases NENV - i
  {
    if i < NENV {
      SlotsFromDistinct(i + 1);
      SlotsFromContains(i + 1, i);
      var all, rest := SlotsFrom(i), SlotsFrom(i + 1);
      forall a, b | 0 <= a < b < |all| ensures all[a] != all[b] {
        assert all[b] == rest[b - 1] && rest[b - 1] in rest;
        if a > 0 { assert all[a] == rest[a - 1]; }
      }
    }
  }

  /** Where runs start: after booting, with every environment slot free, the invariant holds with
      every reference that boot left counted as a pin. */
  lemma BootKernel(k: S.Kern)
    requires k.dirs == map[] && k.freeEnvs == SlotsFrom(0) && |k.envs| == NENV
    requires forall e :: 0 <= e < NENV ==> k.envs[e] == BlankEnv()
    requires |k.phys.mem| == |k.phys.refs| <= 0x10_0000
             && (forall p :: 0 <= p < |k.phys.refs| ==> k.phys.refs[p] < 0x1_0000)
    requires FreeList(k.phys) && k.kdir < |k.phys.refs| && k.phys.refs[k.kdir] >= 1 && Blank(k.phys, k.kdir, USER_PDES)
    ensures S.KInv(k, k.phys.refs)
  {
    hide SlotsFrom, Inv;
    PageInit.BootInv(k.phys, k.kdir);
    SlotsFromDistinct(0);
    forall e: nat ensures e in k.freeEnvs <==> e < NENV { SlotsFromContains(0, e); }
  }

  class Kernel {
    const pm: Pages
    const kernPgdir: Frame
    const envs: array<Env>
    const envPgdir: array<Option<Frame>>
    const envLink: array<nat>
    var envFreeList: nat
    ghost var freeEnvs: seq<nat>

    ghost predicate Shaped()
      reads this, pm, pm.ppLink, pm.ppRef, pm.mem
    {
      && pm.Valid() && kernPgdir < pm.mem.Length
      && envs.Length == envPgdir.Length == envLink.Length == NENV
      && envLink != pm.ppRef
    }

    ghost predicate Valid()
      reads this, pm, pm.ppLink, pm.ppRef, pm.mem, envs, envPgdir, envLink
    {
      Shaped() && EnvList(envLink[..], envFreeList, freeEnvs)
    }

    ghost function View(): S.Kern
      reads this, pm, pm.ppLink, pm.ppRef, pm.mem, envs, envPgdir
    {
      S.Kern(pm.View(), DirMap(envPgdir[..]), envs[..], freeEnvs, kernPgdir)
    }

    // A kernel on top of the page allocator that booting has set up.
    constructor (pages: Pages, pgdir: Frame)
      requires pages.Valid() && pgdir < pages.mem.Length
      ensures Shaped() && pm == pages && kernPgdir == pgdir && fresh(envs) && fresh(envPgdir) && fresh(envLink)
      ensures (forall e :: 0 <= e < NENV ==> envs[e] == BlankEnv() && envPgdir[e] == None)
    {
      pm, kernPgdir := pages, pgdir;
      envs := new Env[NENV](i => BlankEnv());
      envPgdir := new Option<Frame>[NENV](i => None);
      envLink := new nat[NENV];
      envFreeList := 0;
      freeEnvs := [];
    }

    /** env_init: every slot is free, env_alloc hands out slot 0 first, and the list ends in
        &envs[NENV]: the test for NULL in env_alloc never fires. */
    method EnvInit()
      requires Shaped() && forall e :: 0 <= e < NENV ==> envs[e].status == Free
      modifies this`envFreeList, this`freeEnvs, envs, envLink
      ensures Valid() && freeEnvs == SlotsFrom(0)
      ensures forall e :: 0 <= e < NENV ==> envs[e] == old(envs[e]).(id := 0)
    {
      hide Linked, Unlinked, EnvList;
      for i := 0 to NENV
        invariant forall e :: 0 <= e < i ==> envLink[e] == e + 1 && envs[e] == old(envs[e]).(id := 0)
        invariant forall e :: i <= e < NENV ==> envs[e] == old(envs[e])
        invariant Shaped()
      {
        envs[i] := envs[i].(id := 0);
        envLink[i] := i + 1;
      }
      envFreeList := 0;
      freeEnvs := SlotsFrom(0);
      InitList(envLink[..], 0);
    }

    method EnvSetupVm(e: nat) returns (ok: bool)
      requires Valid() && e < NENV
      modifies pm, pm.ppLink, pm.ppRef, pm.mem, envPgdir
      ensures Valid() && ok == SetupVm(old(pm.View()), kernPgdir).1.Some?
              && pm.View() == SetupVm(old(pm.View()), kernPgdir).0
      ensures envPgdir[..] == if ok then old(envPgdir[..])[e := SetupVm(old(pm.View()), kernPgdir).1]
                else old(envPgdir[..])
    {
      hide Linked, Unlinked, EnvList;
      var p := pm.PageAlloc(true);
      if p == None { return false; }
      envPgdir[e] := Some(p.value);
      pm.AddRef(p.value);
      pm.mem[p.value] := pm.mem[kernPgdir];
      pm.SetPte(PtePtr(p.value, UVPT_SLOT), Word(p.value, PTE_P | PTE_U));
      return true;
    }

    method EnvAlloc(parent: int) returns (r: int)
      requires Valid() && freeEnvs != []
      modifies this`envFreeList, this`freeEnvs, pm, pm.ppLink, pm.ppRef, pm.mem, envs, envPgdir
      ensures Valid() && (View(), S.Ret(r)) == S.EnvAlloc(old(View()), parent)
    {
      hide Linked, Unlinked;
      var e := envFreeList;
      DirMapSet(envPgdir[..], e, SetupVm(pm.View(), kernPgdir).1);
      var ok := EnvSetupVm(e);
      if !ok { return -E_NO_MEM; }
      var id := NextId(envs[e].id, e);
      envs[e] := envs[e].(id := id, parent := parent, status := Runnable, recving := false);
      envFreeList := envLink[e];
      freeEnvs := freeEnvs[1..];
      return id;
    }

    method SysExofork(cur: nat) returns (r: int)
      requires Valid() && freeEnvs != [] && cur < NENV
      modifies this`envFreeList, this`freeEnvs, pm, pm.ppLink, pm.ppRef, pm.mem, envs, envPgdir
      ensures Valid() && (View(), S.Ret(r)) == S.SysExofork(old(View()), cur)
    {
      hide Linked, Unlinked, SetupVm;
      var e := envFreeList;
      r := EnvAlloc(envs[cur].id);
      if r < 0 { return; }
      envs[e] := envs[e].(status := NotRunnable);
    }

    method Envid2Env(cur: nat, id: int, checkperm: bool) returns (e: Option<nat>)
      requires Valid() && cur < NENV
      ensures e == Envs.Envid2Env(envs[..], cur, id, checkperm)
      ensures e.Some? ==> e.value < NENV
    {
      if id == 0 { return Some(cur); }
      var slot := EnvX(id);
      if envs[slot].status == Free || envs[slot].id != id { return None; }
      if checkperm && slot != cur && envs[slot].parent != envs[cur].id { return None; }
      return Some(slot);
    }

    // page_lookup in the address space of e: the page and the entry that maps it
    method Lookup(e: nat, v: nat) returns (pte: Option<Word>)
      requires Valid() && e < NENV && envPgdir[e].Some? && Walkable(pm.View(), envPgdir[e].value, v)
      modifies pm, pm.ppLink, pm.ppRef, pm.mem
      ensures Valid() && View() == old(View()) && pte == Pt(pm.View(), envPgdir[e].value, v)
    {
      hide Linked, Unlinked, EnvList, Walkable, EnvList;
      var pp, ppte := pm.PageLookup(envPgdir[e].value, v);
      pte := if pp == None then None else Some(pm.mem[ppte.value.frame][ppte.value.index]);
    }

    // page_insert in the address space of e
    method InsertAt(e: nat, pp: Frame, v: nat, perm: Perm) returns (ok: bool)
      requires Valid() && e < NENV && envPgdir[e].Some? && Walkable(pm.View(), envPgdir[e].value, v)
      requires pp < |View().phys.refs| && pp !in View().phys.free
      modifies pm, pm.ppLink, pm.ppRef, pm.mem
      ensures Valid()
              && View() == old(View()).(phys := InsertWord(old(pm.View()), envPgdir[e].value, pp, v,
                   EntryOf(pp, perm)).0)
      ensures ok == InsertWord(old(pm.View()), envPgdir[e].value, pp, v, EntryOf(pp, perm)).1
    {
      hide Linked, Unlinked, EnvList, Walkable, InsertWord, EntryOf;
      ok := pm.PageInsert(envPgdir[e].value, pp, v, perm);
    }

    // page_alloc(1) and pp_ref++
    method NewPage() returns (pp: Option<Frame>)
      requires Valid()
      modifies pm, pm.ppLink, pm.ppRef, pm.mem
      ensures Valid() && pp.None? == (old(pm.View()).free == [])
      ensures View() == if pp.None? then old(View()) else old(View()).(phys := AllocPinned(old(pm.View())))
      ensures pp.Some? ==> pp.value == old(pm.View()).free[0] && pp.value !in View().phys.free
    {
      hide Linked, Unlinked, EnvList;
      var p := pm.PageAlloc(true);
      if p == None { return None; }
      pm.AddRef(p.value);
      return Some(p.value);
    }

    method SysPageAlloc(cur: nat, id: int, va: nat, perm: Perm, ghost pins: seq<nat>) returns (r: S.Outcome)
      requires Valid() && S.KInv(View(), pins) && cur in View().dirs
      modifies pm, pm.ppLink, pm.ppRef, pm.mem
      ensures Valid() && (View(), r) == W.SysPageAlloc32(old(View()), cur, id, va, perm)
      ensures perm.high == 0 ==> (View(), r) == S.SysPageAlloc(old(View()), cur, id, va, perm.low)
    {
      if perm.high == 0 { W.SmallPerm(View(), perm); }
      r := PageAllocAt(cur, id, va, perm, pins);
    }

    // the body of sys_page_alloc
    method PageAllocAt(cur: nat, id: int, va: nat, perm: Perm, ghost pins: seq<nat>) returns (r: S.Outcome)
      requires Valid() && S.KInv(View(), pins) && cur in View().dirs
      modifies pm, pm.ppLink, pm.ppRef, pm.mem
      ensures Valid() && (View(), r) == W.SysPageAlloc32(old(View()), cur, id, va, perm)
    {
      var e := Envid2Env(cur, id, true);
      if e == None { return S.Ret(-E_BAD_ENV); }
      if !S.GoodVa(va) || !S.UserPresent(perm.low) { return S.Ret(-E_INVAL); }
      hide Linked, Unlinked, EnvList, S.KInv, Walkable, InsertWord, EntryOf, AllocPinned;
      ghost var k := View();
      var pp := NewPage();
      if pp == None { return S.Ret(E_NO_MEM); }
      AllocatedWalkable(k, pins, e.value, va / PGSIZE);
      var ok := InsertAt(e.value, pp.value, va / PGSIZE, perm);
      if !ok { return S.Panic; }
      return S.Ret(0);
    }

    method SysPageMap(cur: nat, srcid: int, srcva: nat, dstid: int, dstva: nat, perm: Perm, ghost pins: seq<nat>)
        returns (r: S.Outcome)
      requires Valid() && S.KInv(View(), pins) && cur in View().dirs
      modifies pm, pm.ppLink, pm.ppRef, pm.mem
      ensures Valid() && (View(), r) == W.SysPageMap32(old(View()), cur, srcid, srcva, dstid, dstva, perm)
      ensures perm.high == 0 ==> (View(), r) == S.SysPageMap(old(View()), cur, srcid, srcva, dstid, dstva, perm.low)
    {
      if perm.high == 0 { W.SmallPerm(View(), perm); }
      r := PageMapAt(cur, srcid, srcva, dstid, dstva, perm, pins);
    }

    // the body of sys_page_map
    method PageMapAt(cur: nat, srcid: int, srcva: nat, dstid: int, dstva: nat, perm: Perm, ghost pins: seq<nat>)
        returns (r: S.Outcome)
      requires Valid() && S.KInv(View(), pins) && cur in View().dirs
      modifies pm, pm.ppLink, pm.ppRef, pm.mem
      ensures Valid() && (View(), r) == W.SysPageMap32(old(View()), cur, srcid, srcva, dstid, dstva, perm)
    {
      var src := Envid2Env(cur, srcid, true);
      if src == None { return S.Ret(-E_BAD_ENV); }
      var dst := Envid2Env(cur, dstid, true);
      if dst == None { return S.Ret(-E_BAD_ENV); }
      if !S.GoodVa(srcva) || !S.GoodVa(dstva) { return S.Ret(-E_INVAL); }
      Walkables(View(), pins, src.value, srcva / PGSIZE, dst.value, dstva / PGSIZE);
      hide Linked, Unlinked, EnvList, S.KInv, Shareable, W.MapPage32;
      r := MapPage(src.value, srcva / PGSIZE, dst.value, dstva / PGSIZE, perm);
    }

    // sys_page_map once its addresses are accepted
    method MapPage(src: nat, v: nat, dst: nat, u: nat, perm: Perm) returns (r: S.Outcome)
      requires Valid() && src < NENV && dst < NENV && Shareable(View(), src, v, dst, u)
      modifies pm, pm.ppLink, pm.ppRef, pm.mem
      ensures Valid() && (View(), r) == W.MapPage32(old(View()), src, v, dst, u, perm)
    {
      hide Linked, Unlinked, EnvList, Walkable, InsertWord, EntryOf, Pt;
      var pte := Lookup(src, v);
      if pte == None { return S.Ret(-E_INVAL); }
      if !S.UserPresent(perm.low) { return S.Ret(-E_INVAL); }
      if AddsWrite(perm.low, pte.value) { return S.Ret(-E_INVAL); }
      var ok := InsertAt(dst, pte.value.frame, u, perm);
      return S.Ret(if ok then 0 else -E_NO_MEM);
    }

    method SysPageUnmap(cur: nat, id: int, va: nat, ghost pins: seq<nat>) returns (r: S.Outcome)
      requires Valid() && S.KInv(View(), pins) && cur in View().dirs
      modifies pm, pm.ppLink, pm.ppRef, pm.mem
      ensures Valid() && (View(), r) == S.SysPageUnmap(old(View()), cur, id, va)
    {
      var e := Envid2Env(cur, id, false);
      if e == None { return S.Ret(-E_BAD_ENV); }
      if !S.GoodVa(va) { return S.Ret(-E_INVAL); }
      UserWalkable(View(), pins, e.value, va / PGSIZE);
      hide Linked, Unlinked, EnvList, S.KInv, Walkable;
      pm.PageRemove(envPgdir[e.value].value, va / PGSIZE);
      return S.Ret(0);
    }

    method SysIpcTrySend(cur: nat, id: int, value: nat, srcva: nat, perm: Perm, ghost pins: seq<nat>)
        returns (r: S.Outcome)
      requires Valid() && S.KInv(View(), pins) && cur in View().dirs
      modifies pm, pm.ppLink, pm.ppRef, pm.mem, envs
      ensures Valid() && (View(), r) == W.SysIpcTrySend32(old(View()), cur, id, value, srcva, perm)
    {
      var found := Envid2Env(cur, id, false);
      if found == None { return S.Ret(-E_BAD_ENV); }
      var e := found.value;
      hide Linked, Unlinked, EnvList, W.Send32, Ipc.Enqueue;
      if !envs[e].recving {
        if !Ipc.RingFull(envs[e]) {
          envs[cur] := envs[cur].(status := NotRunnable);
          envs[e] := Ipc.Enqueue(envs[e], envs[cur].id);
        }
        return S.Ret(-E_IPC_NOT_RECV);
      }
      r := Send(cur, e, value, srcva, perm, pins);
    }

    // the page half of sys_ipc_try_send
    method TransferPage(cur: nat, e: nat, srcva: nat, perm: Perm) returns (t: S.Transfer)
      requires Valid() && cur < NENV && e < NENV
      requires srcva < UTOP ==> Shareable(View(), cur, srcva / PGSIZE, e, DstPage(envs[e]))
      modifies pm, pm.ppLink, pm.ppRef, pm.mem
      ensures Valid() && View() == old(View()).(phys := W.TransferPage32(old(View()), cur, e, srcva, perm).0)
      ensures t == W.TransferPage32(old(View()), cur, e, srcva, perm).1
    {
      hide Linked, Unlinked, EnvList;
      if srcva >= UTOP { return S.Accept(Some(0)); }
      if srcva % PGSIZE != 0 { return S.Refuse(-E_INVAL); }
      hide Walkable, InsertWord, EntryOf, Covers, Pt, S.Subset, AddsWrite, DirMap;
      var pte := Lookup(cur, srcva / PGSIZE);
      if pte == None { return S.Refuse(-E_INVAL); }
      if !Covers(pte.value.frame, perm.high) || !S.Subset(perm.low, pte.value.flags) { return S.Refuse(-E_INVAL); }
      SubsetWrites(perm.low, pte.value);
      if AddsWrite(perm.low, pte.value) { return S.Refuse(-E_INVAL); }
      if envs[e].dstva >= UTOP { return S.Accept(None); }
      var ok := InsertAt(e, pte.value.frame, envs[e].dstva / PGSIZE, perm);
      return if ok then S.Accept(Some(perm.low)) else S.Refuse(-E_NO_MEM);
    }

    // sys_ipc_try_send to a receiving environment
    method Send(cur: nat, e: nat, value: nat, srcva: nat, perm: Perm, ghost pins: seq<nat>) returns (r: S.Outcome)
      requires Valid() && S.KInv(View(), pins) && cur in View().dirs && e in View().dirs
      modifies pm, pm.ppLink, pm.ppRef, pm.mem, envs
      ensures Valid() && (View(), r) == W.Send32(old(View()), cur, e, value, srcva, perm)
    {
      hide Linked, Unlinked, EnvList, W.TransferPage32, DirMap;
      assert e < NENV && cur < NENV;
      if srcva < UTOP { Walkables(View(), pins, cur, srcva / PGSIZE, e, DstPage(envs[e])); }
      hide S.KInv, Shareable;
      var t := TransferPage(cur, e, srcva, perm);
      if t.Refuse? { return S.Ret(t.code); }
      if t.page.Some? { envs[e] := envs[e].(perm := t.page.value); }
      envs[e] := envs[e].(recving := false, from := envs[cur].id, value := value, status := Runnable);
      assert envs[..] == Ipc.Deliver(old(envs[..]), cur, e, value, t.page);
      return S.Ret(0);
    }

    method SysIpcRecv(cur: nat, dstva: nat) returns (r: S.Outcome)
      requires Valid() && cur < NENV
      modifies envs
      ensures Valid() && (View(), r) == S.SysIpcRecv(old(View()), cur, dstva)
    {
      hide Linked, Unlinked, EnvList, DirMap;
      if dstva < UTOP && dstva % PGSIZE != 0 { return S.Ret(-E_INVAL); }
      envs[cur] := envs[cur].(recving := true, dstva := dstva, status := NotRunnable);
      if envs[cur].head != envs[cur].tail {
        var id := if envs[cur].head < |envs[cur].waiting| then envs[cur].waiting[envs[cur].head] else 0;
        envs[cur] := envs[cur].(head := (envs[cur].head + 1) % MAXIPCWAITING);
        assert envs[..] == old(envs[..])[cur := envs[cur]];
        var e := Envid2Env(cur, id, false);
        if e == None { return S.Ret(-E_BAD_ENV); }
        envs[e.value] := envs[e.value].(status := Runnable);
      }
      return S.Ret(0);
    }

    /** env_free. The directory slots are emptied one by one, and in each the page table's
        entries one by one. */
    method EnvFree(e: nat, ghost pins: seq<nat>)
      requires Valid() && S.KInv(View(), pins) && e in View().dirs
      modifies this`envFreeList, this`freeEnvs, pm, pm.ppLink, pm.ppRef, pm.mem, envs, envPgdir, envLink
      ensures Valid() && View() == S.FreeEnv(old(View()), e)
    {
      assert e !in freeEnvs && Inv(pm.View(), View().dirs, pins, kernPgdir);
      hide S.KInv, Linked, Unlinked, Inv, FreeTables;
      FreeDirectory(e, View().dirs, pins);
      hide DirMap;
      envs[e] := envs[e].(status := Free);
      PushEnv(envLink[..], envFreeList, freeEnvs, e);
      envLink[e] := envFreeList;
      envFreeList := e;
      freeEnvs := [e] + freeEnvs;
    }

    // env_free up to the environment record
    method FreeDirectory(e: nat, ghost dirs: map<nat, Frame>, ghost pins: seq<nat>)
      requires Valid() && dirs == DirMap(envPgdir[..]) && Inv(pm.View(), dirs, pins, kernPgdir) && e in dirs
      modifies pm, pm.ppLink, pm.ppRef, pm.mem, envPgdir
      ensures Valid() && pm.View() == EnvVm.EnvFree(old(pm.View()), dirs[e]) && DirMap(envPgdir[..]) == dirs - {e}
    {
      hide Linked, Unlinked, EnvList, FreeTables;
      var dir := envPgdir[e].value;
      DirMapSet(envPgdir[..], e, None);
      assert Valid() && Target(pm.View(), dirs, Root(e)) == Some(dir);
      hide DirMap;
      FlushPages(e, dir, dirs, pins);
      envPgdir[e] := None;
      LastReference(pm.View(), dirs, pins, kernPgdir, Root(e));
      var panic := pm.PageDecref(dir);
    }

    // the loop over the user part of the directory
    method FlushPages(e: nat, dir: Frame, ghost dirs: map<nat, Frame>, ghost pins: seq<nat>)
      requires Valid() && Inv(pm.View(), dirs, pins, kernPgdir) && e in dirs && dirs[e] == dir
      modifies pm, pm.ppLink, pm.ppRef, pm.mem
      ensures Valid() && Inv(pm.View(), dirs, pins, kernPgdir) && pm.View() == FreeTables(old(pm.View()), dir, 0)
    {
      hide Linked, Unlinked, Inv, EnvList;
      for pdeno := 0 to USER_PDES
        invariant Valid() && Inv(pm.View(), dirs, pins, kernPgdir)
        invariant FreeTables(pm.View(), dir, pdeno) == FreeTables(old(pm.View()), dir, 0)
      {
        TablesInRange(pm.View(), dirs, pins, kernPgdir, e, pdeno);
        if Present(pm.mem[dir][pdeno]) {
          FlushTable(e, dir, pdeno, dirs, pins);
        }
      }
    }

    // one page table: unmap its pages, then free the table itself
    method FlushTable(e: nat, dir: Frame, pdeno: nat, ghost dirs: map<nat, Frame>, ghost pins: seq<nat>)
      requires Valid() && Inv(pm.View(), dirs, pins, kernPgdir) && e in dirs && dirs[e] == dir && pdeno < USER_PDES
      requires Present(Cell(pm.View(), dir, pdeno))
      modifies pm, pm.ppLink, pm.ppRef, pm.mem
      ensures Valid() && Inv(pm.View(), dirs, pins, kernPgdir) && pm.View() == FreeTable(old(pm.View()), dir, pdeno)
    {
      FreeTableStep(pm.View(), dirs, pins, kernPgdir, e, pdeno);
      TablesInRange(pm.View(), dirs, pins, kernPgdir, e, pdeno);
      var pt := pm.mem[dir][pdeno].frame;
      assert pt == Cell(pm.View(), dir, pdeno).frame;
      hide Linked, Unlinked, Inv, EnvList, FreeLeaves, Cell, SetCell, Decref, Emptied, OthersRead;
      FlushLeaves(e, dir, pdeno, pt, dirs, pins);
      DropTable(e, dir, pdeno, pt, dirs, pins);
    }

    // e->env_pgdir[pdeno] = 0; page_decref(pa2page(pa))
    method DropTable(e: nat, dir: Frame, pdeno: nat, pt: Frame, ghost dirs: map<nat, Frame>, ghost pins: seq<nat>)
      requires Valid() && Inv(pm.View(), dirs, pins, kernPgdir) && e in dirs && dirs[e] == dir && pdeno < USER_PDES
      requires Present(Cell(pm.View(), dir, pdeno)) && Cell(pm.View(), dir, pdeno).frame == pt
      modifies pm, pm.ppLink, pm.ppRef, pm.mem
      ensures Valid() && pm.View() == Decref(SetCell(old(pm.View()), dir, pdeno, ZERO), pt)
    {
      LastReference(pm.View(), dirs, pins, kernPgdir, Table(e, pdeno));
      TablesInRange(pm.View(), dirs, pins, kernPgdir, e, pdeno);
      hide Linked, Unlinked, Inv, EnvList, Decref;
      pm.SetPte(PtePtr(dir, pdeno), ZERO);
      var panic := pm.PageDecref(pt);
    }

    // the loop over the entries of one page table
    method FlushLeaves(e: nat, dir: Frame, pdeno: nat, pt: Frame, ghost dirs: map<nat, Frame>, ghost pins: seq<nat>)
      requires Valid() && Inv(pm.View(), dirs, pins, kernPgdir) && e in dirs && dirs[e] == dir && pdeno < USER_PDES
      requires Present(Cell(pm.View(), dir, pdeno)) && Cell(pm.View(), dir, pdeno).frame == pt
      modifies pm, pm.ppLink, pm.ppRef, pm.mem
      ensures Valid() && Inv(pm.View(), dirs, pins, kernPgdir)
              && Cell(pm.View(), dir, pdeno) == old(Cell(pm.View(), dir, pdeno))
      ensures pm.View() == FreeLeaves(old(pm.View()), dir, pt, pdeno, 0)
    {
      hide Valid, Inv, Cell, Remove, Pages.View, Pages.Valid;
      for pteno := 0 to 1024
        invariant Valid() && Inv(pm.View(), dirs, pins, kernPgdir)
                  && Cell(pm.View(), dir, pdeno) == old(Cell(pm.View(), dir, pdeno))
        invariant FreeLeaves(pm.View(), dir, pt, pdeno, pteno) == FreeLeaves(old(pm.View()), dir, pt, pdeno, 0)
      {
        FlushLeaf(e, dir, pdeno, pt, pteno, dirs, pins);
      }
    }

    // if (pt[pteno] & PTE_P) page_remove(...)
    method FlushLeaf(e: nat, dir: Frame, pdeno: nat, pt: Frame, pteno: nat,
                     ghost dirs: map<nat, Frame>, ghost pins: seq<nat>)
      requires Valid() && Inv(pm.View(), dirs, pins, kernPgdir) && e in dirs && dirs[e] == dir && pdeno < USER_PDES
               && pteno < 1024
      requires Present(Cell(pm.View(), dir, pdeno)) && Cell(pm.View(), dir, pdeno).frame == pt
      modifies pm, pm.ppLink, pm.ppRef, pm.mem
      ensures Valid() && Inv(pm.View(), dirs, pins, kernPgdir)
              && Cell(pm.View(), dir, pdeno) == old(Cell(pm.View(), dir, pdeno))
      ensures pm.View() == if Present(old(Cell(pm.View(), pt, pteno)))
                then Remove(old(pm.View()), dir, 1024 * pdeno + pteno) else old(pm.View())
    {
      TablesInRange(pm.View(), dirs, pins, kernPgdir, e, pdeno);
      OneLeafStep(pm.View(), dirs, pins, kernPgdir, e, pdeno, pteno);
      DirWalkable(pm.View(), dirs, pins, kernPgdir, e, 1024 * pdeno + pteno);
      assert pm.mem[pt][pteno] == Cell(pm.View(), pt, pteno);
      hide Linked, Unlinked, Inv, EnvList, Cell, Remove, Walkable, Emptied, OthersRead;
      if Present(pm.mem[pt][pteno]) { pm.PageRemove(dir, 1024 * pdeno + pteno); }
    }

    /** A store by environment e, as the processor carries it out: both levels of the tables must
        be present, writable and user. */
    method UserStore(e: nat, v: nat, i: nat, w: Word, ghost pins: seq<nat>)
      requires Valid() && S.KInv(View(), pins) && e in View().dirs && i < 1024
      modifies pm.mem
      ensures Valid() && View() == S.UserStore(old(View()), e, v, i, w)
    {
      if v >= USER_PAGES { return; }
      UserWalkable(View(), pins, e, v);
      hide S.KInv, Linked, Unlinked, EnvList;
      var pdx, ptx := v / 1024, v % 1024;
      var pde := pm.mem[envPgdir[e].value][pdx];
      if !Present(pde) || !Writable(pde) || !User(pde) { return; }
      var pte := pm.mem[pde.frame][ptx];
      if !Present(pte) || !Writable(pte) || !User(pte) { return; }
      pm.SetPte(PtePtr(pte.frame, i), w);
    }

    /** What e reads in the read-only view of its page tables at UVPT: the entry of page v. */
    method Uvpt(e: nat, v: nat, ghost pins: seq<nat>) returns (pte: Option<Word>)
      requires Valid() && S.KInv(View(), pins) && e in View().dirs
      ensures pte == S.PteOf(View(), e, v)
    {
      if v >= USER_PAGES { return None; }
      UserWalkable(View(), pins, e, v);
      hide S.KInv, Linked, Unlinked, EnvList;
      var pdx, ptx := v / 1024, v % 1024;
      var pde := pm.mem[envPgdir[e].value][pdx];
      if !Present(pde) { return None; }
      var word := pm.mem[pde.frame][ptx];
      return if Present(word) then Some(word) else None;
    }

    // A load by environment e from a page it maps.
    method UserLoad(e: nat, v: nat, i: nat, ghost pins: seq<nat>) returns (w: Word)
      requires Valid() && S.KInv(View(), pins) && e in View().dirs && i < 1024 && S.PteOf(View(), e, v).Some?
      ensures w == S.Contents(View(), e, v)[i]
    {
      UserWalkable(View(), pins, e, v);
      var pte := Uvpt(e, v, pins);
      hide S.KInv, Linked, Unlinked, EnvList;
      w := pm.mem[pte.value.frame][i];
    }

    method SysEnvSetStatus(cur: nat, id: int, status: Status) returns (r: S.Outcome)
      requires Valid() && cur < NENV
      modifies envs
      ensures Valid() && (View(), r) == S.SysEnvSetStatus(old(View()), cur, id, status)
      ensures forall d :: 0 <= d < NENV ==> envs[d] == old(envs[d]).(status := envs[d].status)
      ensures forall d :: 0 <= d < NENV && envs[d].status != old(envs[d].status) ==>
                r == S.Ret(0) && envs[d].status == status && (d == cur || old(envs[d].parent == envs[cur].id))
    {
      hide Linked, Unlinked, EnvList, DirMap;
      if status != Runnable && status != NotRunnable { return S.Ret(-E_INVAL); }
      var e := Envid2Env(cur, id, true);
      if e == None { return S.Ret(-E_BAD_ENV); }
      envs[e.value] := envs[e.value].(status := status);
      return S.Ret(0);
    }
  }
}
