/** The kernel stays mapped: over whole runs of the system calls every address space has the
    kernel's half that kern_pgdir had when the first one was set up. */
module KernelMap {
  import opened Mmu
  import opened Errors
  import opened Pmap
  import opened Envs
  import opened EnvVm
  import opened Paging
  import opened Directories
  import opened Syscalls
  import opened Perms
  import opened PermCalls
  import opened Runs

  ghost predicate KernelMapped(k: Kern) { k.kdir < 0x10_0000 && Halves(k.phys, k.dirs, k.kdir) }

  // Memory changed, and no directory above UTOP.
  ghost predicate UppersKept(k: Kern, k': Kern) {
    k'.dirs == k.dirs && k'.kdir == k.kdir && UppersSame(k.phys, k'.phys, k.dirs, k.kdir)
  }

  lemma SameMemory(k: Kern, k': Kern)
    requires k'.phys.mem == k.phys.mem && k'.dirs == k.dirs && k'.kdir == k.kdir
    ensures UppersKept(k, k')
  {
    NothingWritten(k.phys, k'.phys, k.dirs, k.kdir);
  }

  lemma MapKeeps(k: Kern, pins: seq<nat>, src: nat, v: nat, dst: nat, u: nat, perm: bv12)
    requires KInv(k, pins) && dst in k.dirs && u < USER_PAGES && CanShare(k, src, v) && PteOf(k, src, v).Some?
    ensures UppersKept(k, k.(phys := Insert(k.phys, k.dirs[dst], PteOf(k, src, v).value.frame, u, perm).0))
  {
    MappedIsMappable(k, pins, src, v);
    var pp := PteOf(k, src, v).value.frame;
    InUse(k.phys, k.dirs, pins, k.kdir, pp);
    hide Inv, Insertable, Mappable, EnvTable, TablesOpen, Insert, UppersSame;
    InsertKeepsUppers(k.phys, k.dirs, pins, k.kdir, dst, pp, u, perm);
  }

  lemma PageMapKeeps(k: Kern, pins: seq<nat>, cur: nat, srcid: int, srcva: nat, dstid: int, dstva: nat, perm: bv12)
    requires KInv(k, pins) && cur in k.dirs && Formed(k) && cur < NENV && BelowLimit(k.phys)
    ensures UppersKept(k, SysPageMap(k, cur, srcid, srcva, dstid, dstva, perm).0)
  {
    var src, dst := Envid2Env(k.envs, cur, srcid, true), Envid2Env(k.envs, cur, dstid, true);
    KernFacts(k, pins, cur, srcid);
    KernFacts(k, pins, cur, dstid);
    hide KInv, Envid2Env, MapPage, UppersKept, BelowLimit;
    SameMemory(k, k);
    if src.Some? && dst.Some? && GoodVa(srcva) && GoodVa(dstva) {
      MappedKeeps(k, pins, src.value, srcva / PGSIZE, dst.value, dstva / PGSIZE, perm);
    }
  }

  lemma MappedKeeps(k: Kern, pins: seq<nat>, src: nat, v: nat, dst: nat, u: nat, perm: bv12)
    requires KInv(k, pins) && dst in k.dirs && src in k.dirs && u < USER_PAGES && v < USER_PAGES && BelowLimit(k.phys)
    ensures UppersKept(k, MapPage(k, src, v, dst, u, perm).0)
  {
    assert CanShare(k, src, v);
    hide KInv, Insert, UserPresent, UppersKept, BelowLimit;
    SameMemory(k, k);
    if PteOf(k, src, v).Some? { MapKeeps(k, pins, src, v, dst, u, perm); }
  }

  lemma PageAllocKeeps(k: Kern, pins: seq<nat>, cur: nat, id: int, va: nat, perm: bv12)
    requires KInv(k, pins) && cur in k.dirs && Formed(k) && cur < NENV
    ensures UppersKept(k, SysPageAlloc(k, cur, id, va, perm).0)
  {
    KernFacts(k, pins, cur, id);
    var e, k' := Envid2Env(k.envs, cur, id, true), SysPageAlloc(k, cur, id, va, perm).0;
    if e.Some? && GoodVa(va) && UserPresent(perm) && k.phys.free != [] {
      PinnedKern(k, pins);
      FreeFrame(k, pins);
      AllocKeepsUppers(k.phys, k.dirs, pins, k.kdir);
      var s1, pp := AllocPinned(k.phys), k.phys.free[0];
      InUse(s1, k.dirs, Bump(pins, pp, 1), k.kdir, pp);
      hide Inv, Insertable, Mappable, EnvTable, TablesOpen, Insert, AllocPinned, UppersSame, Envid2Env, UserPresent;
      InsertKeepsUppers(s1, k.dirs, Bump(pins, pp, 1), k.kdir, e.value, pp, va / PGSIZE, perm);
      UppersChain(k.phys, s1, k'.phys, k.dirs, k.kdir);
    } else {
      SameMemory(k, k');
    }
  }

  lemma PageUnmapKeeps(k: Kern, pins: seq<nat>, cur: nat, id: int, va: nat)
    requires KInv(k, pins) && cur in k.dirs && Formed(k) && cur < NENV
    ensures UppersKept(k, SysPageUnmap(k, cur, id, va).0)
  {
    PageUnmapStep(k, pins, cur, id, va);
    var e, k' := Envid2Env(k.envs, cur, id, false), SysPageUnmap(k, cur, id, va).0;
    if e.Some? && GoodVa(va) && Target(k.phys, k.dirs, Leaf(e.value, va / PGSIZE)).Some? {
      RemoveKeepsUppers(k.phys, k.dirs, pins, k.kdir, e.value, va / PGSIZE);
    } else {
      if e.Some? && GoodVa(va) { NothingRemoved(k.phys, k.dirs, e.value, va / PGSIZE); }
      SameMemory(k, k');
    }
  }

  lemma SendKeeps(k: Kern, pins: seq<nat>, cur: nat, id: int, value: nat, srcva: nat, perm: bv12)
    requires KInv(k, pins) && cur in k.dirs && Formed(k) && cur < NENV && BelowLimit(k.phys)
    ensures UppersKept(k, SysIpcTrySend(k, cur, id, value, srcva, perm).0)
  {
    var found, k' := Envid2Env(k.envs, cur, id, false), SysIpcTrySend(k, cur, id, value, srcva, perm).0;
    IpcSendStep(k, pins, cur, id, value, srcva, perm);
    if k'.phys != k.phys {
      var e := found.value;
      assert CanShare(k, cur, srcva / PGSIZE);
      hide Inv, EnvTable, TablesOpen, Insert, UppersKept, BelowLimit, CanShare, Put;
      MapKeeps(k, pins, cur, srcva / PGSIZE, e, k.envs[e].dstva / PGSIZE, perm);
      SentMemory(k, cur, id, value, srcva, perm);
      SameUppers(k, k.(phys := k'.phys), k');
    } else {
      hide Inv, Insert, UppersKept, Put;
      KdirKept(k, cur, id, value, srcva, perm);
      SameMemory(k, k');
    }
  }

  lemma SameUppers(k: Kern, k1: Kern, k2: Kern)
    requires UppersKept(k, k1) && k2.phys == k1.phys && k2.dirs == k.dirs && k2.kdir == k.kdir
    ensures UppersKept(k, k2)
  {}

  lemma KdirKept(k: Kern, cur: nat, id: int, value: nat, srcva: nat, perm: bv12)
    requires Formed(k) && cur < NENV
    ensures SysIpcTrySend(k, cur, id, value, srcva, perm).0.kdir == k.kdir
  {
    hide Insert;
  }

  lemma SentMemory(k: Kern, cur: nat, id: int, value: nat, srcva: nat, perm: bv12)
    requires Formed(k) && cur < NENV && SysIpcTrySend(k, cur, id, value, srcva, perm).0.phys != k.phys
    requires Envid2Env(k.envs, cur, id, false).Some? && PteOf(k, cur, srcva / PGSIZE).Some?
    ensures var e := Envid2Env(k.envs, cur, id, false).value;
            && e < NENV && SysIpcTrySend(k, cur, id, value, srcva, perm).0.kdir == k.kdir
            && SysIpcTrySend(k, cur, id, value, srcva, perm).0.phys
               == Insert(k.phys, DirOf(k, e), PteOf(k, cur, srcva / PGSIZE).value.frame, k.envs[e].dstva / PGSIZE,
                 perm).0
  {
    hide Insert;
  }

  lemma ExoforkKeeps(k: Kern, pins: seq<nat>, cur: nat)
    requires KInv(k, pins) && cur in k.dirs && Formed(k) && cur < NENV && k.freeEnvs != [] && k.freeEnvs[0] < NENV
    requires KernelMapped(k)
    ensures KernelMapped(SysExofork(k, cur).0) && SysExofork(k, cur).0.kdir == k.kdir
    ensures UpperSame(k.phys, SysExofork(k, cur).0.phys, k.kdir)
  {
    ExoforkStep(k, pins, cur);
    var c := k.freeEnvs[0];
    NextIdNamesSlot(k.envs[c].id, c);
    ExoforkShape(k, cur);
    KernelIsDir(k.dirs, k.kdir);
    hide EnvTable, TablesOpen, Inv, SysExofork, SetupVm, Halves, DataKept, UpperSame, IsDir;
    if SetupVm(k.phys, k.kdir).1.Some? {
      SetupHalves(k.phys, k.dirs, pins, k.kdir, c);
      SetupHalf(k.phys, k.dirs, pins, k.kdir, c);
    }
    NothingWritten(k.phys, k.phys, k.dirs, k.kdir);
  }

  lemma ExitKeeps(k: Kern, pins: seq<nat>, e: nat)
    requires KInv(k, pins) && e in k.dirs && Formed(k) && e < NENV && KernelMapped(k)
    ensures KernelMapped(FreeEnv(k, e)) && UpperSame(k.phys, FreeEnv(k, e).phys, k.kdir)
  {
    KernelIsDir(k.dirs - {e}, k.kdir);
    FreeKeepsUppers(k.phys, k.dirs, pins, k.kdir, e);
    HalvesKept(k.phys, FreeEnv(k, e).phys, k.dirs, k.dirs - {e}, k.kdir);
  }

  lemma StoreKeeps(k: Kern, pins: seq<nat>, e: nat, v: nat, i: nat, w: Word)
    requires KInv(k, pins) && e in k.dirs && i < 1024
    ensures UppersKept(k, UserStore(k, e, v, i, w))
  {
    UserStoreStep(k, pins, e, v, i, w);
    var k' := UserStore(k, e, v, i, w);
    if k' != k {
      assert Target(k.phys, k.dirs, Leaf(e, v)).Some?;
      StoreKeepsUppers(k.phys, k.dirs, pins, k.kdir, e, v, i, w);
    } else {
      SameMemory(k, k');
    }
  }

  lemma CallKeepsKernel(k: Kern, pins: seq<nat>, c: Call)
    requires KInv(k, pins) && Callable(k, c) && KernelMapped(k)
    ensures KernelMapped(Apply(k, c).0) && Apply(k, c).0.kdir == k.kdir
    ensures UpperSame(k.phys, Apply(k, c).0.phys, k.kdir)
  {
    hide KInv, BelowLimit, SysPageAlloc, SysPageMap, SysPageUnmap, SysIpcTrySend, SysIpcRecv, SysExofork,
      SysEnvSetStatus,
      FreeEnv, UserStore, SysPageAlloc32, SysPageMap32, SysIpcTrySend32, AllocNames, MapNames, UppersKept, KernelMapped;
    Runs.LowBits(k, c);
    var k' := Apply(k, c).0;
    match c
    case PageAlloc(cur, id, va, perm) => PageAllocKeeps(k, pins, cur, id, va, perm.low); KeptMapped(k, k');
    case PageMap(cur, srcid, srcva, dstid, dstva, perm) =>
      PageMapKeeps(k, pins, cur, srcid, srcva, dstid, dstva, perm.low);
      KeptMapped(k, k');
    case PageUnmap(cur, id, va) => PageUnmapKeeps(k, pins, cur, id, va); KeptMapped(k, k');
    case IpcSend(cur, id, value, srcva, perm) =>
      SendKeeps(k, pins, cur, id, value, srcva, perm.low);
      SameMemory(k, k);
      KeptMapped(k, k');
    case IpcRecv(cur, dstva) => EnvsOnly(k, c); SameMemory(k, k'); KeptMapped(k, k');
    case Exofork(cur) => ExoforkKeeps(k, pins, cur);
    case SetStatus(cur, id, status) => EnvsOnly(k, c); SameMemory(k, k'); KeptMapped(k, k');
    case Exit(cur) => ExitKeeps(k, pins, cur); ExitKdir(k, cur);
    case Store(cur, v, i, w) => StoreKeeps(k, pins, cur, v, i, w); KeptMapped(k, k');
  }

  lemma EnvsOnly(k: Kern, c: Call)
    requires Callable(k, c) && (c.IpcRecv? || c.SetStatus?)
    ensures Apply(k, c).0 == k.(envs := Apply(k, c).0.envs)
  {}

  lemma ExitKdir(k: Kern, e: nat)
    requires Formed(k) && e < NENV
    ensures FreeEnv(k, e).kdir == k.kdir
  {}

  lemma KeptMapped(k: Kern, k': Kern)
    requires KernelMapped(k) && UppersKept(k, k')
    ensures KernelMapped(k') && k'.kdir == k.kdir && UpperSame(k.phys, k'.phys, k.kdir)
  {
    HalvesKept(k.phys, k'.phys, k.dirs, k.dirs, k.kdir);
    KernelIsDir(k.dirs, k.kdir);
  }

  lemma {:induction false} RunKeepsKernel(ks: seq<Kern>, cs: seq<Call>, pins: seq<nat>, n: nat)
    requires IsRun(ks, cs) && n <= |cs| && KInv(ks[0], pins) && KernelMapped(ks[0])
    ensures KernelMapped(ks[n]) && ks[n].kdir == ks[0].kdir && UpperSame(ks[0].phys, ks[n].phys, ks[0].kdir)
  {
    hide KInv, Apply, PinsAfter, KernelMapped, Callable;
    if n > 0 {
      RunKeepsKernel(ks, cs, pins, n - 1);
      Runs.RunKeeps(ks, cs, pins, n - 1);
      CallKeepsKernel(ks[n - 1], PinsAt(ks, cs, pins, n - 1), cs[n - 1]);
    }
  }

  /** The kernel is mapped in every address space, old or new, at every point of every run, and as
      it was at the start: lcr3 never takes it away. And each address space sees its own tables at
      UVPT, read-only. */
  lemma KernelStaysMapped(ks: seq<Kern>, cs: seq<Call>, pins: seq<nat>, n: nat, e: nat, i: nat)
    requires IsRun(ks, cs) && n <= |cs| && KInv(ks[0], pins) && KernelMapped(ks[0]) && e in ks[n].dirs
    requires USER_PDES <= i < 1024
    ensures Cell(ks[n].phys, ks[n].dirs[e], i)
            == if i == UVPT_SLOT then Word(ks[n].dirs[e], PTE_P | PTE_U) else Cell(ks[0].phys, ks[0].kdir, i)
  {
    RunKeepsKernel(ks, cs, pins, n);
    assert KernelHalf(ks[n].phys, ks[n].dirs[e], ks[n].kdir);
  }
}
