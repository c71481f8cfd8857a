/** Whole runs of the system calls on memory: conservation of references and of write access. */
module Runs {
  import opened Mmu
  import opened Errors
  import opened Pmap
  import opened Envs
  import opened EnvVm
  import opened Syscalls
  import opened Perms
  import opened PermCalls

  datatype Call =
    | PageAlloc(cur: nat, id: int, va: nat, perm: Perm)
    | PageMap(cur: nat, srcid: int, srcva: nat, dstid: int, dstva: nat, perm: Perm)
    | PageUnmap(cur: nat, id: int, va: nat)
    | IpcSend(cur: nat, id: int, value: nat, srcva: nat, perm: Perm)
    | IpcRecv(cur: nat, dstva: nat)
    | Exofork(cur: nat)
    | SetStatus(cur: nat, id: int, status: Status)
    | Exit(cur: nat)
    | Store(cur: nat, v: nat, i: nat, w: Word)

  /** The caller is alive, no count is about to wrap at 2^16, the list of environments is not
      exhausted, and (which the code does not check) the upper 20 bits of a perm that
      sys_page_alloc or sys_page_map stores lie within those of the page: see PermCalls.AllocExact
      and PermCalls.MapExact. */
  predicate Callable(k: Kern, c: Call) {
    && Formed(k) && c.cur < NENV && c.cur in k.dirs && BelowLimit(k.phys)
    && (c.PageAlloc? ==> AllocNames(k, c.cur, c.id, c.va, c.perm))
    && (c.PageMap? ==> MapNames(k, c.cur, c.srcid, c.srcva, c.dstid, c.dstva, c.perm))
    && (c.Exofork? ==> k.freeEnvs != [] && k.freeEnvs[0] < NENV)
    && (c.Store? ==> c.i < 1024)
  }

  function Apply(k: Kern, c: Call): (Kern, Outcome)
    requires Callable(k, c)
  {
    match c
    case PageAlloc(cur, id, va, perm) => SysPageAlloc32(k, cur, id, va, perm)
    case PageMap(cur, srcid, srcva, dstid, dstva, perm) => SysPageMap32(k, cur, srcid, srcva, dstid, dstva, perm)
    case PageUnmap(cur, id, va) => SysPageUnmap(k, cur, id, va)
    case IpcSend(cur, id, value, srcva, perm) => SysIpcTrySend32(k, cur, id, value, srcva, perm)
    case IpcRecv(cur, dstva) => SysIpcRecv(k, cur, dstva)
    case Exofork(cur) => SysExofork(k, cur)
    case SetStatus(cur, id, status) => SysEnvSetStatus(k, cur, id, status)
    case Exit(cur) => (FreeEnv(k, cur), Ret(0))
    case Store(cur, v, i, w) => (UserStore(k, cur, v, i, w), Ret(0))
  }

  // With such a perm a call is what its low bits say, or a send that is refused.
  lemma LowBits(k: Kern, c: Call)
    requires Callable(k, c)
    ensures c.PageAlloc? ==> Apply(k, c) == SysPageAlloc(k, c.cur, c.id, c.va, c.perm.low)
    ensures c.PageMap? ==> Apply(k, c) == SysPageMap(k, c.cur, c.srcid, c.srcva, c.dstid, c.dstva, c.perm.low)
    ensures c.IpcSend? ==>
              Apply(k, c) == SysIpcTrySend(k, c.cur, c.id, c.value, c.srcva, c.perm.low)
                || Apply(k, c) == (k, Ret(-E_INVAL))
  {
    hide SysPageAlloc, SysPageMap, SysIpcTrySend, SysPageAlloc32, SysPageMap32, SysIpcTrySend32, AllocNames, MapNames;
    match c
    case PageAlloc(cur, id, va, perm) => AllocLow(k, cur, id, va, perm);
    case PageMap(cur, srcid, srcva, dstid, dstva, perm) => MapLow(k, cur, srcid, srcva, dstid, dstva, perm);
    case IpcSend(cur, id, value, srcva, perm) => SendLow(k, cur, id, value, srcva, perm);
    case _ =>
  }

  // Only a successful sys_page_alloc leaves a reference behind.
  function PinsAfter(k: Kern, pins: seq<nat>, c: Call): seq<nat>
    requires Callable(k, c)
  {
    if c.PageAlloc? && Apply(k, c).1 == Ret(0) && k.phys.free != [] && k.phys.free[0] < |pins| then
      Bump(pins, k.phys.free[0], 1)
    else pins
  }

  lemma CallKeeps(k: Kern, pins: seq<nat>, c: Call)
    requires KInv(k, pins) && Callable(k, c) && !Apply(k, c).1.Panic?
    ensures KInv(Apply(k, c).0, PinsAfter(k, pins, c))
  {
    hide Inv, EnvTable, TablesOpen, Put, DataKept, SysPageAlloc, SysPageMap, SysPageUnmap, SysIpcTrySend, SysIpcRecv,
      SysExofork, SysEnvSetStatus, FreeEnv, UserStore,
         SysPageAlloc32, SysPageMap32, SysIpcTrySend32, AllocNames, MapNames;
    LowBits(k, c);
    match c
    case PageAlloc(cur, id, va, perm) => PageAllocStep(k, pins, cur, id, va, perm.low);
    case PageMap(cur, srcid, srcva, dstid, dstva, perm) =>
      PageMapStep(k, pins, cur, srcid, srcva, dstid, dstva, perm.low);
    case PageUnmap(cur, id, va) => PageUnmapStep(k, pins, cur, id, va);
    case IpcSend(cur, id, value, srcva, perm) => IpcSendStep(k, pins, cur, id, value, srcva, perm.low);
    case IpcRecv(cur, dstva) => IpcRecvStep(k, pins, cur, dstva);
    case Exofork(cur) => ExoforkStep(k, pins, cur);
    case SetStatus(cur, id, status) => SetStatusStep(k, pins, cur, id, status);
    case Exit(cur) => FreeEnvStep(k, pins, cur);
    case Store(cur, v, i, w) => UserStoreStep(k, pins, cur, v, i, w);
  }

  // Whom a call is about, and where.
  function About(k: Kern, c: Call): Option<(nat, nat)>
    requires Callable(k, c)
  {
    match c
    case PageAlloc(cur, id, va, _) => At(Envid2Env(k.envs, cur, id, true), va)
    case PageMap(cur, _, _, id, va, _) => At(Envid2Env(k.envs, cur, id, true), va)
    case PageUnmap(cur, id, va) => At(Envid2Env(k.envs, cur, id, false), va)
    case IpcSend(cur, id, _, _, _) => At(Envid2Env(k.envs, cur, id, false), 0)
    case SetStatus(cur, id, _) => At(Envid2Env(k.envs, cur, id, true), 0)
    case Store(cur, v, _, _) => Some((cur, v))
    case _ => Some((c.cur, 0))
  }

  function At(e: Option<nat>, va: nat): Option<(nat, nat)> { if e.Some? then Some((e.value, va / PGSIZE)) else None }

  /** Every call that succeeds leaves what it is for. */
  lemma CallTakesEffect(k: Kern, pins: seq<nat>, c: Call)
    requires KInv(k, pins) && Callable(k, c) && Apply(k, c).1.Ret? && Apply(k, c).1.code >= 0
    requires (c.PageAlloc? ==> Apply(k, c).1 == Ret(0)) && Formed(Apply(k, c).0)
    ensures About(k, c).Some? && About(k, c).value.0 < NENV
    ensures var k', (e, v) := Apply(k, c).0, About(k, c).value;
            match c
            case PageAlloc(_, _, _, perm) =>
              && PteOf(k', e, v).Some? && PteOf(k', e, v).value.flags == perm.low | PTE_P
              && PteOf(k', e, v).value.frame in k.phys.free && Contents(k', e, v) == ZeroPage()
            case PageMap(cur, id, va, _, _, perm) =>
              && Envid2Env(k.envs, cur, id, true).Some?
              && PteOf(k, Envid2Env(k.envs, cur, id, true).value, va / PGSIZE).Some?
              && PteOf(k', e, v)
                 == Some(Word(PteOf(k, Envid2Env(k.envs, cur, id, true).value, va / PGSIZE).value.frame,
                   perm.low | PTE_P))
            case PageUnmap(_, _, _) => PteOf(k', e, v) == None
            case IpcSend(cur, _, value, _, _) =>
              k'.envs[e].status == Runnable && k'.envs[e].value == value && k'.envs[e].from == k.envs[cur].id
            case IpcRecv(_, dstva) => k'.envs[e].recving && k'.envs[e].dstva == dstva
            case Exofork(_) => k'.dirs.Keys == k.dirs.Keys + {k.freeEnvs[0]} && k.freeEnvs[0] !in k.dirs
            case SetStatus(_, _, status) => k'.envs[e].status == status
            case Exit(_) => k'.dirs.Keys == k.dirs.Keys - {e} && forall u :: PteOf(k', e, u) == None
            case Store(_, _, i, w) =>
              PteOf(k, e, v).Some? && Writable(PteOf(k, e, v).value) && User(PteOf(k, e, v).value) ==>
                PteOf(k', e, v) == PteOf(k, e, v) && Contents(k', e, v)[i] == w
  {
    if c.PageAlloc? { AllocEffect(k, pins, c); }
    else if c.PageMap? { MapEffect(k, pins, c); }
    else if c.IpcSend? { SendEffect(k, c); }
    else if c.IpcRecv? { RecvEffect(k, c); }
    else if c.PageUnmap? { UnmapEffect(k, pins, c); }
    else { OtherEffect(k, pins, c); }
  }

  lemma AllocEffect(k: Kern, pins: seq<nat>, c: Call)
    requires KInv(k, pins) && Callable(k, c) && c.PageAlloc? && Apply(k, c).1 == Ret(0)
    ensures About(k, c).Some? && About(k, c).value.0 < NENV
    ensures var k', (e, v) := Apply(k, c).0, About(k, c).value;
            && PteOf(k', e, v).Some? && PteOf(k', e, v).value.flags == c.perm.low | PTE_P
            && PteOf(k', e, v).value.frame in k.phys.free && Contents(k', e, v) == ZeroPage()
  {
    LowBits(k, c);
    KernFacts(k, pins, c.cur, c.id);
    hide KInv, SysPageAlloc, SysPageAlloc32, AllocNames, PteOf;
    PageAllocStep(k, pins, c.cur, c.id, c.va, c.perm.low);
  }

  lemma MapEffect(k: Kern, pins: seq<nat>, c: Call)
    requires KInv(k, pins) && Callable(k, c) && c.PageMap? && Apply(k, c).1.Ret? && Apply(k, c).1.code >= 0
    ensures About(k, c).Some? && About(k, c).value.0 < NENV && Envid2Env(k.envs, c.cur, c.srcid, true).Some?
    ensures var k', (e, v) := Apply(k, c).0, About(k, c).value;
            var pte := PteOf(k, Envid2Env(k.envs, c.cur, c.srcid, true).value, c.srcva / PGSIZE);
            pte.Some? && PteOf(k', e, v) == Some(Word(pte.value.frame, c.perm.low | PTE_P))
  {
    LowBits(k, c);
    KernFacts(k, pins, c.cur, c.dstid);
    assert forall e: nat :: CanShare(k, e, c.srcva / PGSIZE);
    hide KInv, SysPageMap, SysPageMap32, MapNames, PteOf, BelowLimit, CanShare;
    PageMapStep(k, pins, c.cur, c.srcid, c.srcva, c.dstid, c.dstva, c.perm.low);
    PageMapReturns(k, pins, c.cur, c.srcid, c.srcva, c.dstid, c.dstva, c.perm.low);
  }

  lemma UnmapEffect(k: Kern, pins: seq<nat>, c: Call)
    requires KInv(k, pins) && Callable(k, c) && c.PageUnmap? && Apply(k, c).1.Ret? && Apply(k, c).1.code >= 0
    ensures About(k, c).Some? && About(k, c).value.0 < NENV
    ensures PteOf(Apply(k, c).0, About(k, c).value.0, About(k, c).value.1) == None
  {
    hide KInv, SysPageUnmap, PteOf;
    PageUnmapStep(k, pins, c.cur, c.id, c.va);
    TableFacts(k, pins);
  }

  lemma TableFacts(k: Kern, pins: seq<nat>)
    requires KInv(k, pins)
    ensures forall e :: e in k.dirs ==> e < NENV
  {}

  lemma SendEffect(k: Kern, c: Call)
    requires Callable(k, c) && c.IpcSend? && Apply(k, c).1.Ret? && Apply(k, c).1.code >= 0 && Formed(Apply(k, c).0)
    ensures About(k, c).Some? && About(k, c).value.0 < NENV
    ensures var k', e := Apply(k, c).0, About(k, c).value.0;
            k'.envs[e].status == Runnable && k'.envs[e].value == c.value && k'.envs[e].from == k.envs[c.cur].id
  {
    hide InsertWord, EntryOf, Covers;
  }

  lemma RecvEffect(k: Kern, c: Call)
    requires Callable(k, c) && c.IpcRecv? && Apply(k, c).1.Ret? && Apply(k, c).1.code >= 0 && Formed(Apply(k, c).0)
    ensures Apply(k, c).0.envs[c.cur].recving && Apply(k, c).0.envs[c.cur].dstva == c.dstva
  {}

  lemma OtherEffect(k: Kern, pins: seq<nat>, c: Call)
    requires KInv(k, pins) && Callable(k, c) && Apply(k, c).1.Ret? && Apply(k, c).1.code >= 0 && Formed(Apply(k, c).0)
    requires c.Exofork? || c.SetStatus? || c.Exit? || c.Store?
    ensures About(k, c).Some? && About(k, c).value.0 < NENV
    ensures var k', (e, v) := Apply(k, c).0, About(k, c).value;
            match c
            case Exofork(_) => k'.dirs.Keys == k.dirs.Keys + {k.freeEnvs[0]} && k.freeEnvs[0] !in k.dirs
            case SetStatus(_, _, status) => k'.envs[e].status == status
            case Exit(_) => k'.dirs.Keys == k.dirs.Keys - {e} && forall u :: PteOf(k', e, u) == None
            case Store(_, _, i, w) =>
              PteOf(k, e, v).Some? && Writable(PteOf(k, e, v).value) && User(PteOf(k, e, v).value) ==>
                PteOf(k', e, v) == PteOf(k, e, v) && Contents(k', e, v)[i] == w
            case _ => true
  {
    hide KInv, SysExofork, FreeEnv, UserStore;
    match c
    case Exofork(cur) => ExoforkStep(k, pins, cur);
    case SetStatus(cur, id, status) => SetStatusStep(k, pins, cur, id, status);
    case Exit(cur) => FreeEnvStep(k, pins, cur);
    case Store(cur, v, i, w) => UserStoreStep(k, pins, cur, v, i, w);
    case _ =>
  }

  // ks[i] is the kernel before the i-th call; no call panics.
  ghost predicate IsRun(ks: seq<Kern>, cs: seq<Call>) {
    && |ks| == |cs| + 1
    && forall i :: 0 <= i < |cs| ==>
         Callable(ks[i], cs[i]) && Apply(ks[i], cs[i]).0 == ks[i + 1] && !Apply(ks[i], cs[i]).1.Panic?
  }

  ghost function PinsAt(ks: seq<Kern>, cs: seq<Call>, pins: seq<nat>, n: nat): seq<nat>
    requires IsRun(ks, cs) && n <= |cs|
  {
    if n == 0 then pins else PinsAfter(ks[n - 1], PinsAt(ks, cs, pins, n - 1), cs[n - 1])
  }

  lemma {:induction false} RunKeeps(ks: seq<Kern>, cs: seq<Call>, pins: seq<nat>, n: nat)
    requires IsRun(ks, cs) && n <= |cs| && KInv(ks[0], pins)
    ensures KInv(ks[n], PinsAt(ks, cs, pins, n))
  {
    hide KInv, Apply, PinsAfter;
    if n > 0 {
      RunKeeps(ks, cs, pins, n - 1);
      CallKeeps(ks[n - 1], PinsAt(ks, cs, pins, n - 1), cs[n - 1]);
    }
  }

  /** Reference conservation: at every point of every run, pp_ref of each page is the number
      of places that name it plus the references sys_page_alloc never gave back, a page is on
      the free list exactly when there are neither, and so no page an environment reaches is
      on the free list. */
  lemma RunConserves(ks: seq<Kern>, cs: seq<Call>, pins: seq<nat>, n: nat, p: nat)
    requires IsRun(ks, cs) && n <= |cs| && KInv(ks[0], pins) && p < |pins|
    ensures var s, dirs, left := ks[n].phys, ks[n].dirs, PinsAt(ks, cs, pins, n);
            && |left| == |pins| == |s.refs|
            && s.refs[p] == |Holders(s, dirs, p)| + left[p]
            && (p in s.free <==> Holders(s, dirs, p) == {} && left[p] == 0)
            && (forall r :: Target(s, dirs, r) == Some(p) ==> p !in s.free)
  {
    RunKeeps(ks, cs, pins, n);
    PinsLength(ks, cs, pins, n);
    var s, dirs := ks[n].phys, ks[n].dirs;
    forall r | Target(s, dirs, r) == Some(p) ensures p !in s.free {
      HoldersAreTargets(s, dirs, p, r);
    }
  }

  lemma {:induction false} PinsLength(ks: seq<Kern>, cs: seq<Call>, pins: seq<nat>, n: nat)
    requires IsRun(ks, cs) && n <= |cs|
    ensures |PinsAt(ks, cs, pins, n)| == |pins|
    ensures forall p :: 0 <= p < |pins| ==> PinsAt(ks, cs, pins, n)[p] >= pins[p]
  {
    hide Apply;
    if n > 0 { PinsLength(ks, cs, pins, n - 1); }
  }

  /** The other side of the pin: a page that sys_page_alloc has handed out never returns to
      the free list, whatever is unmapped or destroyed afterwards. */
  lemma AllocatedForGood(ks: seq<Kern>, cs: seq<Call>, pins: seq<nat>, n: nat)
    requires IsRun(ks, cs) && 1 <= n <= |cs| && KInv(ks[0], pins)
    requires cs[0].PageAlloc? && Apply(ks[0], cs[0]).1 == Ret(0)
    ensures ks[0].phys.free != [] && ks[0].phys.free[0] < |pins| && ks[0].phys.free[0] !in ks[n].phys.free
  {
    var c, p := cs[0], ks[0].phys.free[0];
    LowBits(ks[0], c);
    PageAllocStep(ks[0], pins, c.cur, c.id, c.va, c.perm.low);
    PinnedKern(ks[0], pins);
    PinsGrow(ks, cs, pins, n);
    RunConserves(ks, cs, pins, n, p);
  }

  lemma {:induction false} PinsGrow(ks: seq<Kern>, cs: seq<Call>, pins: seq<nat>, n: nat)
    requires IsRun(ks, cs) && 1 <= n <= |cs|
    requires cs[0].PageAlloc? && Apply(ks[0], cs[0]).1 == Ret(0) && ks[0].phys.free != [] && ks[0].phys.free[0] < |pins|
    ensures |PinsAt(ks, cs, pins, n)| == |pins| && PinsAt(ks, cs, pins, n)[ks[0].phys.free[0]] >= 1
  {
    PinsLength(ks, cs, pins, n - 1);
    if n > 1 { PinsGrow(ks, cs, pins, n - 1); } else { assert PinsAt(ks, cs, pins, 0) == pins; }
  }

  // ---------- write access

  predicate MapsWritable(k: Kern, e: nat, v: nat, p: nat) {
    PteOf(k, e, v).Some? && PteOf(k, e, v).value.frame == p && Writable(PteOf(k, e, v).value)
  }

  ghost predicate NoWriter(k: Kern, p: nat) {
    forall e, v :: !MapsWritable(k, e, v, p)
  }

  lemma PutAddsNoWriter(k: Kern, k': Kern, e: nat, v: nat, w: Word, p: nat)
    requires NoWriter(k, p) && (forall d: nat, u: nat :: d != e || u != v ==> PteOf(k', d, u) == PteOf(k, d, u))
    requires PteOf(k', e, v) == Some(w) && (w.frame == p ==> !Writable(w))
    ensures NoWriter(k', p)
  {
    forall d, u ensures !MapsWritable(k', d, u, p) { assert !MapsWritable(k, d, u, p); }
  }

  lemma SameEntriesSameWriters(k: Kern, k': Kern, p: nat)
    requires NoWriter(k, p) && (forall d: nat, u: nat :: PteOf(k', d, u).Some? ==> PteOf(k', d, u) == PteOf(k, d, u))
    ensures NoWriter(k', p)
  {
    forall d, u ensures !MapsWritable(k', d, u, p) { assert !MapsWritable(k, d, u, p); }
  }

  /** No call makes a page writable that nobody maps writable and that is in use. */
  lemma CallAddsNoWriter(k: Kern, pins: seq<nat>, c: Call, p: nat)
    requires KInv(k, pins) && Callable(k, c) && !Apply(k, c).1.Panic?
    requires NoWriter(k, p) && p !in k.phys.free
    ensures NoWriter(Apply(k, c).0, p)
  {
    hide Inv, EnvTable, TablesOpen, DataKept, NoWriter, SysPageAlloc, SysPageMap, SysPageUnmap, SysIpcTrySend,
      SysIpcRecv, SysExofork, SysEnvSetStatus, FreeEnv, UserStore,
         SysPageAlloc32, SysPageMap32, SysIpcTrySend32, AllocNames, MapNames;
    LowBits(k, c);
    var k' := Apply(k, c).0;
    match c
    case PageAlloc(cur, id, va, perm) =>
      PageAllocStep(k, pins, cur, id, va, perm.low);
      if Apply(k, c).1 == Ret(0) {
        PutAddsNoWriter(k, k', Envid2Env(k.envs, cur, id, true).value, va / PGSIZE,
          Word(k.phys.free[0], perm.low | PTE_P), p);
      }
    case PageMap(cur, srcid, srcva, dstid, dstva, perm) => MapAddsNoWriter(k, pins, c, p);
    case PageUnmap(cur, id, va) =>
      PageUnmapStep(k, pins, cur, id, va);
      SameEntriesSameWriters(k, k', p);
    case IpcSend(cur, id, value, srcva, perm) => SendAddsNoWriter(k, pins, c, p);
    case IpcRecv(cur, dstva) =>
      IpcRecvStep(k, pins, cur, dstva);
      SameEntriesSameWriters(k, k', p);
    case Exofork(cur) =>
      ExoforkStep(k, pins, cur);
      SameEntriesSameWriters(k, k', p);
    case SetStatus(cur, id, status) =>
      SetStatusStep(k, pins, cur, id, status);
      SameEntriesSameWriters(k, k', p);
    case Exit(cur) =>
      FreeEnvStep(k, pins, cur);
      SameEntriesSameWriters(k, k', p);
    case Store(cur, v, i, w) =>
      UserStoreStep(k, pins, cur, v, i, w);
      SameEntriesSameWriters(k, k', p);
  }

  lemma NoWriterAt(k: Kern, e: nat, v: nat, p: nat)
    requires NoWriter(k, p)
    ensures !MapsWritable(k, e, v, p)
  {}

  lemma SubsetWritable(perm: bv12, flags: bv12)
    requires Subset(perm, flags)
    ensures perm & PTE_W != 0 ==> flags & PTE_W != 0
  {}

  lemma MapAddsNoWriter(k: Kern, pins: seq<nat>, c: Call, p: nat)
    requires KInv(k, pins) && Callable(k, c) && c.PageMap? && NoWriter(k, p)
    ensures NoWriter(Apply(k, c).0, p)
  {
    hide Inv, EnvTable, TablesOpen, DataKept, NoWriter, SysPageAlloc, SysPageMap, SysPageUnmap, SysIpcTrySend,
      SysIpcRecv, SysExofork, SysEnvSetStatus, FreeEnv, UserStore,
         SysPageAlloc32, SysPageMap32, SysIpcTrySend32, AllocNames, MapNames;
    LowBits(k, c);
    PageMapStep(k, pins, c.cur, c.srcid, c.srcva, c.dstid, c.dstva, c.perm.low);
    if Apply(k, c).1 == Ret(0) {
      var src, v := Envid2Env(k.envs, c.cur, c.srcid, true).value, c.srcva / PGSIZE;
      NoWriterAt(k, src, v, p);
      PutAddsNoWriter(k, Apply(k, c).0, Envid2Env(k.envs, c.cur, c.dstid, true).value, c.dstva / PGSIZE,
                      Word(PteOf(k, src, v).value.frame, c.perm.low | PTE_P), p);
    }
  }

  lemma SendAddsNoWriter(k: Kern, pins: seq<nat>, c: Call, p: nat)
    requires KInv(k, pins) && Callable(k, c) && c.IpcSend? && NoWriter(k, p)
    ensures NoWriter(Apply(k, c).0, p)
  {
    hide Inv, EnvTable, TablesOpen, DataKept, NoWriter, SysPageAlloc, SysPageMap, SysPageUnmap, SysIpcTrySend,
      SysIpcRecv, SysExofork, SysEnvSetStatus, FreeEnv, UserStore,
         SysPageAlloc32, SysPageMap32, SysIpcTrySend32, AllocNames, MapNames;
    LowBits(k, c);
    IpcSendStep(k, pins, c.cur, c.id, c.value, c.srcva, c.perm.low);
    var k' := Apply(k, c).0;
    if k'.phys != k.phys {
      var e, v := Envid2Env(k.envs, c.cur, c.id, false).value, c.srcva / PGSIZE;
      NoWriterAt(k, c.cur, v, p);
      SubsetWritable(c.perm.low, PteOf(k, c.cur, v).value.flags);
      PutAddsNoWriter(k, k', e, k.envs[e].dstva / PGSIZE, Word(PteOf(k, c.cur, v).value.frame, c.perm.low | PTE_P), p);
    } else {
      SameEntriesSameWriters(k, k', p);
    }
  }

  /** Write access is never manufactured: over a whole run, a page that nobody maps writable
      stays so for as long as it is not freed. */
  lemma {:induction false} WriteAccessNotManufactured(ks: seq<Kern>, cs: seq<Call>, pins: seq<nat>, n: nat, p: nat)
    requires IsRun(ks, cs) && n <= |cs| && KInv(ks[0], pins)
    requires NoWriter(ks[0], p) && forall i :: 0 <= i < n ==> p !in ks[i].phys.free
    ensures NoWriter(ks[n], p)
  {
    hide KInv, Apply, PinsAfter, NoWriter;
    if n > 0 {
      WriteAccessNotManufactured(ks, cs, pins, n - 1, p);
      RunKeeps(ks, cs, pins, n - 1);
      CallAddsNoWriter(ks[n - 1], PinsAt(ks, cs, pins, n - 1), cs[n - 1], p);
    }
  }
}
