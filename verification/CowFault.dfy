/** The page fault handler of lib/fork.c over the system calls, and what an environment sees of a
    page. */
module CowFault {
  import opened Mmu
  import opened Pmap
  import opened Envs
  import opened EnvVm
  import opened Syscalls

  // ---------- what an environment sees of a page

  datatype VPage = VPage(words: Page, writable: bool)

  // A page counts as writable if a store to it succeeds, directly or after a fault.
  function ViewAt(k: Kern, e: nat, v: nat): Option<VPage> {
    match PteOf(k, e, v)
    case None => None
    case Some(w) => Some(VPage(PageWords(k.phys, w.frame), Writable(w) || Cow(w)))
  }

  // ---------- pgfault

  // One word of the copy.
  function CopyWord(k: Kern, e: nat, dst: nat, src: nat, i: nat): (k': Kern)
    requires i < 1024
    ensures k'.envs == k.envs
  {
    UserStore(k, e, dst, i, if PteOf(k, e, src).Some? then Contents(k, e, src)[i] else ZERO)
  }

  // memcpy(PFTEMP, addr, PGSIZE): word by word through the environment's own mappings
  function CopyWords(k: Kern, e: nat, dst: nat, src: nat, i: nat): (k': Kern)
    ensures k'.envs == k.envs
    decreases 1024 - i
  {
    if i >= 1024 then k else CopyWords(CopyWord(k, e, dst, src, i), e, dst, src, i + 1)
  }

  // Loads from page src and stores to page dst do not fault.
  predicate CanCopy(k: Kern, e: nat, dst: nat, src: nat) {
    var (to, from) := (PteOf(k, e, dst), PteOf(k, e, src));
    to.Some? && Writable(to.value) && User(to.value) && from.Some? && User(from.value)
  }

  // Out of memory is a positive number, which the handler takes for success.
  predicate Failed(r: Outcome) { r.Panic? || r.code < 0 }

  /** The handler for a write fault on page v; None when it, the kernel, or the handler of a fault
      in its own copy panics. */
  function PgFault(k: Kern, e: nat, v: nat): Option<Kern>
    requires Formed(k) && e < NENV
  {
    var pte := PteOf(k, e, v);
    if pte.None? || !Cow(pte.value) then None
    else
      var (k1, r1) := SysPageAlloc(k, e, 0, PFTEMP_PAGE * PGSIZE, RW);
      if Failed(r1) || !CanCopy(k1, e, PFTEMP_PAGE, v) then None
      else
        var k2 := CopyWords(k1, e, PFTEMP_PAGE, v, 0);
        var (k3, r3) := SysPageMap(k2, e, 0, PFTEMP_PAGE * PGSIZE, 0, v * PGSIZE, RW);
        if Failed(r3) then None
        else
          var (k4, r4) := SysPageUnmap(k3, e, 0, PFTEMP_PAGE * PGSIZE);
          if Failed(r4) then None else Some(k4)
  }

  lemma {:induction false} CopyWordsStep(k: Kern, pins: seq<nat>, e: nat, dst: nat, src: nat, i: nat)
    requires KInv(k, pins) && e in k.dirs && i <= 1024
    requires PteOf(k, e, dst).Some? && Writable(PteOf(k, e, dst).value) && User(PteOf(k, e, dst).value)
    requires PteOf(k, e, src).Some? && PteOf(k, e, src).value.frame != PteOf(k, e, dst).value.frame
    requires Contents(k, e, dst)[..i] == Contents(k, e, src)[..i]
    ensures var k' := CopyWords(k, e, dst, src, i);
            && KInv(k', pins) && k' == k.(phys := k'.phys) && SameLinks(k.phys, k'.phys, k.dirs)
            && k'.phys.refs == k.phys.refs
            && PageWords(k'.phys, PteOf(k, e, dst).value.frame) == Contents(k, e, src)
            && (forall q: nat :: q != PteOf(k, e, dst).value.frame ==> PageWords(k'.phys, q) == PageWords(k.phys, q))
    decreases 1024 - i
  {
    hide KInv, UserStore;
    if i < 1024 {
      assert CopyWord(k, e, dst, src, i) == UserStore(k, e, dst, i, Contents(k, e, src)[i]);
      var w, f := Contents(k, e, src)[i], PteOf(k, e, dst).value.frame;
      UserStoreStep(k, pins, e, dst, i, w);
      var k1 := UserStore(k, e, dst, i, w);
      assert PteOf(k1, e, dst) == PteOf(k, e, dst) && PteOf(k1, e, src) == PteOf(k, e, src);
      assert PageWords(k1.phys, f) == Contents(k, e, dst)[i := w];
      assert Contents(k1, e, dst)[..i + 1] == Contents(k1, e, src)[..i + 1];
      CopyWordsStep(k1, pins, e, dst, src, i + 1);
    } else {
      assert Contents(k, e, dst) == Contents(k, e, dst)[..1024] == Contents(k, e, src)[..1024] == Contents(k, e, src);
    }
  }

  // Every entry but one is what it was, and reads what it read.
  ghost predicate OthersSame(k: Kern, k': Kern, e: nat, v: nat) {
    forall d: nat, u: nat {:trigger PteOf(k', d, u)} :: d != e || u != v ==>
      && PteOf(k', d, u) == PteOf(k, d, u)
      && (PteOf(k, d, u).Some? ==> PageWords(k'.phys, PteOf(k, d, u).value.frame) == Contents(k, d, u))
  }

  ghost predicate NotMapped(k: Kern, f: nat) {
    forall d, u {:trigger PteOf(k, d, u)} :: PteOf(k, d, u).Some? ==> PteOf(k, d, u).value.frame != f
  }

  lemma PutIsOthersSame(k: Kern, k': Kern, e: nat, v: nat, w: Word)
    requires Put(k, k', e, v, w)
    ensures OthersSame(k, k', e, v)
  {}

  lemma UnusedIsNotMapped(k: Kern, f: nat)
    requires Unused(k.phys, k.dirs, f)
    ensures NotMapped(k, f)
  {
    forall d, u | PteOf(k, d, u).Some?
      ensures PteOf(k, d, u).value.frame != f
    {
      assert Target(k.phys, k.dirs, Leaf(d, u)) != Some(f);
    }
  }

  // After sys_page_alloc a page has two references: its one mapping, and the pin.
  lemma FreshCount(k: Kern, k': Kern, pins: seq<nat>, e: nat, v: nat, f: nat)
    requires KInv(k, pins) && f < |pins| && pins[f] == 0 && KInv(k', Bump(pins, f, 1)) && OthersSame(k, k', e, v)
             && NotMapped(k, f)
    requires PteOf(k', e, v).Some? && PteOf(k', e, v).value.frame == f
    ensures f < |k'.phys.refs| && k'.phys.refs[f] == 2
  {
    forall r ensures r in Holders(k'.phys, k'.dirs, f) <==> r == Leaf(e, v) {
      HoldersAreTargets(k'.phys, k'.dirs, f, r);
      if r.Leaf? {
        assert PteOf(k', r.e, r.v) == PteOf(k', r.e, r.v);
      } else {
        LeafPagesAreData(k'.phys, k'.dirs, e, v, r);
      }
    }
    assert Holders(k'.phys, k'.dirs, f) == {Leaf(e, v)};
  }

  lemma FreshPage(k: Kern, pins: seq<nat>, cur: nat, id: int, va: nat, perm: bv12)
    requires KInv(k, pins) && cur in k.dirs && SysPageAlloc(k, cur, id, va, perm).1 == Ret(0)
    ensures var k' := SysPageAlloc(k, cur, id, va, perm).0;
            && k.phys.free != [] && Envid2Env(k.envs, cur, id, true).Some?
            && var f, t, v := k.phys.free[0], Envid2Env(k.envs, cur, id, true).value, va / PGSIZE;
            && t in k.dirs && v < USER_PAGES && f < |pins| && f < 0x10_0000
            && KInv(k', Bump(pins, f, 1)) && k' == k.(phys := k'.phys) && OthersSame(k, k', t, v)
            && PteOf(k', t, v) == Some(Word(f, perm | PTE_P)) && PageWords(k'.phys, f) == ZeroPage()
            && NotMapped(k, f) && f < |k'.phys.refs| && k'.phys.refs[f] == 2
  {
    hide SysPageAlloc;
    PageAllocStep(k, pins, cur, id, va, perm);
    var k' := SysPageAlloc(k, cur, id, va, perm).0;
    var f, t, v := k.phys.free[0], Envid2Env(k.envs, cur, id, true).value, va / PGSIZE;
    assert f in k.phys.free;
    FreePageUnused(k.phys, k.dirs, pins, k.kdir, f, Root(0));
    hide Inv, EnvTable, TablesOpen;
    PutIsOthersSame(k, k', t, v, Word(f, perm | PTE_P));
    UnusedIsNotMapped(k, f);
    FreshCount(k, k', pins, t, v, f);
  }

  lemma FreshPageAt(k: Kern, pins: seq<nat>, cur: nat, id: int, t: nat, v: nat, perm: bv12)
    requires KInv(k, pins) && cur in k.dirs && SysPageAlloc(k, cur, id, v * PGSIZE, perm).1 == Ret(0)
    requires Envid2Env(k.envs, cur, id, true).Some? ==> Envid2Env(k.envs, cur, id, true) == Some(t)
    ensures var k' := SysPageAlloc(k, cur, id, v * PGSIZE, perm).0;
            && k.phys.free != [] && k.phys.free[0] < |pins| && k.phys.free[0] < 0x10_0000 && UserPresent(perm)
            && var f := k.phys.free[0];
            && KInv(k', Bump(pins, f, 1)) && k' == k.(phys := k'.phys) && OthersSame(k, k', t, v)
            && PteOf(k', t, v) == Some(Word(f, perm | PTE_P)) && PageWords(k'.phys, f) == ZeroPage() && NotMapped(k, f)
            && f < |k'.phys.refs| && k'.phys.refs[f] == 2
  {
    FreshPage(k, pins, cur, id, v * PGSIZE, perm);
    assert v * PGSIZE / PGSIZE == v;
  }

  // The third step of pgfault: the private copy takes the place of the shared page.
  lemma MoveStep(k: Kern, pins: seq<nat>, e: nat, from: nat, v: nat, perm: bv12)
    requires KInv(k, pins) && e in k.dirs && PteOf(k, e, from).Some? && CanShare(k, e, from)
    requires from < USER_PAGES && v < USER_PAGES && SysPageMap(k, e, 0, from * PGSIZE, 0, v * PGSIZE, perm).1 == Ret(0)
    ensures var k', w := SysPageMap(k, e, 0, from * PGSIZE, 0, v * PGSIZE, perm).0, PteOf(k, e, from).value;
            && KInv(k', pins) && k' == k.(phys := k'.phys) && OthersSame(k, k', e, v)
            && PteOf(k', e, v) == Some(Word(w.frame, perm | PTE_P))
            && PageWords(k'.phys, w.frame) == Contents(k, e, from)
  {
    MappedIsMappable(k, pins, e, from);
    var f := PteOf(k, e, from).value.frame;
    MapStep(k, pins, e, f, v, perm);
    assert from * PGSIZE / PGSIZE == from && v * PGSIZE / PGSIZE == v;
    PutIsOthersSame(k, k.(phys := Insert(k.phys, k.dirs[e], f, v, perm).0), e, v, Word(f, perm | PTE_P));
  }

  lemma UnmapStep(k: Kern, pins: seq<nat>, cur: nat, id: int, v: nat)
    requires KInv(k, pins) && cur in k.dirs && v < USER_PAGES && SysPageUnmap(k, cur, id, v * PGSIZE).1 == Ret(0)
    ensures var k' := SysPageUnmap(k, cur, id, v * PGSIZE).0;
            && Envid2Env(k.envs, cur, id, false).Some?
            && var t := Envid2Env(k.envs, cur, id, false).value;
            && t in k.dirs && KInv(k', pins) && k' == k.(phys := k'.phys)
            && OthersSame(k, k', t, v) && PteOf(k', t, v) == None
  {
    PageUnmapStep(k, pins, cur, id, v * PGSIZE);
    assert v * PGSIZE / PGSIZE == v;
  }

  lemma LinksToEntries(k: Kern, k': Kern)
    requires SameLinks(k.phys, k'.phys, k.dirs) && k'.dirs == k.dirs
    ensures forall d, u {:trigger PteOf(k', d, u)} :: PteOf(k', d, u) == PteOf(k, d, u)
  {}

  const RW: bv12 := PTE_W | PTE_U | PTE_P

  lemma KernFormed(k: Kern, pins: seq<nat>, e: nat)
    requires KInv(k, pins) && e in k.dirs
    ensures Formed(k) && e < NENV && Envid2Env(k.envs, e, 0, true) == Some(e) && RW | PTE_P == RW
  {}

  // sys_page_alloc at PFTEMP and the copy into it
  lemma CopyStage(k: Kern, pins: seq<nat>, e: nat, v: nat)
    requires KInv(k, pins) && e in k.dirs && v != PFTEMP_PAGE && PteOf(k, e, v).Some?
    requires SysPageAlloc(k, e, 0, PFTEMP_PAGE * PGSIZE, RW).1 == Ret(0)
    ensures k.phys.free != [] && k.phys.free[0] < |pins| && k.phys.free[0] < 0x10_0000
    ensures var f := k.phys.free[0];
            var k2 := CopyWords(SysPageAlloc(k, e, 0, PFTEMP_PAGE * PGSIZE, RW).0, e, PFTEMP_PAGE, v, 0);
            && KInv(k2, Bump(pins, f, 1)) && k2 == k.(phys := k2.phys) && NotMapped(k, f)
            && OthersSame(k, k2, e, PFTEMP_PAGE) && PteOf(k2, e, PFTEMP_PAGE) == Some(Word(f, RW))
            && PageWords(k2.phys, f) == Contents(k, e, v) && CanShare(k2, e, PFTEMP_PAGE)
  {
    hide SysPageAlloc, CopyWords, KInv, Envid2Env;
    KernFormed(k, pins, e);
    FreshPageAt(k, pins, e, 0, e, PFTEMP_PAGE, RW);
    var k1, f := SysPageAlloc(k, e, 0, PFTEMP_PAGE * PGSIZE, RW).0, k.phys.free[0];
    assert PteOf(k1, e, v) == PteOf(k, e, v);
    CopyWordsStep(k1, Bump(pins, f, 1), e, PFTEMP_PAGE, v, 0);
    var k2 := CopyWords(k1, e, PFTEMP_PAGE, v, 0);
    LinksToEntries(k1, k2);
    forall d: nat, u: nat | d != e || u != PFTEMP_PAGE
      ensures PteOf(k2, d, u) == PteOf(k, d, u)
      ensures PteOf(k, d, u).Some? ==> PageWords(k2.phys, PteOf(k, d, u).value.frame) == Contents(k, d, u)
    {
      assert PteOf(k2, d, u) == PteOf(k1, d, u) == PteOf(k, d, u);
    }
  }

  // sys_page_map over the faulting page and sys_page_unmap of PFTEMP
  lemma MoveStage(k2: Kern, pins: seq<nat>, e: nat, v: nat, f: Frame)
    requires KInv(k2, pins) && e in k2.dirs && v < USER_PAGES && v != PFTEMP_PAGE
    requires PteOf(k2, e, PFTEMP_PAGE) == Some(Word(f, RW)) && CanShare(k2, e, PFTEMP_PAGE)
    requires !Failed(SysPageMap(k2, e, 0, PFTEMP_PAGE * PGSIZE, 0, v * PGSIZE, RW).1)
    ensures var k3 := SysPageMap(k2, e, 0, PFTEMP_PAGE * PGSIZE, 0, v * PGSIZE, RW).0;
            && Formed(k3) && e < NENV
            && (!Failed(SysPageUnmap(k3, e, 0, PFTEMP_PAGE * PGSIZE).1) ==>
                var k4 := SysPageUnmap(k3, e, 0, PFTEMP_PAGE * PGSIZE).0;
                && KInv(k4, pins) && k4 == k2.(phys := k4.phys)
                && PteOf(k4, e, v) == Some(Word(f, RW)) && PteOf(k4, e, PFTEMP_PAGE) == None
                && PageWords(k4.phys, f) == PageWords(k2.phys, f)
                && (forall d: nat, u: nat {:trigger PteOf(k4, d, u)} ::
                     (d != e || u != v) && (d != e || u != PFTEMP_PAGE) ==>
                      && PteOf(k4, d, u) == PteOf(k2, d, u)
                      && (PteOf(k2, d, u).Some? ==>
                           PageWords(k4.phys, PteOf(k2, d, u).value.frame) == Contents(k2, d, u))))
  {
    assert Formed(k2) && e < NENV;
    hide Inv, EnvTable, TablesOpen, SysPageMap, SysPageUnmap;
    assert RW | PTE_P == RW;
    NeverPositive(k2, e, v);
    MoveStep(k2, pins, e, PFTEMP_PAGE, v, RW);
    var k3 := SysPageMap(k2, e, 0, PFTEMP_PAGE * PGSIZE, 0, v * PGSIZE, RW).0;
    if !Failed(SysPageUnmap(k3, e, 0, PFTEMP_PAGE * PGSIZE).1) {
      NeverPositive(k3, e, v);
      UnmapStep(k3, pins, e, 0, PFTEMP_PAGE);
      var k4 := SysPageUnmap(k3, e, 0, PFTEMP_PAGE * PGSIZE).0;
      forall d: nat, u: nat | (d != e || u != v) && (d != e || u != PFTEMP_PAGE)
        ensures PteOf(k4, d, u) == PteOf(k2, d, u)
        ensures PteOf(k2, d, u).Some? ==> PageWords(k4.phys, PteOf(k2, d, u).value.frame) == Contents(k2, d, u)
      {
        assert PteOf(k4, d, u) == PteOf(k3, d, u) == PteOf(k2, d, u);
      }
      assert PteOf(k4, e, v) == PteOf(k3, e, v);
    }
  }

  // These two calls return 0 or a negative number.
  lemma NeverPositive(k: Kern, e: nat, v: nat)
    requires Formed(k) && e < NENV
    ensures var r := SysPageMap(k, e, 0, PFTEMP_PAGE * PGSIZE, 0, v * PGSIZE, RW).1; r == Ret(0) || Failed(r)
    ensures var r := SysPageUnmap(k, e, 0, PFTEMP_PAGE * PGSIZE).1; r == Ret(0) || Failed(r)
  {
    hide Insert, Remove;
  }

  // With PFTEMP unmapped, a handler that finds no memory does not get through its copy.
  lemma HandlerAllocates(k: Kern, pins: seq<nat>, e: nat, v: nat)
    requires KInv(k, pins) && e in k.dirs && Formed(k) && e < NENV && PteOf(k, e, PFTEMP_PAGE) == None
    requires var (k1, r1) := SysPageAlloc(k, e, 0, PFTEMP_PAGE * PGSIZE, RW);
               !Failed(r1) && CanCopy(k1, e, PFTEMP_PAGE, v)
    ensures SysPageAlloc(k, e, 0, PFTEMP_PAGE * PGSIZE, RW).1 == Ret(0)
  {
    hide KInv, SysPageAlloc, PteOf;
    PageAllocStep(k, pins, e, 0, PFTEMP_PAGE * PGSIZE, RW);
  }

  /** pgfault, end to end: on success the faulting page is mapped writable to a private page
      with the old contents, PFTEMP is unmapped again, and nothing else changed for anyone. */
  lemma PgFaultStep(k: Kern, pins: seq<nat>, e: nat, v: nat)
    requires KInv(k, pins) && e in k.dirs && v < USER_PAGES && v != PFTEMP_PAGE && PteOf(k, e, PFTEMP_PAGE) == None
    requires PgFault(k, e, v).Some?
    ensures var k' := PgFault(k, e, v).value;
            && k.phys.free != [] && k.phys.free[0] < |pins| && k.phys.free[0] < 0x10_0000
            && var f := k.phys.free[0];
            && KInv(k', Bump(pins, f, 1)) && k' == k.(phys := k'.phys) && OthersSame(k, k', e, v) && NotMapped(k, f)
            && PteOf(k, e, v).Some? && PteOf(k', e, v) == Some(Word(f, RW))
            && PageWords(k'.phys, f) == Contents(k, e, v)
  {
    assert Formed(k) && e < NENV;
    hide KInv, SysPageAlloc, SysPageMap, SysPageUnmap, CopyWords, PteOf, CanCopy;
    HandlerAllocates(k, pins, e, v);
    CopyStage(k, pins, e, v);
    var f := k.phys.free[0];
    var k2 := CopyWords(SysPageAlloc(k, e, 0, PFTEMP_PAGE * PGSIZE, RW).0, e, PFTEMP_PAGE, v, 0);
    MoveStage(k2, Bump(pins, f, 1), e, v, f);
    PgFaultOthers(k, k2, PgFault(k, e, v).value, e, v);
  }

  /** The handler succeeds exactly for a user's copy-on-write page, when there is memory for the
      copy and, if it is missing, for the page table of PFTEMP. */
  lemma PgFaultSucceeds(k: Kern, pins: seq<nat>, e: nat, v: nat)
    requires KInv(k, pins) && e in k.dirs && v < USER_PAGES && v != PFTEMP_PAGE && PteOf(k, e, PFTEMP_PAGE) == None
    ensures PgFault(k, e, v).Some? <==>
              && PteOf(k, e, v).Some? && Cow(PteOf(k, e, v).value) && User(PteOf(k, e, v).value)
              && |k.phys.free| >= if HasTable(k.phys, k.dirs, e, PFTEMP_PAGE) then 1 else 2
  {
    KernFormed(k, pins, e);
    hide KInv, SysPageAlloc, SysPageMap, SysPageUnmap, CopyWords, PteOf, CanCopy, HasTable, Envid2Env;
    var r1, pte := SysPageAlloc(k, e, 0, PFTEMP_PAGE * PGSIZE, RW).1, PteOf(k, e, v);
    TempAllocated(k, pins, e);
    if PgFault(k, e, v).Some? { HandlerAllocates(k, pins, e, v); }
    if pte.Some? && r1 == Ret(0) { CanCopyThen(k, pins, e, v); }
    if pte.Some? && Cow(pte.value) && User(pte.value) && r1 == Ret(0) { HandlerGoesOn(k, pins, e, v); }
  }

  // Once it has its page the handler does not fail.
  lemma HandlerGoesOn(k: Kern, pins: seq<nat>, e: nat, v: nat)
    requires KInv(k, pins) && e in k.dirs && v < USER_PAGES && v != PFTEMP_PAGE && Formed(k) && e < NENV
    requires PteOf(k, e, v).Some? && SysPageAlloc(k, e, 0, PFTEMP_PAGE * PGSIZE, RW).1 == Ret(0)
    ensures var k2 := CopyWords(SysPageAlloc(k, e, 0, PFTEMP_PAGE * PGSIZE, RW).0, e, PFTEMP_PAGE, v, 0);
            && Formed(k2)
            && var (k3, r3) := SysPageMap(k2, e, 0, PFTEMP_PAGE * PGSIZE, 0, v * PGSIZE, RW);
            r3 == Ret(0) && Formed(k3) && SysPageUnmap(k3, e, 0, PFTEMP_PAGE * PGSIZE).1 == Ret(0)
  {
    hide KInv, SysPageAlloc, SysPageMap, SysPageUnmap, CopyWords, PteOf, Envid2Env;
    CopyStage(k, pins, e, v);
    var f := k.phys.free[0];
    var k2 := CopyWords(SysPageAlloc(k, e, 0, PFTEMP_PAGE * PGSIZE, RW).0, e, PFTEMP_PAGE, v, 0);
    assert PteOf(k2, e, v) == PteOf(k, e, v);
    MoveSucceeds(k2, Bump(pins, f, 1), e, v, f);
  }

  lemma TempAllocated(k: Kern, pins: seq<nat>, e: nat)
    requires KInv(k, pins) && e in k.dirs && Formed(k) && e < NENV
    ensures SysPageAlloc(k, e, 0, PFTEMP_PAGE * PGSIZE, RW).1 == Ret(0)
            <==> |k.phys.free| >= if HasTable(k.phys, k.dirs, e, PFTEMP_PAGE) then 1 else 2
  {
    KernFormed(k, pins, e);
    assert UserPresent(RW) && PFTEMP_PAGE * PGSIZE / PGSIZE == PFTEMP_PAGE && GoodVa(PFTEMP_PAGE * PGSIZE);
    hide KInv, SysPageAlloc, HasTable, Envid2Env, UserPresent;
    PageAllocReturns(k, pins, e, 0, PFTEMP_PAGE * PGSIZE, RW);
  }

  lemma CanCopyThen(k: Kern, pins: seq<nat>, e: nat, v: nat)
    requires KInv(k, pins) && e in k.dirs && v != PFTEMP_PAGE && Formed(k) && e < NENV
    requires SysPageAlloc(k, e, 0, PFTEMP_PAGE * PGSIZE, RW).1 == Ret(0)
    ensures CanCopy(SysPageAlloc(k, e, 0, PFTEMP_PAGE * PGSIZE, RW).0, e, PFTEMP_PAGE, v)
            <==> PteOf(k, e, v).Some? && User(PteOf(k, e, v).value)
  {
    hide KInv, SysPageAlloc, PteOf, Envid2Env;
    KernFormed(k, pins, e);
    FreshPageAt(k, pins, e, 0, e, PFTEMP_PAGE, RW);
    assert Writable(Word(k.phys.free[0], RW | PTE_P)) && User(Word(k.phys.free[0], RW | PTE_P));
  }

  // The last two calls of the handler do not fail where a page is mapped already.
  lemma MoveSucceeds(k2: Kern, pins: seq<nat>, e: nat, v: nat, f: Frame)
    requires KInv(k2, pins) && e in k2.dirs && v < USER_PAGES && v != PFTEMP_PAGE && PteOf(k2, e, v).Some?
    requires PteOf(k2, e, PFTEMP_PAGE) == Some(Word(f, RW)) && CanShare(k2, e, PFTEMP_PAGE)
    ensures Formed(k2) && e < NENV
    ensures var (k3, r3) := SysPageMap(k2, e, 0, PFTEMP_PAGE * PGSIZE, 0, v * PGSIZE, RW);
            r3 == Ret(0) && Formed(k3) && SysPageUnmap(k3, e, 0, PFTEMP_PAGE * PGSIZE).1 == Ret(0)
  {
    KernFormed(k2, pins, e);
    assert HasTable(k2.phys, k2.dirs, e, v) && v * PGSIZE / PGSIZE == v;
    assert UserPresent(RW) && Writable(Word(f, RW));
    hide KInv, SysPageMap, SysPageUnmap, HasTable, PteOf, CanShare, UserPresent;
    PageMapReturns(k2, pins, e, 0, PFTEMP_PAGE * PGSIZE, 0, v * PGSIZE, RW);
    MoveStep(k2, pins, e, PFTEMP_PAGE, v, RW);
    PageUnmapStep(SysPageMap(k2, e, 0, PFTEMP_PAGE * PGSIZE, 0, v * PGSIZE, RW).0, pins, e, 0, PFTEMP_PAGE * PGSIZE);
  }

  lemma PgFaultOthers(k: Kern, k2: Kern, k4: Kern, e: nat, v: nat)
    requires PteOf(k, e, PFTEMP_PAGE) == None && PteOf(k4, e, PFTEMP_PAGE) == None && OthersSame(k, k2, e, PFTEMP_PAGE)
    requires forall d: nat, u: nat {:trigger PteOf(k4, d, u)} :: (d != e || u != v) && (d != e || u != PFTEMP_PAGE) ==>
               && PteOf(k4, d, u) == PteOf(k2, d, u)
               && (PteOf(k2, d, u).Some? ==> PageWords(k4.phys, PteOf(k2, d, u).value.frame) == Contents(k2, d, u))
    ensures OthersSame(k, k4, e, v)
  {
    forall d: nat, u: nat | d != e || u != v
      ensures PteOf(k4, d, u) == PteOf(k, d, u)
      ensures PteOf(k, d, u).Some? ==> PageWords(k4.phys, PteOf(k, d, u).value.frame) == Contents(k, d, u)
    {
      if d != e || u != PFTEMP_PAGE {
        assert PteOf(k4, d, u) == PteOf(k2, d, u) == PteOf(k, d, u);
      }
    }
  }
}
