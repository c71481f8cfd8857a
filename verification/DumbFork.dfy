/** The duppage of user/dumbfork.c, which copies a page at once: the reference that copy-on-write
    fork is measured against, over the same system calls. */
module DumbFork {
  import opened Mmu
  import opened Errors
  import opened Pmap
  import opened Envs
  import opened Syscalls
  import opened CowFault

  // UTEMP
  const UTEMP_PAGE := 1024

  /** duppage(envid of c, v) by e; None where it panics. */
  function DupPage(k: Kern, e: nat, c: nat, v: nat): Option<Kern>
    requires Formed(k) && e < NENV && c < NENV
  {
    var id := k.envs[c].id;
    var (k1, r1) := SysPageAlloc(k, e, id, v * PGSIZE, RW);
    if Failed(r1) then None
    else
      var (k2, r2) := SysPageMap(k1, e, id, v * PGSIZE, 0, UTEMP_PAGE * PGSIZE, RW);
      if Failed(r2) then None
      else
        var (k4, r4) := SysPageUnmap(CopyWords(k2, e, UTEMP_PAGE, v, 0), e, 0, UTEMP_PAGE * PGSIZE);
        if Failed(r4) then None else Some(k4)
  }

  lemma CallsSucceed(k: Kern, pins: seq<nat>, e: nat, c: nat, v: nat)
    requires KInv(k, pins) && e in k.dirs && c in k.dirs && v < USER_PAGES && BelowLimit(k.phys)
    requires Formed(k) && e < NENV && c < NENV && PteOf(k, c, v) == None && DupPage(k, e, c, v).Some?
    ensures SysPageAlloc(k, e, k.envs[c].id, v * PGSIZE, RW).1 == Ret(0)
    ensures Envid2Env(k.envs, e, k.envs[c].id, true) == Some(c)
  {
    var id := k.envs[c].id;
    var (k1, r1) := SysPageAlloc(k, e, id, v * PGSIZE, RW);
    LiveOrNone(k, pins, e, c);
    PageAllocReturns(k, pins, e, id, v * PGSIZE, RW);
    PageAllocStep(k, pins, e, id, v * PGSIZE, RW);
    assert v * PGSIZE / PGSIZE == v;
    if r1 != Ret(0) {
      assert r1 == Ret(E_NO_MEM) && k1 == k;
      forall d: nat ensures CanShare(k, d, v) {}
      hide KInv, BelowLimit, CanShare, SysPageAlloc, CopyWords;
      PageMapReturns(k, pins, e, id, v * PGSIZE, 0, UTEMP_PAGE * PGSIZE, RW);
    }
  }

  lemma LiveOrNone(k: Kern, pins: seq<nat>, e: nat, c: nat)
    requires KInv(k, pins) && e in k.dirs && c in k.dirs
    ensures Formed(k) && e < NENV && c < NENV
    ensures Envid2Env(k.envs, e, k.envs[c].id, true).Some? ==> Envid2Env(k.envs, e, k.envs[c].id, true) == Some(c)
  {}

  lemma TempWord(f: Frame)
    ensures Word(f, RW | PTE_P) == Word(f, RW) && User(Word(f, RW)) && Writable(Word(f, RW))
  {}

  // The child's fresh page, mapped at UTEMP as well.
  ghost predicate Prepared(k: Kern, k2: Kern, pins: seq<nat>, e: nat, c: nat, v: nat, f: Frame) {
    && f < |pins| && KInv(k2, Bump(pins, f, 1)) && k2 == k.(phys := k2.phys) && NotMapped(k, f)
    && PteOf(k2, c, v) == Some(Word(f, RW)) && PteOf(k2, e, UTEMP_PAGE) == Some(Word(f, RW))
    && forall d: nat, u: nat {:trigger PteOf(k2, d, u)} :: (d != c || u != v) && (d != e || u != UTEMP_PAGE) ==>
         && PteOf(k2, d, u) == PteOf(k, d, u)
         && (PteOf(k, d, u).Some? ==> PageWords(k2.phys, PteOf(k, d, u).value.frame) == Contents(k, d, u))
  }

  lemma FirstCalls(k: Kern, pins: seq<nat>, e: nat, c: nat, v: nat) returns (f: Frame)
    requires KInv(k, pins) && e in k.dirs && c in k.dirs && v < USER_PAGES && BelowLimit(k.phys) && c != e
             && v != UTEMP_PAGE
    requires Formed(k) && e < NENV && c < NENV && PteOf(k, c, v) == None && DupPage(k, e, c, v).Some?
    ensures var id := k.envs[c].id;
            var k1 := SysPageAlloc(k, e, id, v * PGSIZE, RW).0;
            Formed(k1) && Prepared(k, SysPageMap(k1, e, id, v * PGSIZE, 0, UTEMP_PAGE * PGSIZE, RW).0, pins, e, c, v, f)
  {
    CallsSucceed(k, pins, e, c, v);
    var id := k.envs[c].id;
    var k1 := SysPageAlloc(k, e, id, v * PGSIZE, RW).0;
    hide KInv, SysPageAlloc, BelowLimit, Envid2Env, CopyWords, SysPageUnmap;
    FreshPageAt(k, pins, e, id, c, v, RW);
    f := k.phys.free[0];
    TempWord(f);
    SecondCall(k, k1, pins, e, c, id, v, f);
  }

  lemma SecondCall(k: Kern, k1: Kern, pins: seq<nat>, e: nat, c: nat, id: int, v: nat, f: Frame)
    requires f < |pins| && KInv(k1, Bump(pins, f, 1)) && k1 == k.(phys := k1.phys) && OthersSame(k, k1, c, v)
             && NotMapped(k, f)
    requires PteOf(k1, c, v) == Some(Word(f, RW)) && f < |k1.phys.refs| && k1.phys.refs[f] == 2
    requires e in k.dirs && c in k.dirs && e < NENV && c != e && v < USER_PAGES && v != UTEMP_PAGE
    requires Formed(k1) && Envid2Env(k1.envs, e, id, true) == Some(c) && Envid2Env(k1.envs, e, 0, true) == Some(e)
    requires SysPageMap(k1, e, id, v * PGSIZE, 0, UTEMP_PAGE * PGSIZE, RW).1 == Ret(0)
    ensures Prepared(k, SysPageMap(k1, e, id, v * PGSIZE, 0, UTEMP_PAGE * PGSIZE, RW).0, pins, e, c, v, f)
  {
    assert v * PGSIZE / PGSIZE == v && UTEMP_PAGE * PGSIZE / PGSIZE == UTEMP_PAGE;
    TempWord(f);
    assert CanShare(k1, c, v);
    hide KInv, MapPage, CanShare, Envid2Env;
    MapPageStep(k1, Bump(pins, f, 1), c, v, e, UTEMP_PAGE, RW);
    var k2 := SysPageMap(k1, e, id, v * PGSIZE, 0, UTEMP_PAGE * PGSIZE, RW).0;
    PutIsOthersSame(k1, k2, e, UTEMP_PAGE, Word(f, RW));
    forall d: nat, u: nat | (d != c || u != v) && (d != e || u != UTEMP_PAGE)
      ensures PteOf(k2, d, u) == PteOf(k, d, u)
      ensures PteOf(k, d, u).Some? ==> PageWords(k2.phys, PteOf(k, d, u).value.frame) == Contents(k, d, u)
    {
      assert PteOf(k2, d, u) == PteOf(k1, d, u) == PteOf(k, d, u);
    }
  }

  /** duppage of dumbfork, end to end: the child gets a page of its own, writable, with what the
      parent's page holds, UTEMP is free again, and nothing else changed for anyone. */
  lemma DupPageStep(k: Kern, pins: seq<nat>, e: nat, c: nat, v: nat) returns (f: Frame)
    requires KInv(k, pins) && e in k.dirs && c in k.dirs && v < USER_PAGES && BelowLimit(k.phys) && c != e
             && v != UTEMP_PAGE
    requires Formed(k) && e < NENV && c < NENV && PteOf(k, c, v) == None && PteOf(k, e, v).Some?
             && PteOf(k, e, UTEMP_PAGE) == None
    requires DupPage(k, e, c, v).Some?
    ensures var k' := DupPage(k, e, c, v).value;
            && f < |pins| && KInv(k', Bump(pins, f, 1)) && k' == k.(phys := k'.phys) && NotMapped(k, f)
            && OthersSame(k, k', c, v)
            && PteOf(k', c, v) == Some(Word(f, RW)) && PageWords(k'.phys, f) == Contents(k, e, v)
  {
    f := FirstCalls(k, pins, e, c, v);
    hide KInv, SysPageAlloc, SysPageMap, SysPageUnmap, CopyWords, BelowLimit;
    var k1 := SysPageAlloc(k, e, k.envs[c].id, v * PGSIZE, RW).0;
    var k2 := SysPageMap(k1, e, k.envs[c].id, v * PGSIZE, 0, UTEMP_PAGE * PGSIZE, RW).0;
    CopyAndUnmap(k, k2, pins, e, c, v, f);
  }

  lemma CopyAndUnmap(k: Kern, k2: Kern, pins: seq<nat>, e: nat, c: nat, v: nat, f: Frame)
    requires Prepared(k, k2, pins, e, c, v, f) && e in k.dirs && c != e && v != UTEMP_PAGE && Formed(k2) && e < NENV
    requires PteOf(k, e, v).Some? && PteOf(k, e, UTEMP_PAGE) == None
    requires Formed(CopyWords(k2, e, UTEMP_PAGE, v, 0))
             && SysPageUnmap(CopyWords(k2, e, UTEMP_PAGE, v, 0), e, 0, UTEMP_PAGE * PGSIZE).1 == Ret(0)
    ensures var k' := SysPageUnmap(CopyWords(k2, e, UTEMP_PAGE, v, 0), e, 0, UTEMP_PAGE * PGSIZE).0;
            && KInv(k', Bump(pins, f, 1)) && k' == k.(phys := k'.phys) && OthersSame(k, k', c, v)
            && PteOf(k', c, v) == Some(Word(f, RW)) && PageWords(k'.phys, f) == Contents(k, e, v)
  {
    hide KInv, CopyWords, SysPageUnmap;
    TempWord(f);
    assert PteOf(k2, e, v) == PteOf(k, e, v);
    CopyWordsStep(k2, Bump(pins, f, 1), e, UTEMP_PAGE, v, 0);
    var k3 := CopyWords(k2, e, UTEMP_PAGE, v, 0);
    LinksToEntries(k2, k3);
    UnmapStep(k3, Bump(pins, f, 1), e, 0, UTEMP_PAGE);
    var k4 := SysPageUnmap(k3, e, 0, UTEMP_PAGE * PGSIZE).0;
    assert Envid2Env(k3.envs, e, 0, false) == Some(e);
    assert PteOf(k4, c, v) == PteOf(k3, c, v) == PteOf(k2, c, v);
    forall d: nat, u: nat | d != c || u != v
      ensures PteOf(k4, d, u) == PteOf(k, d, u)
      ensures PteOf(k, d, u).Some? ==> PageWords(k4.phys, PteOf(k, d, u).value.frame) == Contents(k, d, u)
    {
      if d != e || u != UTEMP_PAGE { assert PteOf(k4, d, u) == PteOf(k3, d, u) == PteOf(k2, d, u) == PteOf(k, d, u); }
    }
  }

  /** What the child sees is what the parent sees, except that its page is writable always: the
      two agree exactly if the parent's is. */
  lemma ChildSees(k: Kern, pins: seq<nat>, e: nat, c: nat, v: nat)
    requires KInv(k, pins) && e in k.dirs && c in k.dirs && v < USER_PAGES && BelowLimit(k.phys) && c != e
             && v != UTEMP_PAGE
    requires Formed(k) && e < NENV && c < NENV && PteOf(k, c, v) == None && PteOf(k, e, v).Some?
             && PteOf(k, e, UTEMP_PAGE) == None
    requires DupPage(k, e, c, v).Some?
    ensures var k' := DupPage(k, e, c, v).value;
            && ViewAt(k', c, v) == Some(VPage(Contents(k, e, v), true))
            && (ViewAt(k', c, v) == ViewAt(k, e, v) <==> ViewAt(k, e, v).value.writable)
            && forall d: nat, u: nat {:trigger ViewAt(k', d, u)} :: d != c || u != v ==>
                 ViewAt(k', d, u) == ViewAt(k, d, u)
  {
    hide DupPage, KInv, BelowLimit, PteOf, NotMapped, Contents;
    var f := DupPageStep(k, pins, e, c, v);
    SeenAs(k, DupPage(k, e, c, v).value, e, c, v, f);
  }

  lemma SeenAs(k: Kern, k': Kern, e: nat, c: nat, v: nat, f: Frame)
    requires OthersSame(k, k', c, v) && PteOf(k, e, v).Some?
    requires PteOf(k', c, v) == Some(Word(f, RW)) && PageWords(k'.phys, f) == Contents(k, e, v)
    ensures ViewAt(k', c, v) == Some(VPage(Contents(k, e, v), true))
    ensures ViewAt(k', c, v) == ViewAt(k, e, v) <==> ViewAt(k, e, v).value.writable
    ensures forall d: nat, u: nat {:trigger ViewAt(k', d, u)} :: d != c || u != v ==>
              ViewAt(k', d, u) == ViewAt(k, d, u)
  {
    TempWord(f);
    forall d: nat, u: nat | d != c || u != v
      ensures ViewAt(k', d, u) == ViewAt(k, d, u)
    {
      assert PteOf(k', d, u) == PteOf(k, d, u);
    }
  }

  // ---------- when it succeeds

  // Page tables to be made for v of the child and for UTEMP of the parent.
  ghost function TablesMissing(k: Kern, e: nat, c: nat, v: nat): nat {
    (if HasTable(k.phys, k.dirs, c, v) then 0 else 1) + (if HasTable(k.phys, k.dirs, e, UTEMP_PAGE) then 0 else 1)
  }

  /** duppage of dumbfork comes to its end exactly if the child is one's own and there is memory for
      the copy and for the page tables that are missing. */
  lemma DupPageSucceeds(k: Kern, pins: seq<nat>, e: nat, c: nat, v: nat)
    requires KInv(k, pins) && e in k.dirs && c in k.dirs && v < USER_PAGES && BelowLimit(k.phys) && c != e
             && v != UTEMP_PAGE
    requires Formed(k) && e < NENV && c < NENV && PteOf(k, c, v) == None && PteOf(k, e, UTEMP_PAGE) == None
    ensures DupPage(k, e, c, v).Some?
            <==> k.envs[c].parent == k.envs[e].id && |k.phys.free| >= 1 + TablesMissing(k, e, c, v)
  {
    var id := k.envs[c].id;
    var (k1, r1) := SysPageAlloc(k, e, id, v * PGSIZE, RW);
    FirstReturns(k, pins, e, c, v);
    if r1 == Ret(0) {
      hide KInv, SysPageAlloc, BelowLimit, Envid2Env, CopyWords, SysPageUnmap, HasTable;
      FreshPageAt(k, pins, e, id, c, v, RW);
      var f := k.phys.free[0];
      TempWord(f);
      PageAllocTakes(k, pins, e, id, c, v, RW);
      TableSame(k, k1, c, v, e);
      SecondReturns(k1, Bump(pins, f, 1), e, c, id, v, f);
    } else {
      hide KInv, SysPageAlloc, CopyWords, BelowLimit;
      SecondRefused(k, pins, e, c, v);
    }
  }

  lemma FirstReturns(k: Kern, pins: seq<nat>, e: nat, c: nat, v: nat)
    requires KInv(k, pins) && e in k.dirs && c in k.dirs && v < USER_PAGES && Formed(k) && e < NENV && c < NENV
             && c != e
    ensures SysPageAlloc(k, e, k.envs[c].id, v * PGSIZE, RW).1 == Ret(0)
            <==> k.envs[c].parent == k.envs[e].id && |k.phys.free| >= if HasTable(k.phys, k.dirs, c, v) then 1 else 2
    ensures k.envs[c].parent == k.envs[e].id ==> Envid2Env(k.envs, e, k.envs[c].id, true) == Some(c)
  {
    assert v * PGSIZE / PGSIZE == v && UserPresent(RW) && GoodVa(v * PGSIZE);
    assert k.envs[c].id > 0 && EnvX(k.envs[c].id) == c;
    hide KInv, SysPageAlloc, HasTable, UserPresent;
    PageAllocReturns(k, pins, e, k.envs[c].id, v * PGSIZE, RW);
  }

  // Out of memory is taken for success, and then there is nothing to map at UTEMP.
  lemma SecondRefused(k: Kern, pins: seq<nat>, e: nat, c: nat, v: nat)
    requires KInv(k, pins) && e in k.dirs && c in k.dirs && v < USER_PAGES && BelowLimit(k.phys)
    requires Formed(k) && e < NENV && c < NENV && PteOf(k, c, v) == None
    requires SysPageAlloc(k, e, k.envs[c].id, v * PGSIZE, RW).1 != Ret(0)
    ensures DupPage(k, e, c, v) == None
  {
    if DupPage(k, e, c, v).Some? { CallsSucceed(k, pins, e, c, v); }
  }

  lemma TableSame(k: Kern, k1: Kern, c: nat, v: nat, e: nat)
    requires k1.dirs == k.dirs && c != e && v < USER_PAGES
    requires forall d, i {:trigger Link(k1.phys, k.dirs, Table(d, i))} :: Link(k1.phys, k.dirs, Table(d, i)).Some?
               <==> Link(k.phys, k.dirs, Table(d, i)).Some? || (d == c && i == v / 1024)
    ensures HasTable(k1.phys, k1.dirs, e, UTEMP_PAGE) <==> HasTable(k.phys, k.dirs, e, UTEMP_PAGE)
  {
    TableIsLink(k.phys, k.dirs, e, UTEMP_PAGE);
    TableIsLink(k1.phys, k1.dirs, e, UTEMP_PAGE);
  }

  lemma SecondReturns(k1: Kern, pins: seq<nat>, e: nat, c: nat, id: int, v: nat, f: Frame)
    requires KInv(k1, pins) && e in k1.dirs && c in k1.dirs && c != e && v < USER_PAGES && v != UTEMP_PAGE && Formed(k1)
    requires e < NENV && Envid2Env(k1.envs, e, id, true) == Some(c)
    requires PteOf(k1, c, v) == Some(Word(f, RW)) && f < |k1.phys.refs| && k1.phys.refs[f] == 2
    ensures var (k2, r2) := SysPageMap(k1, e, id, v * PGSIZE, 0, UTEMP_PAGE * PGSIZE, RW);
            && (!Failed(r2) <==> HasTable(k1.phys, k1.dirs, e, UTEMP_PAGE) || k1.phys.free != [])
            && (!Failed(r2) ==>
                Formed(k2) && !Failed(SysPageUnmap(CopyWords(k2, e, UTEMP_PAGE, v, 0), e, 0, UTEMP_PAGE * PGSIZE).1))
  {
    assert v * PGSIZE / PGSIZE == v && UserPresent(RW) && GoodVa(v * PGSIZE) && GoodVa(UTEMP_PAGE * PGSIZE);
    assert Writable(Word(f, RW)) && CanShare(k1, c, v) && Envid2Env(k1.envs, e, 0, true) == Some(e);
    hide KInv, SysPageMap, Envid2Env, CanShare, UserPresent, HasTable, CopyWords;
    PageMapReturns(k1, pins, e, id, v * PGSIZE, 0, UTEMP_PAGE * PGSIZE, RW);
    MapEnvs(k1, e, id, v * PGSIZE, RW);
    UnmapReturns(CopyWords(SysPageMap(k1, e, id, v * PGSIZE, 0, UTEMP_PAGE * PGSIZE, RW).0, e, UTEMP_PAGE, v, 0), e);
  }

  lemma MapEnvs(k: Kern, e: nat, id: int, va: nat, perm: bv12)
    requires Formed(k) && e < NENV
    ensures SysPageMap(k, e, id, va, 0, UTEMP_PAGE * PGSIZE, perm).0.envs == k.envs
  {
    hide Insert;
  }

  lemma UnmapReturns(k: Kern, e: nat)
    requires Formed(k) && e < NENV
    ensures SysPageUnmap(k, e, 0, UTEMP_PAGE * PGSIZE).1 == Ret(0)
  {
    hide Remove;
  }
}
