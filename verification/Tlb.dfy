/** One processor's TLB and its cache of directory entries (tlb_invalidate of kern/pmap.c and the
    loads of cr3): whatever they may hold agrees with the page tables that are loaded, although
    invalidations are skipped for tables that are not. The rules are those of sections 4.10.2
    to 4.10.4 of the Intel SDM, volume 3A. */
module Tlb {
  import opened Mmu
  import opened Pmap
  import opened EnvVm
  import opened Paging
  import opened Directories

  /** `tlb` holds translations and `pdes` directory entries that the processor may have cached
      since cr3 was last loaded; `cur` is curenv, and `icode` the environment that load_icode
      is filling. */
  datatype Cpu = Cpu(phys: Phys, dirs: map<nat, Frame>, kdir: Frame, cr3: Frame, cur: Option<nat>, icode: Option<nat>,
                     tlb: set<(nat, Word)>, pdes: set<(nat, Word)>)

  // A walk may start from a cached directory entry, as in FillVia. PageAlloc is page_alloc and the
  // pp_ref++ of sys_page_alloc, RegionAlloc a round of region_alloc.
  datatype Op =
    | FillPde(i: nat)
    | Fill(v: nat)
    | FillVia(v: nat, pde: Word)
    | Evict(left: set<(nat, Word)>, leftPdes: set<(nat, Word)>)
    | PageAlloc
    | PageInsert(e: nat, pp: Frame, v: nat, perm: bv12)
    | RegionAlloc(e: nat, v: nat, perm: bv12)
    | PageRemove(e: nat, v: nat)
    | SetupVm(e: nat)
    | IcodeBegin(e: nat)
    | IcodeEnd
    | EnvRun(e: nat)
    | EnvFree(e: nat)
    | Halt

  // invlpg: it drops the translation of one page, and every cached directory entry
  function Invlpg(c: Cpu, v: nat): Cpu { c.(pdes := {}, tlb := set t | t in c.tlb && t.0 != v) }

  // tlb_invalidate
  function Invalidate(c: Cpu, dir: nat, v: nat): Cpu {
    if c.cur.None? || (c.cur.value in c.dirs && c.dirs[c.cur.value] == dir) then Invlpg(c, v) else c
  }

  // what page_insert and page_remove do to the caches
  function Replace(c: Cpu, e: nat, v: nat): Cpu {
    if Pt(c.phys, RootOf(c.dirs, e), v).Some? then Invalidate(c, RootOf(c.dirs, e), v) else c
  }

  // lcr3: everything is flushed, no entry being global
  function Load(c: Cpu, dir: Frame): Cpu { c.(cr3 := dir, tlb := {}, pdes := {}) }

  function Step(c: Cpu, op: Op): Cpu {
    match op
    case FillPde(i) => if Present(Cell(c.phys, c.cr3, i)) then c.(pdes := c.pdes + {(i, Cell(c.phys, c.cr3, i))}) else c
    case Fill(v) =>
      var w := Pt(c.phys, c.cr3, v);
      if w.Some? then c.(tlb := c.tlb + {(v, w.value)}) else c
    case FillVia(v, pde) =>
      var w := Cell(c.phys, pde.frame, v % 1024);
      if (v / 1024, pde) in c.pdes && Present(w) then c.(tlb := c.tlb + {(v, w)}) else c
    case Evict(left, leftPdes) => c.(tlb := c.tlb * left, pdes := c.pdes * leftPdes)
    case PageAlloc => if c.phys.free == [] then c else c.(phys := AllocPinned(c.phys))
    case PageInsert(e, pp, v, perm) =>
      var (s, ok) := Insert(c.phys, RootOf(c.dirs, e), pp, v, perm);
      if !ok then c else Replace(c, e, v).(phys := s)
    case RegionAlloc(e, v, perm) =>
      var (s, ok) := EnvVm.RegionAlloc(c.phys, RootOf(c.dirs, e), v, perm);
      if !ok then c else Replace(c, e, v).(phys := s)
    case PageRemove(e, v) => Replace(c, e, v).(phys := Remove(c.phys, RootOf(c.dirs, e), v))
    case SetupVm(e) =>
      var (s, p) := EnvVm.SetupVm(c.phys, c.kdir);
      if p.None? || p.value >= 0x10_0000 then c else c.(phys := s, dirs := c.dirs[e := p.value])
    case IcodeBegin(e) => Load(c, RootOf(c.dirs, e)).(icode := Some(e))
    case IcodeEnd => Load(c, c.kdir).(icode := None)
    case EnvRun(e) =>
      // lcr3 only when the environment changes
      if c.cur == Some(e) then c else Load(c, RootOf(c.dirs, e)).(cur := Some(e))
    case EnvFree(e) =>
      // lcr3(kern_pgdir) first, if e is the current environment, which its callers then forget
      var c1 := if c.cur == Some(e) then Load(c, c.kdir).(cur := None) else c;
      c1.(phys := EnvVm.EnvFree(c.phys, RootOf(c.dirs, e)), dirs := c.dirs - {e})
    case Halt => Load(c, c.kdir).(cur := None)
  }

  // The operations that the kernel may carry out: on live environments, with pages in use or,
  // where there is room for a page table, fresh ones, and load_icode before any of them runs.
  ghost predicate Allowed(c: Cpu, op: Op) {
    match op
    case PageInsert(e, pp, v, _) =>
      e in c.dirs && v < USER_PAGES && Mappable(c.phys, c.dirs, c.kdir, pp) && c.phys.refs[pp] < 0xFFFF
    case RegionAlloc(e, v, _) => e in c.dirs && v < USER_PAGES && RoomFor(c.phys, c.dirs, e, v)
    case PageRemove(e, v) => e in c.dirs && v < USER_PAGES
    case SetupVm(e) => e !in c.dirs
    case IcodeBegin(e) => e in c.dirs && c.cur.None? && c.icode.None?
    case IcodeEnd => c.icode.Some?
    case EnvRun(e) => e in c.dirs && c.icode.None?
    case EnvFree(e) => e in c.dirs && c.icode.None?
    case Halt => c.icode.None?
    case _ => true
  }

  // The part of the address space that changes after boot: the user part, and the window on the
  // user part of the directory and its page tables.
  predicate Tracked(v: nat) { v < USER_PAGES || UVPT_PAGE <= v < UVPT_PAGE + USER_PDES }

  // The environment whose tables are loaded, if not kern_pgdir.
  function Active(c: Cpu): Option<nat> { if c.cur.Some? then c.cur else c.icode }

  function Proper(c: Cpu): Frame { if Active(c).Some? then RootOf(c.dirs, Active(c).value) else c.kdir }

  ghost predicate Coherent(c: Cpu) {
    && (forall v: nat, w: Word :: (v, w) in c.tlb && Tracked(v) ==> Pt(c.phys, c.cr3, v) == Some(w))
    && (forall i: nat, w: Word :: (i, w) in c.pdes ==> Present(w) && Cell(c.phys, c.cr3, i) == w)
  }

  ghost predicate CpuInv(c: Cpu, pins: seq<nat>) {
    && Inv(c.phys, c.dirs, pins, c.kdir) && Halves(c.phys, c.dirs, c.kdir)
    && (Active(c).Some? ==> Active(c).value in c.dirs) && (c.cur.Some? ==> c.icode.None?) && c.cr3 == Proper(c)
  }

  // The counts that no link accounts for, after an operation.
  function PinsAfter(c: Cpu, pins: seq<nat>, op: Op): seq<nat> {
    if op.PageAlloc? && c.phys.free != [] && c.phys.free[0] < |pins| then Bump(pins, c.phys.free[0], 1) else pins
  }

  // ---------- what the loaded tables translate

  // The place that translates page v in the tables of e.
  function PlaceOf(e: nat, v: nat): Ref {
    if v < USER_PAGES then Leaf(e, v) else Table(e, if v >= UVPT_PAGE then v - UVPT_PAGE else 0)
  }

  lemma EnvTranslates(s: Phys, dirs: map<nat, Frame>, e: nat, v: nat)
    requires e in dirs && MapsItself(s, dirs[e]) && Tracked(v)
    ensures Pt(s, dirs[e], v) == Link(s, dirs, PlaceOf(e, v))
  {
    if v >= USER_PAGES {
      assert v / 1024 == UVPT_SLOT && v % 1024 == v - UVPT_PAGE;
      assert Present(Word(dirs[e], READ_ONLY));
    }
  }

  lemma KernelTranslates(s: Phys, dirs: map<nat, Frame>, pins: seq<nat>, kdir: Frame, v: nat)
    requires KernelDir(s, dirs, pins, kdir) && MapsItself(s, kdir) && Tracked(v)
    ensures Pt(s, kdir, v) == None
  {
    if v >= USER_PAGES {
      assert v / 1024 == UVPT_SLOT && v % 1024 == v - UVPT_PAGE;
    } else {
      assert v / 1024 < USER_PDES;
    }
  }

  // No change of the tables bears on what the caches of c' hold: every place that changed was empty
  // before, or maps a page whose translation is dropped.
  ghost predicate Harmless(c: Cpu, c': Cpu) {
    Active(c).Some? ==> forall v: nat {:trigger Tracked(v)} :: Tracked(v) ==>
      var r := PlaceOf(Active(c).value, v);
      || Link(c'.phys, c'.dirs, r) == Link(c.phys, c.dirs, r)
      || Link(c.phys, c.dirs, r) == None
      || (v < USER_PAGES && forall w :: (v, w) !in c'.tlb)
  }

  /** A change of the tables under caches of which some entries may have been dropped. */
  lemma StaysCoherent(c: Cpu, c': Cpu, pins: seq<nat>, left: seq<nat>)
    requires CpuInv(c, pins) && Coherent(c) && CpuInv(c', left) && c'.cr3 == c.cr3 && c'.cur == c.cur
             && c'.icode == c.icode
    requires c'.tlb <= c.tlb && c'.pdes <= c.pdes && Harmless(c, c') && UpperSame(c.phys, c'.phys, c.cr3)
    ensures Coherent(c')
  {
    forall v: nat, w: Word | (v, w) in c'.tlb && Tracked(v) ensures Pt(c'.phys, c'.cr3, v) == Some(w) {
      assert (v, w) in c.tlb && Pt(c.phys, c.cr3, v) == Some(w);
      if Active(c).Some? {
        HalvesMapThemselves(c.phys, c.dirs, c.kdir, Active(c).value);
        HalvesMapThemselves(c'.phys, c'.dirs, c'.kdir, Active(c).value);
        EnvTranslates(c.phys, c.dirs, Active(c).value, v);
        EnvTranslates(c'.phys, c'.dirs, Active(c).value, v);
      } else {
        KernelTranslates(c.phys, c.dirs, pins, c.kdir, v);
      }
    }
    forall i: nat, w: Word | (i, w) in c'.pdes ensures Present(w) && Cell(c'.phys, c'.cr3, i) == w {
      PdeStays(c, c', pins, left, i, w);
    }
  }

  lemma PdeStays(c: Cpu, c': Cpu, pins: seq<nat>, left: seq<nat>, i: nat, w: Word)
    requires CpuInv(c, pins) && CpuInv(c', left) && c'.cr3 == c.cr3 && c'.cur == c.cur && c'.icode == c.icode
             && Harmless(c, c') && UpperSame(c.phys, c'.phys, c.cr3)
    requires Present(w) && Cell(c.phys, c.cr3, i) == w
    ensures Cell(c'.phys, c'.cr3, i) == w
  {
    if i < USER_PDES {
      assert Tracked(UVPT_PAGE + i);
      hide Halves;
      if Active(c).Some? { assert Link(c.phys, c.dirs, Table(Active(c).value, i)) == Some(w); }
    }
  }

  // ---------- one operation at a time

  // One entry of e was written, in a table that may be new.
  ghost predicate OneEntry(s: Phys, s': Phys, dirs: map<nat, Frame>, e: nat, v: nat) {
    && (forall r: Ref {:trigger Link(s', dirs, r)} :: r != Leaf(e, v) && r != Table(e, v / 1024) ==>
         Link(s', dirs, r) == Link(s, dirs, r))
    && (HasTable(s, dirs, e, v) ==> Link(s', dirs, Table(e, v / 1024)) == Link(s, dirs, Table(e, v / 1024)))
  }

  lemma EntryOp(c: Cpu, s': Phys, pins: seq<nat>, e: nat, v: nat)
    requires CpuInv(c, pins) && Coherent(c) && e in c.dirs && v < USER_PAGES && OneEntry(c.phys, s', c.dirs, e, v)
    requires Inv(s', c.dirs, pins, c.kdir) && UppersSame(c.phys, s', c.dirs, c.kdir)
    ensures CpuInv(Replace(c, e, v).(phys := s'), pins) && Coherent(Replace(c, e, v).(phys := s'))
  {
    var c' := Replace(c, e, v).(phys := s');
    HalvesKept(c.phys, s', c.dirs, c.dirs, c.kdir);
    LoadedUpper(c, s', pins);
    hide Inv, Halves, UppersSame, UpperSame, Coherent, Link;
    if Active(c).Some? {
      forall x: nat | Tracked(x)
        ensures var r := PlaceOf(Active(c).value, x);
                || Link(s', c.dirs, r) == Link(c.phys, c.dirs, r)
                || Link(c.phys, c.dirs, r) == None
                || (x < USER_PAGES && forall w :: (x, w) !in c'.tlb)
      {
        EntryPlace(c, e, v, x);
      }
    }
    StaysCoherent(c, c', pins, pins);
  }

  lemma InsertOp(c: Cpu, pins: seq<nat>, e: nat, pp: Frame, v: nat, perm: bv12)
    requires CpuInv(c, pins) && Coherent(c) && Allowed(c, PageInsert(e, pp, v, perm))
    ensures CpuInv(Step(c, PageInsert(e, pp, v, perm)), pins) && Coherent(Step(c, PageInsert(e, pp, v, perm)))
  {
    hide Inv, Insertable, Insert, Halves, UppersSame, Coherent, Link, Replace;
    InUse(c.phys, c.dirs, pins, c.kdir, pp);
    InsertStep(c.phys, c.dirs, pins, c.kdir, e, pp, v, perm);
    var (s', ok) := Insert(c.phys, c.dirs[e], pp, v, perm);
    if ok {
      InsertKeepsUppers(c.phys, c.dirs, pins, c.kdir, e, pp, v, perm);
      EntryOp(c, s', pins, e, v);
    }
  }

  lemma RegionOp(c: Cpu, pins: seq<nat>, e: nat, v: nat, perm: bv12)
    requires CpuInv(c, pins) && Coherent(c) && Allowed(c, RegionAlloc(e, v, perm))
    ensures CpuInv(Step(c, RegionAlloc(e, v, perm)), pins) && Coherent(Step(c, RegionAlloc(e, v, perm)))
  {
    hide Inv, Insertable, Insert, Halves, UppersSame, Coherent, Link, Replace;
    var s, dirs := c.phys, c.dirs;
    RegionAllocStep(s, dirs, pins, c.kdir, e, v, perm);
    if s.free != [] {
      TakenIsFrame(s, dirs, pins, c.kdir);
      TakeStep(s, dirs, pins, c.kdir, false);
      var t, pp := PageTake(s), s.free[0];
      SameTable(s, t, dirs, e, v);
      InsertStep(t, dirs, pins, c.kdir, e, pp, v, perm);
      var s' := EnvVm.RegionAlloc(s, dirs[e], v, perm).0;
      RegionKeepsUppers(s, dirs, pins, c.kdir, e, v, perm);
      forall r: Ref | r != Leaf(e, v) && r != Table(e, v / 1024) ensures Link(s', dirs, r) == Link(s, dirs, r) {
        assert Link(t, dirs, r) == Link(s, dirs, r);
      }
      assert Link(t, dirs, Table(e, v / 1024)) == Link(s, dirs, Table(e, v / 1024));
      EntryOp(c, s', pins, e, v);
    }
  }

  // Which places of the loaded environment a change at page v of e concerns.
  lemma EntryPlace(c: Cpu, e: nat, v: nat, x: nat)
    requires e in c.dirs && v < USER_PAGES && Tracked(x) && Active(c).Some?
    ensures var r := PlaceOf(Active(c).value, x);
            || (r != Leaf(e, v) && r != Table(e, v / 1024))
            || (r == Leaf(e, v) && x < USER_PAGES
                 && (Link(c.phys, c.dirs, r) == None || forall w :: (x, w) !in Replace(c, e, v).tlb))
            || (r == Table(e, v / 1024) && (Link(c.phys, c.dirs, r) == None || HasTable(c.phys, c.dirs, e, v)))
  {
    assert Link(c.phys, c.dirs, Leaf(e, v)) == Pt(c.phys, c.dirs[e], v);
  }

  lemma RemoveOp(c: Cpu, pins: seq<nat>, e: nat, v: nat)
    requires CpuInv(c, pins) && Coherent(c) && Allowed(c, PageRemove(e, v))
    ensures CpuInv(Step(c, PageRemove(e, v)), pins) && Coherent(Step(c, PageRemove(e, v)))
  {
    if Pt(c.phys, c.dirs[e], v).Some? {
      assert Link(c.phys, c.dirs, Leaf(e, v)).Some?;
      RemoveStep(c.phys, c.dirs, pins, c.kdir, e, v);
      RemoveKeepsUppers(c.phys, c.dirs, pins, c.kdir, e, v);
      hide Remove, Inv, Halves, UppersSame, Coherent, Link, Replace;
      EntryOp(c, Remove(c.phys, c.dirs[e], v), pins, e, v);
    }
  }

  lemma SetupOp(c: Cpu, pins: seq<nat>, e: nat)
    requires CpuInv(c, pins) && Coherent(c) && Allowed(c, SetupVm(e))
    ensures CpuInv(Step(c, SetupVm(e)), pins) && Coherent(Step(c, SetupVm(e)))
  {
    var c' := Step(c, SetupVm(e));
    SetupStep(c.phys, c.dirs, pins, c.kdir, e);
    if c.phys.free != [] {
      SetupHalves(c.phys, c.dirs, pins, c.kdir, e);
      SetupHalf(c.phys, c.dirs, pins, c.kdir, e);
      LoadedUpper(c, c'.phys, pins);
      hide Inv, Halves, UppersSame, UpperSame, Coherent, Link, EnvVm.SetupVm;
      ActiveKept(c, c');
      StaysCoherent(c, c', pins, pins);
    }
  }

  lemma LoadedUpper(c: Cpu, s': Phys, pins: seq<nat>)
    requires CpuInv(c, pins) && UppersSame(c.phys, s', c.dirs, c.kdir)
    ensures UpperSame(c.phys, s', c.cr3)
  {
    assert IsDir(c.dirs, c.kdir, c.cr3);
  }

  lemma LoadedDir(c: Cpu, pins: seq<nat>, e: nat)
    requires CpuInv(c, pins) && c.cur != Some(e) && c.icode.None?
    ensures IsDir(c.dirs - {e}, c.kdir, c.cr3)
  {
    if c.cur.Some? { assert c.cur.value in c.dirs - {e}; }
  }

  // No place of the loaded environment changed.
  lemma ActiveKept(c: Cpu, c': Cpu)
    requires Active(c).Some? ==> forall r: Ref {:trigger Link(c'.phys, c'.dirs, r)} :: r.e == Active(c).value ==>
               Link(c'.phys, c'.dirs, r) == Link(c.phys, c.dirs, r)
    ensures Harmless(c, c')
  {
    hide Link;
  }

  lemma FreeOp(c: Cpu, pins: seq<nat>, e: nat)
    requires CpuInv(c, pins) && Coherent(c) && Allowed(c, EnvFree(e))
    ensures CpuInv(Step(c, EnvFree(e)), pins) && Coherent(Step(c, EnvFree(e)))
  {
    var c' := Step(c, EnvFree(e));
    EnvFreeStep(c.phys, c.dirs, pins, c.kdir, e);
    FreeKeepsUppers(c.phys, c.dirs, pins, c.kdir, e);
    HalvesKept(c.phys, c'.phys, c.dirs, c.dirs - {e}, c.kdir);
    if c.cur != Some(e) { assert IsDir(c.dirs - {e}, c.kdir, c.cr3) by { LoadedDir(c, pins, e); } }
    hide Inv, Halves, UpperSame, IsDir, Coherent, Link, EnvVm.EnvFree, TablesOnly, OthersRead;
    if c.cur == Some(e) {
      EmptyCoherent(c');
    } else {
      ActiveKept(c, c');
      StaysCoherent(c, c', pins, pins);
    }
  }

  lemma AllocOp(c: Cpu, pins: seq<nat>)
    requires CpuInv(c, pins) && Coherent(c)
    ensures CpuInv(Step(c, PageAlloc), PinsAfter(c, pins, PageAlloc)) && Coherent(Step(c, PageAlloc))
  {
    if c.phys.free != [] {
      var c', left := Step(c, PageAlloc), PinsAfter(c, pins, PageAlloc);
      AllocStep(c.phys, c.dirs, pins, c.kdir);
      AllocKeepsUppers(c.phys, c.dirs, pins, c.kdir);
      HalvesKept(c.phys, c'.phys, c.dirs, c.dirs, c.kdir);
      LoadedUpper(c, c'.phys, pins);
      hide Inv, Halves, UppersSame, UpperSame, Coherent, AllocPinned;
      ActiveKept(c, c');
      StaysCoherent(c, c', pins, left);
    }
  }

  lemma EmptyCoherent(c: Cpu)
    requires c.tlb == {} && c.pdes == {}
    ensures Coherent(c)
  {}

  lemma StepCoherent(c: Cpu, pins: seq<nat>, op: Op)
    requires CpuInv(c, pins) && Coherent(c) && Allowed(c, op)
    ensures CpuInv(Step(c, op), PinsAfter(c, pins, op)) && Coherent(Step(c, op))
  {
    match op
    case PageAlloc => AllocOp(c, pins);
    case PageInsert(e, pp, v, perm) => InsertOp(c, pins, e, pp, v, perm);
    case RegionAlloc(e, v, perm) => RegionOp(c, pins, e, v, perm);
    case PageRemove(e, v) => RemoveOp(c, pins, e, v);
    case SetupVm(e) => SetupOp(c, pins, e);
    case EnvFree(e) => FreeOp(c, pins, e);
    case FillPde(i) => FillPdeOp(c, i);
    case Fill(v) => FillOp(c, v);
    case FillVia(v, pde) => FillViaOp(c, v, pde);
    case Evict(left, leftPdes) => EvictOp(c, left, leftPdes);
    case EnvRun(e) => if c.cur != Some(e) { EmptyCoherent(Step(c, op)); }
    case _ => EmptyCoherent(Step(c, op));
  }

  lemma FillPdeOp(c: Cpu, i: nat)
    requires Coherent(c)
    ensures Coherent(Step(c, FillPde(i)))
  {
    hide Pt;
  }

  lemma FillOp(c: Cpu, v: nat)
    requires Coherent(c)
    ensures Coherent(Step(c, Fill(v)))
  {}

  // A walk from a cached directory entry gives what one from the directory gives.
  lemma FillViaOp(c: Cpu, v: nat, pde: Word)
    requires Coherent(c)
    ensures Coherent(Step(c, FillVia(v, pde)))
  {
    if (v / 1024, pde) in c.pdes {
      assert Present(Cell(c.phys, pde.frame, v % 1024)) ==>
               Pt(c.phys, c.cr3, v) == Some(Cell(c.phys, pde.frame, v % 1024));
    }
    hide Cell, Pt;
  }

  lemma EvictOp(c: Cpu, left: set<(nat, Word)>, leftPdes: set<(nat, Word)>)
    requires Coherent(c)
    ensures Coherent(Step(c, Evict(left, leftPdes)))
  {}

  /** What each operation is for. */
  lemma OpTakesEffect(c: Cpu, pins: seq<nat>, op: Op)
    requires CpuInv(c, pins) && Allowed(c, op)
    ensures var c' := Step(c, op);
            match op
            case FillPde(i) => Present(Cell(c.phys, c.cr3, i)) ==> (i, Cell(c.phys, c.cr3, i)) in c'.pdes
            case Fill(v) => Pt(c.phys, c.cr3, v).Some? ==> (v, Pt(c.phys, c.cr3, v).value) in c'.tlb
            case FillVia(v, pde) =>
              (v / 1024, pde) in c.pdes && Present(Cell(c.phys, pde.frame, v % 1024)) ==>
                (v, Cell(c.phys, pde.frame, v % 1024)) in c'.tlb
            case PageInsert(e, pp, v, perm) =>
              HasTable(c.phys, c.dirs, e, v) || c.phys.free != [] ==>
                Link(c'.phys, c'.dirs, Leaf(e, v)) == Some(Word(pp, perm | PTE_P))
            case RegionAlloc(e, v, perm) =>
              c.phys.free != [] ==>
                Link(c'.phys, c'.dirs, Leaf(e, v)).Some?
                  && Link(c'.phys, c'.dirs, Leaf(e, v)).value.frame == c.phys.free[0]
            case PageRemove(e, v) => Link(c'.phys, c'.dirs, Leaf(e, v)) == None
            case SetupVm(e) => c.phys.free != [] ==> c'.dirs.Keys == c.dirs.Keys + {e}
            case IcodeBegin(e) => c'.cr3 == c.dirs[e] && c'.icode == Some(e)
            case IcodeEnd => c'.cr3 == c.kdir && c'.icode == None
            case EnvRun(e) => c'.cr3 == c.dirs[e] && c'.cur == Some(e)
            case EnvFree(e) => c'.dirs == c.dirs - {e} && c'.cur != Some(e) && c'.cr3 != c.dirs[e]
            case Halt => c'.cr3 == c.kdir && c'.cur == None
            case _ => true
  {
    match op
    case PageInsert(e, pp, v, perm) =>
      hide Inv, Insertable, Insert, Halves;
      InUse(c.phys, c.dirs, pins, c.kdir, pp);
      InsertStep(c.phys, c.dirs, pins, c.kdir, e, pp, v, perm);
    case RegionAlloc(e, v, perm) =>
      hide Inv, EnvVm.RegionAlloc, Halves;
      RegionAllocStep(c.phys, c.dirs, pins, c.kdir, e, v, perm);
    case PageRemove(e, v) => RemoveEffect(c, pins, e, v);
    case SetupVm(e) => if c.phys.free != [] { SetupEffect(c, pins, e); }
    case EnvFree(e) => OwnDirectory(c, pins, e);
    case _ =>
  }

  lemma SetupEffect(c: Cpu, pins: seq<nat>, e: nat)
    requires CpuInv(c, pins) && Allowed(c, SetupVm(e)) && c.phys.free != []
    ensures Step(c, SetupVm(e)).dirs.Keys == c.dirs.Keys + {e}
  {
    hide Inv, EnvVm.SetupVm, Halves;
    SetupStep(c.phys, c.dirs, pins, c.kdir, e);
    var p := EnvVm.SetupVm(c.phys, c.kdir).1;
    assert p.Some? && Step(c, SetupVm(e)).dirs == c.dirs[e := p.value];
  }

  lemma RemoveEffect(c: Cpu, pins: seq<nat>, e: nat, v: nat)
    requires CpuInv(c, pins) && Allowed(c, PageRemove(e, v))
    ensures Link(Step(c, PageRemove(e, v)).phys, Step(c, PageRemove(e, v)).dirs, Leaf(e, v)) == None
  {
    if Target(c.phys, c.dirs, Leaf(e, v)).Some? {
      RemoveStep(c.phys, c.dirs, pins, c.kdir, e, v);
      hide Inv, Remove, Halves;
    } else {
      NothingRemoved(c.phys, c.dirs, e, v);
    }
  }

  // No two address spaces share a directory, and kern_pgdir is nobody's.
  lemma OwnDirectory(c: Cpu, pins: seq<nat>, e: nat)
    requires CpuInv(c, pins) && Allowed(c, EnvFree(e))
    ensures c.dirs[e] != c.kdir && (c.cur.Some? && c.cur != Some(e) ==> c.cr3 != c.dirs[e])
  {
    assert Target(c.phys, c.dirs, Root(e)) == Some(c.dirs[e]) && Sole(c.phys, c.dirs, Root(e));
    if c.cur.Some? { assert Target(c.phys, c.dirs, Root(c.cur.value)) == Some(c.dirs[c.cur.value]); }
  }

  // ---------- whole runs

  ghost predicate IsRun(cs: seq<Cpu>, ops: seq<Op>) {
    && |cs| == |ops| + 1
    && forall i :: 0 <= i < |ops| ==> Allowed(cs[i], ops[i]) && cs[i + 1] == Step(cs[i], ops[i])
  }

  lemma {:induction false} RunKeeps(cs: seq<Cpu>, ops: seq<Op>, pins: seq<nat>, n: nat) returns (left: seq<nat>)
    requires IsRun(cs, ops) && n <= |ops| && CpuInv(cs[0], pins) && Coherent(cs[0])
    ensures CpuInv(cs[n], left) && Coherent(cs[n]) && cs[n].kdir == cs[0].kdir
    ensures UpperSame(cs[0].phys, cs[n].phys, cs[0].kdir)
  {
    hide CpuInv, Coherent, Step, Allowed, PinsAfter;
    left := pins;
    if n > 0 {
      left := RunKeeps(cs, ops, pins, n - 1);
      StepCoherent(cs[n - 1], left, ops[n - 1]);
      KernelKept(cs[n - 1], left, ops[n - 1]);
      left := PinsAfter(cs[n - 1], left, ops[n - 1]);
    }
  }

  /** TLB coherence: after any sequence of allocations, insertions, removals, changes of permission
      (which are insertions over what is there), switches, halts, set-ups, tear-downs and
      loadings of programs, with the processor caching and dropping what it likes in between, every
      cached translation of the user part and of the UVPT window is what a walk of the loaded
      tables gives, and every cached directory entry is what the directory holds. The kernel's half of
      the loaded directory is that of kern_pgdir at the start. */
  lemma TlbCoherent(cs: seq<Cpu>, ops: seq<Op>, pins: seq<nat>, n: nat)
    requires IsRun(cs, ops) && n <= |ops| && CpuInv(cs[0], pins) && cs[0].tlb == {} && cs[0].pdes == {}
    ensures forall v: nat, w: Word :: (v, w) in cs[n].tlb && Tracked(v) ==> Pt(cs[n].phys, cs[n].cr3, v) == Some(w)
    ensures forall i: nat, w: Word :: (i, w) in cs[n].pdes ==> Cell(cs[n].phys, cs[n].cr3, i) == w
    ensures forall i :: USER_PDES <= i < 1024 && i != UVPT_SLOT ==>
              Cell(cs[n].phys, cs[n].cr3, i) == Cell(cs[0].phys, cs[0].kdir, i)
  {
    EmptyCoherent(cs[0]);
    var left := RunKeeps(cs, ops, pins, n);
    LoadedHalf(cs[n], left);
  }

  lemma LoadedHalf(c: Cpu, pins: seq<nat>)
    requires CpuInv(c, pins)
    ensures forall i :: USER_PDES <= i < 1024 && i != UVPT_SLOT ==> Cell(c.phys, c.cr3, i) == Cell(c.phys, c.kdir, i)
  {
    if Active(c).Some? { assert KernelHalf(c.phys, c.cr3, c.kdir); }
  }

  // No operation writes the upper part of kern_pgdir.
  lemma KernelKept(c: Cpu, pins: seq<nat>, op: Op)
    requires CpuInv(c, pins) && Allowed(c, op)
    ensures Step(c, op).kdir == c.kdir && UpperSame(c.phys, Step(c, op).phys, c.kdir)
  {
    var s, dirs, kdir := c.phys, c.dirs, c.kdir;
    KernelIsDir(dirs, kdir);
    hide Inv, Halves, Insertable, Insert, Remove, EnvVm.SetupVm, EnvVm.EnvFree, AllocPinned, UpperSame, IsDir;
    match op
    case PageAlloc =>
      if s.free != [] { AllocKeepsUppers(s, dirs, pins, kdir); } else { NothingWritten(s, s, dirs, kdir); }
    case PageInsert(e, pp, v, perm) =>
      InUse(s, dirs, pins, kdir, pp);
      InsertKeepsUppers(s, dirs, pins, kdir, e, pp, v, perm);
      NothingWritten(s, s, dirs, kdir);
    case RegionAlloc(e, v, perm) =>
      NothingWritten(s, s, dirs, kdir);
      if s.free != [] { RegionKeepsUppers(s, dirs, pins, kdir, e, v, perm); }
    case PageRemove(e, v) =>
      if Target(s, dirs, Leaf(e, v)).Some? {
        RemoveKeepsUppers(s, dirs, pins, kdir, e, v);
      } else {
        NothingRemoved(s, dirs, e, v);
        NothingWritten(s, s, dirs, kdir);
      }
    case SetupVm(e) =>
      NothingWritten(s, s, dirs, kdir);
      if EnvVm.SetupVm(s, kdir).1.Some? { SetupHalf(s, dirs, pins, kdir, e); }
    case EnvFree(e) =>
      KernelIsDir(dirs - {e}, kdir);
      FreeKeepsUppers(s, dirs, pins, kdir, e);
    case _ => NothingWritten(s, s, dirs, kdir);
  }
}
