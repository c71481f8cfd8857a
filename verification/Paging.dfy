/** What the page tables mean: as finite maps from page numbers to pages, as the processor walks
    them, and as an environment sees them through UVPT. */
module Paging {
  import opened Mmu
  import opened Pmap
  import opened EnvVm

  // ---------- an address space as a finite map

  /** The user part of the address space of e: page number to page and flags. */
  function Space(s: Phys, dirs: map<nat, Frame>, e: nat): map<nat, Word> {
    map v: nat | v < USER_PAGES && Link(s, dirs, Leaf(e, v)).Some? :: Link(s, dirs, Leaf(e, v)).value
  }

  /** page_insert is put. It changes no other entry of any environment, also when it has to
      allocate a page table; putting a page where it already is leaves its count alone; and
      -E_NO_MEM changes nothing. */
  lemma InsertIsPut(s: Phys, dirs: map<nat, Frame>, pins: seq<nat>, kdir: nat, e: nat, pp: Frame, v: nat, perm: bv12)
    requires Insertable(s, dirs, pins, kdir, pp) && e in dirs && v < USER_PAGES
    ensures var (s', ok) := Insert(s, dirs[e], pp, v, perm);
            && (ok <==> HasTable(s, dirs, e, v) || s.free != [])
            && (!ok ==> s' == s)
            && (ok ==>
                && Space(s', dirs, e) == Space(s, dirs, e)[v := Word(pp, perm | PTE_P)]
                && (forall d: nat :: d != e ==> Space(s', dirs, d) == Space(s, dirs, d))
                && |s'.refs| == |s.refs|
                && (v in Space(s, dirs, e) && Space(s, dirs, e)[v].frame == pp ==> s'.refs[pp] == s.refs[pp]))
  {
    hide Insert, Inv, Insertable, HasTable;
    InsertStep(s, dirs, pins, kdir, e, pp, v, perm);
    var (s', ok) := Insert(s, dirs[e], pp, v, perm);
    if ok {
      Sizes(s, s', dirs, pins, kdir, pp);
      PutSpaces(s, s', dirs, e, v, Word(pp, perm | PTE_P));
      if v in Space(s, dirs, e) && Space(s, dirs, e)[v].frame == pp {
        MappedInUse(s, dirs, pins, kdir, pp, Leaf(e, v));
        SameCount(s, s', dirs, pins, kdir, e, v, pp);
      }
    }
  }

  lemma Sizes(s: Phys, s': Phys, dirs: map<nat, Frame>, pins: seq<nat>, kdir: nat, pp: nat)
    requires Insertable(s, dirs, pins, kdir, pp) && Inv(s', dirs, pins, kdir)
    ensures |s'.refs| == |s.refs| == |pins| && pp < |pins|
  {}

  // A page that is mapped somewhere is in use.
  lemma MappedInUse(s: Phys, dirs: map<nat, Frame>, pins: seq<nat>, kdir: nat, pp: nat, r: Ref)
    requires Insertable(s, dirs, pins, kdir, pp) && Target(s, dirs, r) == Some(pp)
    ensures Inv(s, dirs, pins, kdir)
  {
    SameMem(s, Back(s, pp), dirs, r);
    if s.refs[pp] == 0 { FreePageUnused(Back(s, pp), dirs, pins, kdir, pp, r); }
  }

  lemma PutSpaces(s: Phys, s': Phys, dirs: map<nat, Frame>, e: nat, v: nat, w: Word)
    requires v < USER_PAGES && Link(s', dirs, Leaf(e, v)) == Some(w)
    requires forall r {:trigger Link(s', dirs, r)} :: r != Leaf(e, v) && r != Table(e, v / 1024) ==>
               Link(s', dirs, r) == Link(s, dirs, r)
    ensures Space(s', dirs, e) == Space(s, dirs, e)[v := w]
    ensures forall d: nat :: d != e ==> Space(s', dirs, d) == Space(s, dirs, d)
  {
    hide Link;
    forall d: nat | d != e ensures Space(s', dirs, d) == Space(s, dirs, d) {
      forall u: nat ensures Link(s', dirs, Leaf(d, u)) == Link(s, dirs, Leaf(d, u)) {}
    }
  }

  lemma SameCount(s: Phys, s': Phys, dirs: map<nat, Frame>, pins: seq<nat>, kdir: nat, e: nat, v: nat, pp: nat)
    requires Inv(s, dirs, pins, kdir) && Inv(s', dirs, pins, kdir) && pp < |pins|
    requires Target(s, dirs, Leaf(e, v)) == Some(pp) == Target(s', dirs, Leaf(e, v))
    requires forall r {:trigger Link(s', dirs, r)} :: r != Leaf(e, v) && r != Table(e, v / 1024) ==>
               Link(s', dirs, r) == Link(s, dirs, r)
    ensures s'.refs[pp] == s.refs[pp]
  {
    forall r ensures r in Holders(s', dirs, pp) <==> r in Holders(s, dirs, pp) {
      HoldersAreTargets(s, dirs, pp, r);
      HoldersAreTargets(s', dirs, pp, r);
      if r == Table(e, v / 1024) {
        LeafPagesAreData(s, dirs, e, v, r);
        LeafPagesAreData(s', dirs, e, v, r);
      }
    }
    assert Holders(s', dirs, pp) == Holders(s, dirs, pp);
  }

  lemma RemovedLeaf(s: Phys, dirs: map<nat, Frame>, pins: seq<nat>, kdir: nat, e: nat, v: nat)
    requires Inv(s, dirs, pins, kdir) && e in dirs && v < USER_PAGES
    ensures forall d: nat, u: nat :: Link(Remove(s, dirs[e], v), dirs, Leaf(d, u)) == if d == e && u == v then None
              else Link(s, dirs, Leaf(d, u))
  {
    if Target(s, dirs, Leaf(e, v)).Some? {
      hide Remove, Inv;
      RemoveStep(s, dirs, pins, kdir, e, v);
    } else {
      assert Remove(s, dirs[e], v) == s;
    }
  }

  /** page_remove is delete, and page_lookup is get. */
  lemma RemoveIsDelete(s: Phys, dirs: map<nat, Frame>, pins: seq<nat>, kdir: nat, e: nat, v: nat)
    requires Inv(s, dirs, pins, kdir) && e in dirs && v < USER_PAGES
    ensures var s' := Remove(s, dirs[e], v);
            && Space(s', dirs, e) == Space(s, dirs, e) - {v}
            && (forall d: nat :: d != e ==> Space(s', dirs, d) == Space(s, dirs, d))
    ensures Pt(s, dirs[e], v) == if v in Space(s, dirs, e) then Some(Space(s, dirs, e)[v]) else None
  {
    var s' := Remove(s, dirs[e], v);
    hide Remove, Inv;
    RemovedLeaf(s, dirs, pins, kdir, e, v);
    forall d: nat | d != e ensures Space(s', dirs, d) == Space(s, dirs, d) {
      forall u: nat ensures Link(s', dirs, Leaf(d, u)) == Link(s, dirs, Leaf(d, u)) {}
    }
  }

  // ---------- the limit of the 16-bit counts

  /** Mapping a page at an address where nothing is mapped keeps the counts true, whatever the
      pins, exactly when its count is below 2^16 - 1: at the limit pp_ref wraps to 0. */
  lemma CountsTrueUntilWrap(s: Phys,
                            dirs: map<nat, Frame>, pins: seq<nat>, kdir: nat, e: nat, pp: Frame, v: nat, perm: bv12)
    requires Inv(s, dirs, pins, kdir) && HasTable(s, dirs, e, v) && Target(s, dirs, Leaf(e, v)) == None
    requires Mappable(s, dirs, kdir, pp)
    ensures (exists pins' :: Counted(Insert(s, dirs[e], pp, v, perm).0, dirs, pins')) <==> s.refs[pp] < 0xFFFF
  {
    var s' := Insert(s, dirs[e], pp, v, perm).0;
    if s.refs[pp] < 0xFFFF {
      InUse(s, dirs, pins, kdir, pp);
      InsertStep(s, dirs, pins, kdir, e, pp, v, perm);
    } else {
      assert Link(s, dirs, Table(e, v / 1024)).Some?
             && Target(s, dirs, Table(e, v / 1024)) == Some(TableOf(s, dirs, e, v));
      assert s'.refs[pp] == 0;
      WriteLeaf(IncRef(s, pp), dirs, e, v, Word(pp, perm | PTE_P), Leaf(e, v)) by { OwnedAfterInc(s, dirs, pp); }
      forall pins': seq<nat> ensures !Counted(s', dirs, pins') { NotCounted(s', dirs, pins', pp, Leaf(e, v)); }
    }
  }

  lemma NotCounted(s: Phys, dirs: map<nat, Frame>, pins: seq<nat>, p: nat, r: Ref)
    requires p < |s.refs| && s.refs[p] == 0 && Target(s, dirs, r) == Some(p)
    ensures !Counted(s, dirs, pins)
  {
    HoldersAreTargets(s, dirs, p, r);
    CardinalWithout(Holders(s, dirs, p), r);
  }

  lemma OwnedAfterInc(s: Phys, dirs: map<nat, Frame>, p: nat)
    requires Owned(s, dirs)
    ensures Owned(IncRef(s, p), dirs) && forall r :: Link(IncRef(s, p), dirs, r) == Link(s, dirs, r)
  {
    var s' := IncRef(s, p);
    forall r
      ensures Link(s', dirs, r) == Link(s, dirs, r) && Target(s', dirs, r) == Target(s, dirs, r)
    {
      SameMem(s, s', dirs, r);
    }
    forall r: Ref | !r.Leaf? && Target(s', dirs, r).Some? ensures Sole(s', dirs, r) { assert Sole(s, dirs, r); }
  }

  // ---------- the tables seen through UVPT

  const UVPT_PAGE := 979968
  const READ_ONLY: bv12 := PTE_P | PTE_U

  // The slot of a page directory through which it maps itself.
  ghost predicate MapsItself(s: Phys, d: Frame) {
    Cell(s, d, UVPT_SLOT) == Word(d, READ_ONLY)
  }

  /** The processor's walk for a user access to page v: both levels present and user, and
      writable for a store. */
  function HwWalk(s: Phys, dir: nat, v: nat, write: bool): Option<Frame> {
    var pde := Cell(s, dir, v / 1024);
    var pte := Cell(s, pde.frame, v % 1024);
    if Present(pde) && User(pde) && (write ==> Writable(pde)) && Present(pte) && User(pte)
      && (write ==> Writable(pte)) then Some(pte.frame)
    else None
  }

  // A user load of word i of page v; None is a page fault.
  function HwLoad(s: Phys, dir: nat, v: nat, i: nat): Option<Word> {
    match HwWalk(s, dir, v, false) case None => None case Some(f) => Some(Cell(s, f, i))
  }

  /** Where the directory entry is present and open, uvpt[n] reads the page table entry of page n;
      where it is absent, it faults. */
  lemma UvptReads(s: Phys, d: Frame, n: nat)
    requires MapsItself(s, d) && n < 0x10_0000
    requires Present(Cell(s, d, n / 1024)) ==> User(Cell(s, d, n / 1024))
    ensures HwLoad(s, d, UVPT_PAGE + n / 1024, n % 1024)
         == if Present(Cell(s, d, n / 1024)) then Some(Cell(s, Cell(s, d, n / 1024).frame, n % 1024)) else None
  {
    assert (UVPT_PAGE + n / 1024) / 1024 == UVPT_SLOT && (UVPT_PAGE + n / 1024) % 1024 == n / 1024;
    assert Present(Word(d, READ_ONLY)) && User(Word(d, READ_ONLY));
  }

  /** uvpd[i] reads directory entry i. */
  lemma UvpdReads(s: Phys, d: Frame, i: nat)
    requires MapsItself(s, d) && i < 1024
    ensures HwLoad(s, d, UVPT_PAGE + UVPT_SLOT, i) == Some(Cell(s, d, i))
  {
    assert (UVPT_PAGE + UVPT_SLOT) / 1024 == UVPT_SLOT && (UVPT_PAGE + UVPT_SLOT) % 1024 == UVPT_SLOT;
    assert Present(Word(d, READ_ONLY)) && User(Word(d, READ_ONLY));
  }

  /** Nothing in that window takes a user store, whatever the tables hold: no environment can
      write its own page tables through it. */
  lemma UvptReadOnly(s: Phys, d: Frame, k: nat)
    requires MapsItself(s, d) && k < 1024
    ensures HwWalk(s, d, UVPT_PAGE + k, true) == None
  {
    assert (UVPT_PAGE + k) / 1024 == UVPT_SLOT;
    assert !Writable(Word(d, READ_ONLY));
  }
}
