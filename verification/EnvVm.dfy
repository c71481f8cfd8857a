/** Building and tearing down an address space: env_setup_vm and env_free of kern/env.c,
    as functions on the physical memory of module Pmap. */
module EnvVm {
  import opened Mmu
  import opened Pmap

  // The directory slot through which a page directory maps itself: PDX(UVPT).
  const UVPT_SLOT := 957

  // env_setup_vm; None stands for -E_NO_MEM
  function SetupVm(s: Phys, kdir: nat): (Phys, Option<nat>) {
    if s.free == [] || s.free[0] >= 0x10_0000 then (s, None)
    else
      var p := s.free[0];
      var s1 := AllocPinned(s);
      var dir := PageWords(s1, kdir)[UVPT_SLOT := Word(p, PTE_P | PTE_U)];
      (if p < |s1.mem| then s1.(mem := s1.mem[p := dir]) else s1, Some(p))
  }

  /** A new directory is counted once, maps no user page, holds what kern_pgdir holds above UTOP but
      for its own mapping at UVPT, and disturbs nobody. */
  lemma SetupStep(s: Phys, dirs: map<nat, Frame>, pins: seq<nat>, kdir: nat, e: nat)
    requires Inv(s, dirs, pins, kdir) && e !in dirs
    ensures var (s', p) := SetupVm(s, kdir);
            && (p.None? <==> s.free == [])
            && (p.None? ==> s' == s)
            && (p.Some? ==>
                && p.value < 0x10_0000 && Inv(s', dirs[e := p.value], pins, kdir)
                && (forall r {:trigger Link(s', dirs[e := p.value], r)} :: r != Root(e) ==>
                     Link(s', dirs[e := p.value], r) == Link(s, dirs, r))
                && (forall q: nat :: q != p.value ==> PageWords(s', q) == PageWords(s, q))
                && (forall i {:trigger Cell(s', p.value, i)} :: USER_PDES <= i < 1024 ==>
                     Cell(s', p.value, i) == if i == UVPT_SLOT then Word(p.value, PTE_P | PTE_U) else Cell(s, kdir, i))
                && Unused(s, dirs, p.value) && p.value == s.free[0] && s'.free == s.free[1..])
  {
    if s.free != [] {
      var p := s.free[0];
      AllocStep(s, dirs, pins, kdir);
      assert p in s.free;
      var s1, pins1, s' := AllocPinned(s), Bump(pins, p, 1), SetupVm(s, kdir).0;
      var dirs' := dirs[e := p];
      forall i | 0 <= i < USER_PDES ensures !Present(Cell(s', p, i)) {
        assert Cell(s', p, i) == Cell(s1, kdir, i);
      }
      forall r
        ensures r != Root(e) ==> Link(s', dirs', r) == Link(s1, dirs, r) && Target(s', dirs', r) == Target(s1, dirs, r)
      {
        DirectoryWrite(s1, s', dirs, p, e, r);
      }
      Relink(s1, s', dirs, dirs', pins1, pins, kdir, Root(e));
    }
  }

  lemma DirectoryWrite(s: Phys, s': Phys, dirs: map<nat, Frame>, p: Frame, e: nat, r: Ref)
    requires p < |s.mem| && s' == s.(mem := s.mem[p := PageWords(s', p)]) && e !in dirs
    requires Unused(s, dirs, p)
    requires Blank(s', p, USER_PDES)
    ensures r != Root(e) ==> Link(s', dirs[e := p], r) == Link(s, dirs, r)
  {
    assert forall q, i :: q != p ==> Cell(s', q, i) == Cell(s, q, i);
    if (r.Table? || r.Leaf?) && r.e != e {
      var i := if r.Table? then r.i else r.v / 1024;
      assert Target(s, dirs, Root(r.e)) != Some(p);
      assert Target(s, dirs, Table(r.e, i)) != Some(p);
    }
  }

  // ---------- env_free

  // The inner loop: unmap the entries [j, 1024) of the page table `pt` of slot i.
  function FreeLeaves(s: Phys, dir: nat, pt: nat, i: nat, j: nat): Phys
    decreases 1024 - j
  {
    if j >= 1024 then s
    else FreeLeaves(if Present(Cell(s, pt, j)) then Remove(s, dir, 1024 * i + j) else s, dir, pt, i, j + 1)
  }

  // One round of the outer loop, for a slot that holds a page table.
  function FreeTable(s: Phys, dir: nat, i: nat): Phys {
    var pt := Cell(s, dir, i).frame;
    Decref(SetCell(FreeLeaves(s, dir, pt, i, 0), dir, i, ZERO), pt)
  }

  function FreeTables(s: Phys, dir: nat, i: nat): Phys
    decreases USER_PDES - i
  {
    if i >= USER_PDES then s
    else FreeTables(if Present(Cell(s, dir, i)) then FreeTable(s, dir, i) else s, dir, i + 1)
  }

  function EnvFree(s: Phys, dir: nat): Phys {
    Decref(FreeTables(s, dir, 0), dir)
  }

  // The entries [lo, hi) of e, and its directory slots [from, to).
  predicate Within(r: Ref, e: nat, lo: nat, hi: nat, from: nat, to: nat) {
    match r
    case Root(_) => false
    case Table(d, i) => d == e && from <= i < to
    case Leaf(d, v) => d == e && lo <= v < hi
  }

  // s' is s with those places emptied.
  ghost predicate Emptied(s: Phys, s': Phys, dirs: map<nat, Frame>, e: nat, lo: nat, hi: nat, from: nat, to: nat) {
    forall r {:trigger Link(s', dirs, r)} ::
      Link(s', dirs, r) == if Within(r, e, lo, hi, from, to) then None else Link(s, dirs, r)
  }

  // q is neither the directory nor a page table of e.
  ghost predicate NotTable(s: Phys, dirs: map<nat, Frame>, e: nat, q: nat) {
    forall r: Ref {:trigger Target(s, dirs, r)} :: !r.Leaf? && r.e == e ==> Target(s, dirs, r) != Some(q)
  }

  // Only the directory and the page tables of e are written.
  ghost predicate TablesOnly(s: Phys, s': Phys, dirs: map<nat, Frame>, e: nat) {
    forall q: nat {:trigger PageWords(s', q)} :: NotTable(s, dirs, e, q) ==> PageWords(s', q) == PageWords(s, q)
  }

  // Every page that an environment other than e maps reads as before.
  ghost predicate OthersRead(s: Phys, s': Phys, dirs: map<nat, Frame>, e: nat) {
    forall d, u {:trigger Link(s, dirs, Leaf(d, u))} :: d != e && Link(s, dirs, Leaf(d, u)).Some? ==>
      PageWords(s', Link(s, dirs, Leaf(d, u)).value.frame) == PageWords(s, Link(s, dirs, Leaf(d, u)).value.frame)
  }

  lemma Chain(s: Phys, s1: Phys, s2: Phys, dirs: map<nat, Frame>, e: nat,
              lo: nat, mid: nat, hi: nat, from: nat, via: nat, to: nat)
    requires lo <= mid <= hi && from <= via <= to
    requires Emptied(s, s1, dirs, e, lo, mid, from, via) && TablesOnly(s, s1, dirs, e)
    requires Emptied(s1, s2, dirs, e, mid, hi, via, to) && TablesOnly(s1, s2, dirs, e)
    ensures Emptied(s, s2, dirs, e, lo, hi, from, to) && TablesOnly(s, s2, dirs, e)
  {
    forall q: nat | NotTable(s, dirs, e, q) ensures PageWords(s2, q) == PageWords(s, q) {
      forall r: Ref | !r.Leaf? && r.e == e ensures Target(s1, dirs, r) != Some(q) {
        assert Link(s1, dirs, r) == if Within(r, e, lo, mid, from, via) then None else Link(s, dirs, r);
        assert Target(s, dirs, r) != Some(q);
      }
      assert NotTable(s1, dirs, e, q);
    }
  }

  // Writing one table or directory of e.
  lemma HiddenWrite(s: Phys, s': Phys, dirs: map<nat, Frame>, e: nat, r: Ref)
    requires !r.Leaf? && r.e == e && Target(s, dirs, r).Some?
    requires forall q: nat :: Some(q) != Target(s, dirs, r) ==> PageWords(s', q) == PageWords(s, q)
    ensures TablesOnly(s, s', dirs, e)
  {}

  lemma OneLeafStep(s: Phys, dirs: map<nat, Frame>, pins: seq<nat>, kdir: nat, e: nat, i: nat, j: nat)
    requires Inv(s, dirs, pins, kdir) && e in dirs && i < USER_PDES && Present(Cell(s, dirs[e], i)) && j < 1024
    ensures var pt := Cell(s, dirs[e], i).frame;
            var s' := if Present(Cell(s, pt, j)) then Remove(s, dirs[e], 1024 * i + j) else s;
            && Inv(s', dirs, pins, kdir) && Cell(s', dirs[e], i) == Cell(s, dirs[e], i)
            && Emptied(s, s', dirs, e, 1024 * i + j, 1024 * i + j + 1, 0, 0) && TablesOnly(s, s', dirs, e)
  {
    if Present(Cell(s, Cell(s, dirs[e], i).frame, j)) {
      LeafGone(s, dirs, pins, kdir, e, i, j);
      hide Inv;
      OneLeafEmptied(s, Remove(s, dirs[e], 1024 * i + j), dirs, e, 1024 * i + j);
    }
  }

  // Unmapping the j-th page of slot i, before what it means for Emptied.
  lemma LeafGone(s: Phys, dirs: map<nat, Frame>, pins: seq<nat>, kdir: nat, e: nat, i: nat, j: nat)
    requires Inv(s, dirs, pins, kdir) && e in dirs && i < USER_PDES && Present(Cell(s, dirs[e], i)) && j < 1024
    requires Present(Cell(s, Cell(s, dirs[e], i).frame, j))
    ensures var s', v := Remove(s, dirs[e], 1024 * i + j), 1024 * i + j;
            && Inv(s', dirs, pins, kdir) && Cell(s', dirs[e], i) == Cell(s, dirs[e], i)
            && Relinked(s, s', dirs, Leaf(e, v), None) && TablesOnly(s, s', dirs, e)
  {
    var pt, v := Cell(s, dirs[e], i).frame, 1024 * i + j;
    LeafThere(s, dirs, e, i, j);
    var s' := Remove(s, dirs[e], v);
    RemoveStep(s, dirs, pins, kdir, e, v);
    RemoveWrites(s, dirs[e], v, pt);
    hide Inv, Remove, Relinked, TablesOnly;
    HiddenWrite(s, s', dirs, e, Table(e, i));
    TableStays(s, s', dirs, e, i, v);
  }

  lemma LeafThere(s: Phys, dirs: map<nat, Frame>, e: nat, i: nat, j: nat)
    requires e in dirs && i < USER_PDES && Present(Cell(s, dirs[e], i)) && j < 1024
    requires Present(Cell(s, Cell(s, dirs[e], i).frame, j))
    ensures Target(s, dirs, Table(e, i)) == Some(Cell(s, dirs[e], i).frame)
    ensures Target(s, dirs, Leaf(e, 1024 * i + j)).Some?
    ensures (1024 * i + j) / 1024 == i && (1024 * i + j) % 1024 == j && 1024 * i + j < USER_PAGES
  {}

  lemma RemoveWrites(s: Phys, dir: nat, v: nat, pt: nat)
    requires Pt(s, dir, v).Some? && Cell(s, dir, v / 1024).frame == pt
    ensures forall q: nat :: q != pt ==> PageWords(Remove(s, dir, v), q) == PageWords(s, q)
  {
    OneTableWritten(s, Remove(s, dir, v), pt, v % 1024);
  }

  lemma TableStays(s: Phys, s': Phys, dirs: map<nat, Frame>, e: nat, i: nat, v: nat)
    requires Relinked(s, s', dirs, Leaf(e, v), None) && e in dirs && i < USER_PDES && Present(Cell(s, dirs[e], i))
    ensures Cell(s', dirs[e], i) == Cell(s, dirs[e], i)
  {
    assert Link(s', dirs, Table(e, i)) == Link(s, dirs, Table(e, i));
  }

  lemma OneTableWritten(s: Phys, s': Phys, t: nat, j: nat)
    requires s'.mem == SetCell(s, t, j, ZERO).mem
    ensures forall q: nat :: q != t ==> PageWords(s', q) == PageWords(s, q)
  {}

  lemma OneLeafEmptied(s: Phys, s': Phys, dirs: map<nat, Frame>, e: nat, v: nat)
    requires Relinked(s, s', dirs, Leaf(e, v), None)
    ensures Emptied(s, s', dirs, e, v, v + 1, 0, 0)
  {}

  lemma {:induction false} FreeLeavesStep(s: Phys,
                                          dirs: map<nat, Frame>, pins: seq<nat>, kdir: nat, e: nat, i: nat, j: nat)
    requires Inv(s, dirs, pins, kdir) && e in dirs && i < USER_PDES && Present(Cell(s, dirs[e], i)) && j <= 1024
    ensures var s' := FreeLeaves(s, dirs[e], Cell(s, dirs[e], i).frame, i, j);
            && Inv(s', dirs, pins, kdir) && Cell(s', dirs[e], i) == Cell(s, dirs[e], i)
            && Emptied(s, s', dirs, e, 1024 * i + j, 1024 * i + 1024, 0, 0) && TablesOnly(s, s', dirs, e)
    decreases 1024 - j
  {
    if j < 1024 {
      OneLeafStep(s, dirs, pins, kdir, e, i, j);
      var pt := Cell(s, dirs[e], i).frame;
      var s1 := if Present(Cell(s, pt, j)) then Remove(s, dirs[e], 1024 * i + j) else s;
      FreeLeavesStep(s1, dirs, pins, kdir, e, i, j + 1);
      Chain(s, s1, FreeLeaves(s1, dirs[e], pt, i, j + 1), dirs, e, 1024 * i + j, 1024 * i + j + 1, 1024 * i + 1024,
        0, 0, 0);
    }
  }

  lemma ClearSlot(s: Phys, dirs: map<nat, Frame>, e: nat, i: nat, r: Ref)
    requires |s.mem| == |s.refs| && Owned(s, dirs) && e in dirs && i < USER_PDES
    requires forall j :: 1024 * i <= j < 1024 * i + 1024 ==> Link(s, dirs, Leaf(e, j)) == None
    ensures Link(SetCell(s, dirs[e], i, ZERO), dirs, r) == if r == Table(e, i) then None else Link(s, dirs, r)
  {
    var d, s' := dirs[e], SetCell(s, dirs[e], i, ZERO);
    assert Target(s, dirs, Root(e)) == Some(d) && Sole(s, dirs, Root(e));
    assert forall q, j :: (q != d || j != i) ==> Cell(s', q, j) == Cell(s, q, j);
    if r.Table? || r.Leaf? {
      var k := if r.Table? then r.i else r.v / 1024;
      if Target(s, dirs, Root(r.e)) == Some(d) { assert Root(r.e) == Root(e); }
      assert Target(s, dirs, Table(r.e, k)) != Some(d);
    }
  }

  /** Unhooking an emptied page table returns its page. */
  lemma DropTableStep(s: Phys, dirs: map<nat, Frame>, pins: seq<nat>, kdir: nat, e: nat, i: nat)
    requires Inv(s, dirs, pins, kdir) && e in dirs && i < USER_PDES && Present(Cell(s, dirs[e], i))
    requires forall j :: 1024 * i <= j < 1024 * i + 1024 ==> Link(s, dirs, Leaf(e, j)) == None
    ensures var s' := Decref(SetCell(s, dirs[e], i, ZERO), Cell(s, dirs[e], i).frame);
            && Inv(s', dirs, pins, kdir) && TablesOnly(s, s', dirs, e)
            && Emptied(s, s', dirs, e, 1024 * i + 1024, 1024 * i + 1024, i, i + 1)
  {
    var t, r0 := Cell(s, dirs[e], i).frame, Table(e, i);
    var s1, s' := SetCell(s, dirs[e], i, ZERO), Decref(SetCell(s, dirs[e], i, ZERO), t);
    HoldersAreTargets(s, dirs, t, r0);
    assert Target(s, dirs, r0) == Some(t) && Target(s, dirs, Root(e)) == Some(dirs[e]);
    forall r ensures Link(s', dirs, r) == (if r == r0 then None else Link(s, dirs, r))
                  && (r != r0 ==> Target(s', dirs, r) == Target(s, dirs, r))
    {
      ClearSlot(s, dirs, e, i, r);
      SameMem(s1, s', dirs, r);
    }
    assert s'.refs == s.refs[t := s.refs[t] - 1] && t !in s.free;
    Relink(s, s', dirs, dirs, pins, pins, kdir, r0);
    HiddenWrite(s, s', dirs, e, Root(e));
  }

  lemma FreeTableStep(s: Phys, dirs: map<nat, Frame>, pins: seq<nat>, kdir: nat, e: nat, i: nat)
    requires Inv(s, dirs, pins, kdir) && e in dirs && i < USER_PDES && Present(Cell(s, dirs[e], i))
    ensures var s' := FreeTable(s, dirs[e], i);
            && Inv(s', dirs, pins, kdir) && TablesOnly(s, s', dirs, e)
            && Emptied(s, s', dirs, e, 1024 * i, 1024 * i + 1024, i, i + 1)
  {
    var pt := Cell(s, dirs[e], i).frame;
    FreeLeavesStep(s, dirs, pins, kdir, e, i, 0);
    var s1 := FreeLeaves(s, dirs[e], pt, i, 0);
    SlotEmpty(s, s1, dirs, e, i);
    hide Inv, Emptied, TablesOnly, FreeLeaves;
    DropTableStep(s1, dirs, pins, kdir, e, i);
    EmptiedSlots(s, s1, dirs, e, 1024 * i, 1024 * i + 1024, i);
    Chain(s, s1, FreeTable(s, dirs[e], i), dirs, e, 1024 * i, 1024 * i + 1024, 1024 * i + 1024, i, i, i + 1);
  }

  lemma SlotEmpty(s: Phys, s': Phys, dirs: map<nat, Frame>, e: nat, i: nat)
    requires Emptied(s, s', dirs, e, 1024 * i, 1024 * i + 1024, 0, 0)
    ensures forall j :: 1024 * i <= j < 1024 * i + 1024 ==> Link(s', dirs, Leaf(e, j)) == None
  {}

  lemma EmptiedSlots(s: Phys, s': Phys, dirs: map<nat, Frame>, e: nat, lo: nat, hi: nat, i: nat)
    requires Emptied(s, s', dirs, e, lo, hi, 0, 0)
    ensures Emptied(s, s', dirs, e, lo, hi, i, i)
  {}

  lemma AbsentTable(s: Phys, dirs: map<nat, Frame>, e: nat, i: nat)
    requires e in dirs && i < USER_PDES && !Present(Cell(s, dirs[e], i))
    ensures Emptied(s, s, dirs, e, 1024 * i, 1024 * i + 1024, i, i + 1)
  {}

  lemma {:induction false} FreeTablesStep(s: Phys, dirs: map<nat, Frame>, pins: seq<nat>, kdir: nat, e: nat, i: nat)
    requires Inv(s, dirs, pins, kdir) && e in dirs && i <= USER_PDES
    ensures var s' := FreeTables(s, dirs[e], i);
            && Inv(s', dirs, pins, kdir) && TablesOnly(s, s', dirs, e)
            && Emptied(s, s', dirs, e, 1024 * i, USER_PAGES, i, USER_PDES)
    decreases USER_PDES - i
  {
    if i < USER_PDES {
      var s1 := if Present(Cell(s, dirs[e], i)) then FreeTable(s, dirs[e], i) else s;
      if Present(Cell(s, dirs[e], i)) { FreeTableStep(s, dirs, pins, kdir, e, i); } else { AbsentTable(s, dirs, e, i); }
      FreeTablesStep(s1, dirs, pins, kdir, e, i + 1);
      Chain(s, s1, FreeTables(s1, dirs[e], i + 1), dirs, e, 1024 * i, 1024 * i + 1024, USER_PAGES, i, i + 1, USER_PDES);
    }
  }

  lemma WithoutEnv(s: Phys, s': Phys, dirs: map<nat, Frame>, e: nat, r: Ref)
    requires s'.mem == s.mem && e in dirs
    requires r.e == e ==> r == Root(e) || Link(s, dirs, r) == None
    ensures Link(s', dirs - {e}, r) == if r.e == e then None else Link(s, dirs, r)
  {}

  lemma DropRootStep(s: Phys, dirs: map<nat, Frame>, pins: seq<nat>, kdir: nat, e: nat)
    requires Inv(s, dirs, pins, kdir) && e in dirs
    requires forall r: Ref :: r.e == e && r != Root(e) ==> Link(s, dirs, r) == None
    ensures var s' := Decref(s, dirs[e]);
            && Inv(s', dirs - {e}, pins, kdir) && s'.mem == s.mem
            && (forall r {:trigger Link(s', dirs - {e}, r)} :: Link(s', dirs - {e}, r) == if r.e == e then None
                 else Link(s, dirs, r))
  {
    var s', d, dirs' := Decref(s, dirs[e]), dirs[e], dirs - {e};
    HoldersAreTargets(s, dirs, d, Root(e));
    assert Target(s, dirs, Root(e)) == Some(d);
    forall r ensures Link(s', dirs', r) == (if r.e == e then None else Link(s, dirs, r))
                  && (r != Root(e) ==> Target(s', dirs', r) == Target(s, dirs, r))
    {
      WithoutEnv(s, s', dirs, e, r);
    }
    assert s'.refs == s.refs[d := s.refs[d] - 1] && d !in s.free;
    Relink(s, s', dirs, dirs', pins, pins, kdir, Root(e));
  }

  /** env_free gives back exactly the references of e: what every other environment holds,
      maps and can read is untouched, and every page whose last reference went is free. */
  lemma EnvFreeStep(s: Phys, dirs: map<nat, Frame>, pins: seq<nat>, kdir: nat, e: nat)
    requires Inv(s, dirs, pins, kdir) && e in dirs
    ensures var s' := EnvFree(s, dirs[e]);
            && Inv(s', dirs - {e}, pins, kdir) && OthersRead(s, s', dirs, e) && TablesOnly(s, s', dirs, e)
            && (forall r {:trigger Link(s', dirs - {e}, r)} :: Link(s', dirs - {e}, r) == if r.e == e then None
                 else Link(s, dirs, r))
  {
    FreeTablesStep(s, dirs, pins, kdir, e, 0);
    var s1, s' := FreeTables(s, dirs[e], 0), EnvFree(s, dirs[e]);
    assert Owned(s, dirs);
    hide Inv, FreeTables, TablesOnly;
    AllEmptied(s, s1, dirs, e);
    DropRootStep(s1, dirs, pins, kdir, e);
    SameMemTables(s, s1, s', dirs, e);
    DataUntouched(s, s', dirs, e);
    forall r ensures Link(s', dirs - {e}, r) == if r.e == e then None else Link(s, dirs, r) {
      assert Link(s1, dirs, r) == if Within(r, e, 0, USER_PAGES, 0, USER_PDES) then None else Link(s, dirs, r);
    }
  }

  lemma AllEmptied(s: Phys, s1: Phys, dirs: map<nat, Frame>, e: nat)
    requires Emptied(s, s1, dirs, e, 0, USER_PAGES, 0, USER_PDES)
    ensures forall r: Ref :: r.e == e && r != Root(e) ==> Link(s1, dirs, r) == None
  {
    forall r: Ref | r.e == e && r != Root(e) ensures Link(s1, dirs, r) == None { BeyondUser(s, dirs, e, r); }
  }

  lemma SameMemTables(s: Phys, s1: Phys, s': Phys, dirs: map<nat, Frame>, e: nat)
    requires TablesOnly(s, s1, dirs, e) && s'.mem == s1.mem
    ensures TablesOnly(s, s', dirs, e)
  {
    forall q: nat | NotTable(s, dirs, e, q)
      ensures PageWords(s', q) == PageWords(s, q)
    {
      assert PageWords(s', q) == PageWords(s1, q);
    }
  }

  // Data pages are no tables.
  lemma DataUntouched(s: Phys, s': Phys, dirs: map<nat, Frame>, e: nat)
    requires Owned(s, dirs) && TablesOnly(s, s', dirs, e)
    ensures OthersRead(s, s', dirs, e)
  {
    forall d, u | d != e && Link(s, dirs, Leaf(d, u)).Some?
      ensures PageWords(s', Link(s, dirs, Leaf(d, u)).value.frame)
                == PageWords(s, Link(s, dirs, Leaf(d, u)).value.frame)
    {
      forall r: Ref | !r.Leaf? && r.e == e ensures Target(s, dirs, r) != Some(Link(s, dirs, Leaf(d, u)).value.frame) {
        LeafPagesAreData(s, dirs, d, u, r);
      }
    }
  }

  lemma BeyondUser(s: Phys, dirs: map<nat, Frame>, e: nat, r: Ref)
    requires r.e == e && r != Root(e)
    ensures Within(r, e, 0, USER_PAGES, 0, USER_PDES) || Link(s, dirs, r) == None
  {}

  // ---------- a whole life of an address space

  /** What happens in an address space: a page in use is mapped, a fresh page is taken off the
      free list and mapped (a round of region_alloc), a page is unmapped. */
  datatype EnvOp = Ins(pp: Frame, v: nat, perm: bv12) | Alloc(v: nat, perm: bv12) | Del(v: nat)

  // A round of region_alloc, which ignores what page_insert returns; false stands for its panic.
  function RegionAlloc(s: Phys, dir: nat, v: nat, perm: bv12): (Phys, bool) {
    if s.free == [] || s.free[0] >= 0x10_0000 then (s, false)
    else (Insert(PageTake(s), dir, s.free[0], v, perm).0, true)
  }

  function ApplyOp(s: Phys, dir: nat, op: EnvOp): Phys {
    match op
    case Ins(pp, v, perm) => Insert(s, dir, pp, v, perm).0
    case Alloc(v, perm) => RegionAlloc(s, dir, v, perm).0
    case Del(v) => Remove(s, dir, v)
  }

  function ApplyOps(s: Phys, dir: nat, ops: seq<EnvOp>): Phys
    decreases |ops|
  {
    if ops == [] then s else ApplyOps(ApplyOp(s, dir, ops[0]), dir, ops[1..])
  }

  // The round neither panics nor loses the page it took: see RegionAllocLoses.
  ghost predicate RoomFor(s: Phys, dirs: map<nat, Frame>, e: nat, v: nat) {
    s.free == [] || HasTable(s, dirs, e, v) || |s.free| >= 2
  }

  // The operations stay below UTOP, map pages that may be mapped, and have memory for a table.
  ghost predicate Legal(s: Phys, dirs: map<nat, Frame>, kdir: nat, e: nat, ops: seq<EnvOp>)
    requires e in dirs
    decreases |ops|
  {
    ops != [] ==> LegalOp(s, dirs, kdir, e, ops[0]) && Legal(ApplyOp(s, dirs[e], ops[0]), dirs, kdir, e, ops[1..])
  }

  ghost predicate LegalOp(s: Phys, dirs: map<nat, Frame>, kdir: nat, e: nat, op: EnvOp) {
    && op.v < USER_PAGES
    && (op.Ins? ==> Mappable(s, dirs, kdir, op.pp) && s.refs[op.pp] < 0xFFFF)
    && (op.Alloc? ==> RoomFor(s, dirs, e, op.v))
  }

  lemma TakenIsFrame(s: Phys, dirs: map<nat, Frame>, pins: seq<nat>, kdir: nat)
    requires Inv(s, dirs, pins, kdir) && s.free != []
    ensures s.free[0] < |s.refs| && s.free[0] < 0x10_0000
  {
    assert s.free[0] in s.free;
  }

  /** A round of region_alloc maps a page that was free, and nothing else refers to it: from then
      on the environment alone owns it. */
  lemma RegionAllocStep(s: Phys, dirs: map<nat, Frame>, pins: seq<nat>, kdir: nat, e: nat, v: nat, perm: bv12)
    requires Inv(s, dirs, pins, kdir) && e in dirs && v < USER_PAGES && RoomFor(s, dirs, e, v)
    ensures var (s', ok) := RegionAlloc(s, dirs[e], v, perm);
            && Inv(s', dirs, pins, kdir) && OthersKept(s, s', dirs, e)
            && (ok <==> s.free != [])
            && (!ok ==> s' == s)
            && (ok ==>
                && s.free[0] < 0x10_0000 && Unused(s, dirs, s.free[0])
                && Link(s', dirs, Leaf(e, v)) == Some(Word(s.free[0], perm | PTE_P))
                && (forall u: nat :: u != v ==> Link(s', dirs, Leaf(e, u)) == Link(s, dirs, Leaf(e, u))))
  {
    if s.free != [] {
      hide Insert, Inv, Insertable;
      TakenIsFrame(s, dirs, pins, kdir);
      TakeStep(s, dirs, pins, kdir, false);
      var t := PageTake(s);
      SameTable(s, t, dirs, e, v);
      InsertStep(t, dirs, pins, kdir, e, s.free[0], v, perm);
      SameUnused(s, t, dirs, s.free[0]);
      forall r: Ref | r != Leaf(e, v) && r != Table(e, v / 1024)
        ensures Link(RegionAlloc(s, dirs[e], v, perm).0, dirs, r) == Link(s, dirs, r)
      {
        assert Link(t, dirs, r) == Link(s, dirs, r);
      }
    }
  }

  lemma SameTable(s: Phys, t: Phys, dirs: map<nat, Frame>, e: nat, v: nat)
    requires t.mem == s.mem
    ensures HasTable(t, dirs, e, v) == HasTable(s, dirs, e, v)
  {}

  lemma SameUnused(s: Phys, t: Phys, dirs: map<nat, Frame>, p: nat)
    requires Unused(t, dirs, p) && SameLinks(s, t, dirs)
    ensures Unused(s, dirs, p)
  {
    forall r
      ensures Target(s, dirs, r) != Some(p)
    {
      assert Link(t, dirs, r) == Link(s, dirs, r) && Target(t, dirs, r) != Some(p);
    }
  }

  /** Without that room the page is lost: it is taken off the free list, and neither mapped nor
      given back, as region_alloc ignores the failure of page_insert. */
  lemma RegionAllocLoses(s: Phys, dirs: map<nat, Frame>, pins: seq<nat>, kdir: nat, e: nat, v: nat, perm: bv12)
    requires Inv(s, dirs, pins, kdir) && e in dirs && v < USER_PAGES
    ensures Inv(RegionAlloc(s, dirs[e], v, perm).0, dirs, pins, kdir) <==> RoomFor(s, dirs, e, v)
  {
    if RoomFor(s, dirs, e, v) {
      RegionAllocStep(s, dirs, pins, kdir, e, v, perm);
    } else {
      TakenIsFrame(s, dirs, pins, kdir);
      var s' := RegionAlloc(s, dirs[e], v, perm).0;
      assert s' == PageTake(s) && s'.free == [];
      assert s.free[0] in s.free;
    }
  }

  ghost predicate OthersKept(s: Phys, s': Phys, dirs: map<nat, Frame>, e: nat) {
    forall r: Ref {:trigger Link(s', dirs, r)} :: r.e != e ==> Link(s', dirs, r) == Link(s, dirs, r)
  }

  lemma OpStep(s: Phys, dirs: map<nat, Frame>, pins: seq<nat>, kdir: nat, e: nat, op: EnvOp)
    requires Inv(s, dirs, pins, kdir) && e in dirs && LegalOp(s, dirs, kdir, e, op)
    ensures Inv(ApplyOp(s, dirs[e], op), dirs, pins, kdir) && OthersKept(s, ApplyOp(s, dirs[e], op), dirs, e)
  {
    hide Inv, Insert, Remove, RegionAlloc, RoomFor, Mappable;
    match op
    case Ins(pp, v, perm) =>
      InUse(s, dirs, pins, kdir, pp);
      hide Insertable;
      InsertStep(s, dirs, pins, kdir, e, pp, v, perm);
    case Alloc(v, perm) => RegionAllocStep(s, dirs, pins, kdir, e, v, perm);
    case Del(v) =>
      if Target(s, dirs, Leaf(e, v)).Some? {
        RemoveStep(s, dirs, pins, kdir, e, v);
      } else {
        NothingRemoved(s, dirs, e, v);
      }
  }

  lemma NothingRemoved(s: Phys, dirs: map<nat, Frame>, e: nat, v: nat)
    requires e in dirs && v < USER_PAGES && Target(s, dirs, Leaf(e, v)) == None
    ensures Remove(s, dirs[e], v) == s
  {
    assert Link(s, dirs, Leaf(e, v)) == None;
  }

  lemma {:induction false} OpsStep(s: Phys, dirs: map<nat, Frame>, pins: seq<nat>, kdir: nat, e: nat, ops: seq<EnvOp>)
    requires Inv(s, dirs, pins, kdir) && e in dirs && Legal(s, dirs, kdir, e, ops)
    ensures Inv(ApplyOps(s, dirs[e], ops), dirs, pins, kdir) && OthersKept(s, ApplyOps(s, dirs[e], ops), dirs, e)
    decreases |ops|
  {
    hide Inv, ApplyOp, LegalOp;
    if ops != [] {
      OpStep(s, dirs, pins, kdir, e, ops[0]);
      OpsStep(ApplyOp(s, dirs[e], ops[0]), dirs, pins, kdir, e, ops[1..]);
    }
  }

  /** Setting an address space up, any sequence of allocations, mappings and removals in it, and
      tearing it down: every reference of every other environment is what it was, and exactly the
      pages that were free before are free again, those it owned alone included. */
  lemma Teardown(s: Phys, dirs: map<nat, Frame>, pins: seq<nat>, kdir: nat, e: nat, dir: Frame, ops: seq<EnvOp>)
    requires Inv(s, dirs, pins, kdir) && e !in dirs
    requires SetupVm(s, kdir).1 == Some(dir) && Legal(SetupVm(s, kdir).0, dirs[e := dir], kdir, e, ops)
    ensures var s' := EnvFree(ApplyOps(SetupVm(s, kdir).0, dir, ops), dir);
            && Inv(s', dirs, pins, kdir)
            && (forall r :: Link(s', dirs, r) == Link(s, dirs, r))
            && (forall p: nat :: p in s'.free <==> p in s.free)
  {
    SetupStep(s, dirs, pins, kdir, e);
    var s1, dirs1 := SetupVm(s, kdir).0, dirs[e := dir];
    OpsStep(s1, dirs1, pins, kdir, e, ops);
    var s2 := ApplyOps(s1, dir, ops);
    EnvFreeStep(s2, dirs1, pins, kdir, e);
    assert dirs1 - {e} == dirs;
    var s' := EnvFree(s2, dir);
    forall r ensures Link(s', dirs, r) == Link(s, dirs, r) {
      if r.e != e {
        assert Link(s2, dirs1, r) == Link(s1, dirs1, r) == Link(s, dirs, r);
      }
    }
    SameLinksSameFree(s, s', dirs, pins, kdir);
  }

  lemma SameLinksSameFree(s: Phys, s': Phys, dirs: map<nat, Frame>, pins: seq<nat>, kdir: nat)
    requires Inv(s, dirs, pins, kdir) && Inv(s', dirs, pins, kdir)
    requires forall r :: Link(s', dirs, r) == Link(s, dirs, r)
    ensures forall p: nat :: p in s'.free <==> p in s.free
  {
    forall p: nat ensures p in s'.free <==> p in s.free {
      forall r ensures Target(s', dirs, r) == Target(s, dirs, r) { assert Link(s', dirs, r) == Link(s, dirs, r); }
      SameTargets(s, s', dirs, p);
    }
  }
}
