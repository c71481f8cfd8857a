/** Physical pages and two-level page tables (kern/pmap.c), as functions on values. */
module Pmap {
  import opened Mmu

  /** `free` is the free list in list order, `refs` the pp_ref fields and `mem` the
      contents of every page frame; page tables live in those same frames. */
  datatype Phys = Phys(free: seq<nat>, refs: seq<nat>, mem: seq<Page>)

  // A pte_t *: a word inside a page table page.
  datatype PtePtr = PtePtr(frame: nat, index: nat)

  function Cell(s: Phys, p: nat, i: nat): Word {
    if p < |s.mem| && i < 1024 then s.mem[p][i] else ZERO
  }

  function SetCell(s: Phys, p: nat, i: nat, w: Word): Phys {
    if p < |s.mem| && i < 1024 then s.(mem := s.mem[p := s.mem[p][i := w]]) else s
  }

  function PageWords(s: Phys, p: nat): Page {
    if p < |s.mem| then s.mem[p] else ZeroPage()
  }

  // env_pgdir of e
  function RootOf(dirs: map<nat, Frame>, e: nat): Frame { if e in dirs then dirs[e] else 0 }

  // page_alloc(ALLOC_ZERO)
  function PageAlloc(s: Phys): (Phys, Option<nat>) {
    if s.free == [] then (s, None)
    else
      var p := s.free[0];
      (s.(free := s.free[1..], mem := if p < |s.mem| then s.mem[p := ZeroPage()] else s.mem), Some(p))
  }

  // pp_ref is a uint16_t
  function IncRef(s: Phys, p: nat): Phys {
    if p < |s.refs| then s.(refs := s.refs[p := (s.refs[p] + 1) % 0x1_0000]) else s
  }

  // page_decref, with the page_free it may call
  function Decref(s: Phys, p: nat): Phys {
    if p < |s.refs| then
      var r := (s.refs[p] + 0xFFFF) % 0x1_0000;
      var s1 := s.(refs := s.refs[p := r]);
      if r == 0 then s1.(free := [p] + s1.free) else s1
    else s
  }

  // pgdir_walk(dir, v * PGSIZE, create)
  function Walk(s: Phys, dir: nat, v: nat, create: bool): (Phys, Option<PtePtr>) {
    var pde := Cell(s, dir, v / 1024);
    if Present(pde) then (s, Some(PtePtr(pde.frame, v % 1024)))
    else if !create then (s, None)
    else
      var (s1, pp) := PageAlloc(s);
      if pp.None? || pp.value >= 0x10_0000 then (s1, None)
      else
        var s2 := SetCell(IncRef(s1, pp.value), dir, v / 1024, Word(pp.value, PTE_P | PTE_W | PTE_U));
        (s2, Some(PtePtr(pp.value, v % 1024)))
  }

  // The entry a walk that creates nothing finds, if it is present.
  function Pt(s: Phys, dir: nat, v: nat): Option<Word> {
    var pde := Cell(s, dir, v / 1024);
    if !Present(pde) then None
    else
      var pte := Cell(s, pde.frame, v % 1024);
      if Present(pte) then Some(pte) else None
  }

  // page_remove
  function Remove(s: Phys, dir: nat, v: nat): Phys {
    var pte := Pt(s, dir, v);
    if pte.None? then s
    else SetCell(Decref(s, pte.value.frame), Cell(s, dir, v / 1024).frame, v % 1024, ZERO)
  }

  // page_insert with the entry it stores; false stands for -E_NO_MEM
  function InsertWord(s: Phys, dir: nat, pp: Frame, v: nat, w: Word): (Phys, bool) {
    var (s1, pte) := Walk(s, dir, v, true);
    if pte.None? then (s1, false)
    else (SetCell(Vacate(IncRef(s1, pp), dir, pte.value, v), pte.value.frame, pte.value.index, w), true)
  }

  // page_insert
  function Insert(s: Phys, dir: nat, pp: Frame, v: nat, perm: bv12): (Phys, bool) {
    InsertWord(s, dir, pp, v, Word(pp, perm | PTE_P))
  }

  // if (*ppte & PTE_P) page_remove(...)
  function Vacate(s: Phys, dir: nat, pte: PtePtr, v: nat): Phys {
    if Present(Cell(s, pte.frame, pte.index)) then Remove(s, dir, v) else s
  }

  // ---------- who points at a page

  /** A place that holds a counted reference: an environment's page directory root, a
      user-part directory entry, or a user page table entry. */
  datatype Ref = Root(e: nat) | Table(e: nat, i: nat) | Leaf(e: nat, v: nat)

  // What a place holds, if it holds anything: a directory root counts as the word cr3 is loaded with.
  function Link(s: Phys, dirs: map<nat, Frame>, r: Ref): Option<Word> {
    match r
    case Root(e) => if e in dirs then Some(Word(dirs[e], 0)) else None
    case Table(e, i) =>
      if e in dirs && i < USER_PDES && Present(Cell(s, dirs[e], i)) then Some(Cell(s, dirs[e], i)) else None
    case Leaf(e, v) => if e in dirs && v < USER_PAGES then Pt(s, dirs[e], v) else None
  }

  function Target(s: Phys, dirs: map<nat, Frame>, r: Ref): Option<nat> {
    match Link(s, dirs, r)
    case None => None
    case Some(w) => Some(w.frame)
  }

  ghost function Slots(dirs: map<nat, Frame>): set<Ref> {
    (set e | e in dirs :: Root(e))
    + (set e, i | e in dirs && 0 <= i < USER_PDES :: Table(e, i))
    + (set e, v | e in dirs && 0 <= v < USER_PAGES :: Leaf(e, v))
  }

  ghost function Holders(s: Phys, dirs: map<nat, Frame>, p: nat): set<Ref> {
    set r | r in Slots(dirs) && Target(s, dirs, r) == Some(p)
  }

  lemma HoldersAreTargets(s: Phys, dirs: map<nat, Frame>, p: nat, r: Ref)
    ensures r in Holders(s, dirs, p) <==> Target(s, dirs, r) == Some(p)
  {
    match r
    case Root(e) =>
    case Table(e, i) => if e in dirs && i < USER_PDES { assert Table(e, i) in Slots(dirs); }
    case Leaf(e, v) => if e in dirs && v < USER_PAGES { assert Leaf(e, v) in Slots(dirs); }
  }

  lemma CardinalWithout<T>(a: set<T>, x: T)
    ensures |a| == |a - {x}| + (if x in a then 1 else 0)
  {
    if x in a { assert a == (a - {x}) + {x}; } else { assert a - {x} == a; }
  }

  /** Redirecting one reference moves exactly one unit of the counts. */
  lemma Retarget(s: Phys, s': Phys, dirs: map<nat, Frame>, dirs': map<nat, Frame>, r0: Ref, p: nat)
    requires forall r :: r != r0 ==> Target(s', dirs', r) == Target(s, dirs, r)
    ensures |Holders(s', dirs', p)| == |Holders(s, dirs, p)|
                - (if Target(s, dirs, r0) == Some(p) then 1 else 0)
                + (if Target(s', dirs', r0) == Some(p) then 1 else 0)
  {
    var before, after := Holders(s, dirs, p), Holders(s', dirs', p);
    forall r ensures r in before - {r0} <==> r in after - {r0} {
      HoldersAreTargets(s, dirs, p, r);
      HoldersAreTargets(s', dirs', p, r);
    }
    HoldersAreTargets(s, dirs, p, r0);
    HoldersAreTargets(s', dirs', p, r0);
    assert before - {r0} == after - {r0};
    CardinalWithout(before, r0);
    CardinalWithout(after, r0);
  }

  // ---------- the invariant of the page allocator and the page tables

  // Nothing else points where r points.
  ghost predicate Sole(s: Phys, dirs: map<nat, Frame>, r: Ref) {
    forall r' :: Target(s, dirs, r') == Target(s, dirs, r) ==> r' == r
  }

  ghost predicate Owned(s: Phys, dirs: map<nat, Frame>) {
    && (forall r :: Target(s, dirs, r).Some? ==> Target(s, dirs, r).value < |s.refs|)
    && (forall r: Ref {:trigger Sole(s, dirs, r)} :: !r.Leaf? && Target(s, dirs, r).Some? ==> Sole(s, dirs, r))
  }

  ghost predicate Counted(s: Phys, dirs: map<nat, Frame>, pins: seq<nat>) {
    |pins| == |s.refs|
    && forall p :: 0 <= p < |s.refs| ==> s.refs[p] == |Holders(s, dirs, p)| + pins[p] && s.refs[p] < 0x1_0000
  }

  ghost predicate FreeList(s: Phys) {
    && (forall i, j :: 0 <= i < j < |s.free| ==> s.free[i] != s.free[j])
    && (forall p: nat :: p in s.free <==> p < |s.refs| && s.refs[p] == 0)
  }

  // ---------- what a step changes

  ghost predicate SameLinks(s: Phys, s': Phys, dirs: map<nat, Frame>) {
    forall r {:trigger Link(s', dirs, r)} :: Link(s', dirs, r) == Link(s, dirs, r)
  }

  // One place now holds w, or nothing; every other place holds what it held.
  ghost predicate Relinked(s: Phys, s': Phys, dirs: map<nat, Frame>, r0: Ref, w: Option<Word>) {
    forall r {:trigger Link(s', dirs, r)} :: Link(s', dirs, r) == if r == r0 then w else Link(s, dirs, r)
  }

  ghost predicate Unused(s: Phys, dirs: map<nat, Frame>, p: nat) {
    forall r {:trigger Target(s, dirs, r)} :: Target(s, dirs, r) != Some(p)
  }

  // No directory root and no directory entry points at p.
  ghost predicate Data(s: Phys, dirs: map<nat, Frame>, p: nat) {
    forall r: Ref {:trigger Target(s, dirs, r)} :: !r.Leaf? ==> Target(s, dirs, r) != Some(p)
  }

  // kern_pgdir, the template of every page directory, has no user part.
  ghost predicate KernelDir(s: Phys, dirs: map<nat, Frame>, pins: seq<nat>, kdir: nat) {
    && kdir < |pins| && pins[kdir] >= 1
    && Unused(s, dirs, kdir)
    && (forall i :: 0 <= i < USER_PDES ==> !Present(Cell(s, kdir, i)))
  }

  /** `pins[p]` counts the references to p that no page table or environment accounts for:
      the ones boot leaves behind and the ones sys_page_alloc never gives back. */
  ghost predicate Inv(s: Phys, dirs: map<nat, Frame>, pins: seq<nat>, kdir: nat) {
    && |s.mem| == |s.refs| <= 0x10_0000
    && Owned(s, dirs)
    && Counted(s, dirs, pins)
    && FreeList(s)
    && KernelDir(s, dirs, pins, kdir)
  }

  function Bump(pins: seq<nat>, p: nat, d: int): seq<nat>
    requires p < |pins| && pins[p] + d >= 0
  {
    pins[p := pins[p] + d]
  }

  lemma FreePageUnused(s: Phys, dirs: map<nat, Frame>, pins: seq<nat>, kdir: nat, p: nat, r: Ref)
    requires Inv(s, dirs, pins, kdir) && p in s.free
    ensures p < |pins| && pins[p] == 0 && Target(s, dirs, r) != Some(p)
  {
    HoldersAreTargets(s, dirs, p, r);
    assert Holders(s, dirs, p) == {};
  }

  lemma SameTargets(s: Phys, s': Phys, dirs: map<nat, Frame>, p: nat)
    requires forall r :: Target(s', dirs, r) == Target(s, dirs, r)
    ensures Holders(s', dirs, p) == Holders(s, dirs, p)
  {}

  lemma SameMem(s: Phys, s': Phys, dirs: map<nat, Frame>, r: Ref)
    requires s'.mem == s.mem
    ensures Link(s', dirs, r) == Link(s, dirs, r)
  {}

  ghost function Hits(s: Phys, dirs: map<nat, Frame>, r: Ref, p: nat): int {
    if Target(s, dirs, r) == Some(p) then 1 else 0
  }

  /** The one argument behind every step below: when a single place r0 changes what it
      points at, and the counts and pins move with it, the invariant is kept. */
  lemma Relink(s: Phys, s': Phys, dirs: map<nat, Frame>, dirs': map<nat, Frame>,
               pins: seq<nat>, pins': seq<nat>, kdir: nat, r0: Ref)
    requires Inv(s, dirs, pins, kdir)
    requires |s'.refs| == |s'.mem| == |pins'| == |s.refs|
    requires forall r :: r != r0 ==> Target(s', dirs', r) == Target(s, dirs, r)
    requires Target(s', dirs', r0).Some? && Target(s', dirs', r0) != Target(s, dirs, r0) ==>
               var p := Target(s', dirs', r0).value;
               && p < |s.refs| && p != kdir
               && forall r :: r != r0 && Target(s, dirs, r) == Some(p) ==> r.Leaf? && r0.Leaf?
    requires forall p :: 0 <= p < |s.refs| ==>
               && s'.refs[p] + pins[p] + Hits(s, dirs, r0, p) == s.refs[p] + pins'[p] + Hits(s', dirs', r0, p)
               && s'.refs[p] < 0x1_0000
    requires FreeList(s') && pins'[kdir] >= 1 && PageWords(s', kdir) == PageWords(s, kdir)
    ensures Inv(s', dirs', pins', kdir)
  {
    forall p | 0 <= p < |s.refs| ensures s'.refs[p] == |Holders(s', dirs', p)| + pins'[p] {
      Retarget(s, s', dirs, dirs', r0, p);
    }
    forall i ensures Cell(s', kdir, i) == Cell(s, kdir, i) {
      assert s'.mem[kdir] == s.mem[kdir];
    }
    forall r: Ref | !r.Leaf? && Target(s', dirs', r).Some? ensures Sole(s', dirs', r) {
      if r != r0 || Target(s', dirs', r0) == Target(s, dirs, r0) { assert Sole(s, dirs, r); }
    }
    assert Target(s', dirs', r0) != Some(kdir);
  }

  lemma LeafPagesAreData(s: Phys, dirs: map<nat, Frame>, e: nat, v: nat, r: Ref)
    requires Owned(s, dirs) && Link(s, dirs, Leaf(e, v)).Some? && !r.Leaf?
    ensures Target(s, dirs, r) != Some(Link(s, dirs, Leaf(e, v)).value.frame)
  {
    assert Target(s, dirs, r).Some? ==> Sole(s, dirs, r);
    assert Target(s, dirs, Leaf(e, v)).Some?;
  }

  // page_alloc(0): the page handed out is not cleared
  function PageTake(s: Phys): Phys { if s.free == [] then s else s.(free := s.free[1..]) }

  // s with a page that nobody refers to back on the free list
  function Back(s: Phys, p: nat): Phys {
    if p < |s.refs| && s.refs[p] == 0 then s.(free := [p] + s.free) else s
  }

  /** A page that page_insert may be given: one in use that is no page table, directory or
      kern_pgdir, or one fresh from page_alloc, which is on no list and has no reference yet. */
  ghost predicate Insertable(s: Phys, dirs: map<nat, Frame>, pins: seq<nat>, kdir: nat, pp: nat) {
    pp < |s.refs| && pp != kdir && Data(s, dirs, pp) && s.refs[pp] < 0xFFFF && Inv(Back(s, pp), dirs, pins, kdir)
  }

  /** page_alloc, clearing the page or not: it takes the first free page off the list, a page
      that nothing refers to, and changes no entry of anybody. */
  lemma TakeStep(s: Phys, dirs: map<nat, Frame>, pins: seq<nat>, kdir: nat, zero: bool)
    requires Inv(s, dirs, pins, kdir) && s.free != []
    ensures var pp, s' := s.free[0], if zero then PageAlloc(s).0 else PageTake(s);
            && pp < |pins| && s'.free == s.free[1..] && pp !in s'.free && s'.refs == s.refs
            && Insertable(s', dirs, pins, kdir, pp) && Unused(s', dirs, pp) && SameLinks(s, s', dirs)
            && PageWords(s', pp) == (if zero then ZeroPage() else PageWords(s, pp))
            && (forall q: nat :: q != pp ==> PageWords(s', q) == PageWords(s, q))
  {
    var p, s' := s.free[0], if zero then PageAlloc(s).0 else PageTake(s);
    assert p in s.free;
    forall r ensures Link(s', dirs, r) == Link(s, dirs, r) && Target(s', dirs, r) == Target(s, dirs, r) != Some(p) {
      ZeroingFreePage(s, dirs, pins, kdir, r);
      SameMem(s', if zero then AllocPinned(s) else s, dirs, r);
      FreePageUnused(s, dirs, pins, kdir, p, r);
    }
    forall r ensures Link(Back(s', p), dirs, r) == Link(s, dirs, r) { SameMem(s', Back(s', p), dirs, r); }
    assert Back(s', p).free == s.free;
    Relink(s, Back(s', p), dirs, dirs, pins, pins, kdir, Root(0));
  }

  // page_alloc followed by pp_ref++, as every caller but region_alloc does
  function AllocPinned(s: Phys): Phys
    requires s.free != []
  {
    IncRef(PageAlloc(s).0, s.free[0])
  }

  lemma ZeroingFreePage(s: Phys, dirs: map<nat, Frame>, pins: seq<nat>, kdir: nat, r: Ref)
    requires Inv(s, dirs, pins, kdir) && s.free != []
    ensures Link(AllocPinned(s), dirs, r) == Link(s, dirs, r)
  {
    var p, s' := s.free[0], AllocPinned(s);
    assert forall q, i :: q != p ==> Cell(s', q, i) == Cell(s, q, i);
    if r.Table? || r.Leaf? {
      var i := if r.Table? then r.i else r.v / 1024;
      FreePageUnused(s, dirs, pins, kdir, p, Root(r.e));
      FreePageUnused(s, dirs, pins, kdir, p, Table(r.e, i));
    }
  }

  lemma AllocStep(s: Phys, dirs: map<nat, Frame>, pins: seq<nat>, kdir: nat)
    requires Inv(s, dirs, pins, kdir) && s.free != []
    ensures s.free[0] < |pins| && Inv(AllocPinned(s), dirs, Bump(pins, s.free[0], 1), kdir)
    ensures SameLinks(s, AllocPinned(s), dirs) && Unused(s, dirs, s.free[0]) && Unused(AllocPinned(s), dirs, s.free[0])
    ensures AllocPinned(s).mem == s.mem[s.free[0] := ZeroPage()]
  {
    var p, s' := s.free[0], AllocPinned(s);
    assert p in s.free;
    forall r ensures Link(s', dirs, r) == Link(s, dirs, r) && Target(s', dirs, r) == Target(s, dirs, r) != Some(p) {
      ZeroingFreePage(s, dirs, pins, kdir, r);
      FreePageUnused(s, dirs, pins, kdir, p, r);
    }
    assert forall q: nat :: q in s'.free <==> q in s.free && q != p;
    Relink(s, s', dirs, dirs, pins, Bump(pins, p, 1), kdir, Root(0));
  }

  // The page table that holds the entry for page v of environment e.
  function TableOf(s: Phys, dirs: map<nat, Frame>, e: nat, v: nat): nat
    requires e in dirs
  {
    Cell(s, dirs[e], v / 1024).frame
  }

  ghost predicate HasTable(s: Phys, dirs: map<nat, Frame>, e: nat, v: nat) {
    e in dirs && v < USER_PAGES && Present(Cell(s, dirs[e], v / 1024))
  }

  /** Writing one page table entry redirects that entry and no other reference. */
  lemma WriteLeaf(s: Phys, dirs: map<nat, Frame>, e: nat, v: nat, w: Word, r: Ref)
    requires |s.mem| == |s.refs| && Owned(s, dirs) && HasTable(s, dirs, e, v)
    ensures Link(SetCell(s, TableOf(s, dirs, e, v), v % 1024, w), dirs, r)
         == if r == Leaf(e, v) then (if Present(w) then Some(w) else None) else Link(s, dirs, r)
  {
    var t, s' := TableOf(s, dirs, e, v), SetCell(s, TableOf(s, dirs, e, v), v % 1024, w);
    assert Target(s, dirs, Table(e, v / 1024)) == Some(t) && Sole(s, dirs, Table(e, v / 1024));
    assert forall q, j :: (q != t || j != v % 1024) ==> Cell(s', q, j) == Cell(s, q, j);
    if r.Table? || r.Leaf? {
      var i := if r.Table? then r.i else r.v / 1024;
      assert Target(s, dirs, Root(r.e)) != Some(t);
      if r.Leaf? && Target(s, dirs, Table(r.e, i)) == Some(t) { assert Table(r.e, i) == Table(e, v / 1024); }
    }
  }

  /** page_remove takes one entry away and gives its page one reference back. */
  lemma RemoveStep(s: Phys, dirs: map<nat, Frame>, pins: seq<nat>, kdir: nat, e: nat, v: nat)
    requires Inv(s, dirs, pins, kdir) && Target(s, dirs, Leaf(e, v)).Some?
    ensures Inv(Remove(s, dirs[e], v), dirs, pins, kdir)
    ensures Relinked(s, Remove(s, dirs[e], v), dirs, Leaf(e, v), None)
    ensures Remove(s, dirs[e], v).mem == SetCell(s, TableOf(s, dirs, e, v), v % 1024, ZERO).mem
  {
    var q, t := Pt(s, dirs[e], v).value.frame, TableOf(s, dirs, e, v);
    var s2, s' := SetCell(s, t, v % 1024, ZERO), Remove(s, dirs[e], v);
    var r0 := Leaf(e, v);
    HoldersAreTargets(s, dirs, q, r0);
    assert Target(s, dirs, Table(e, v / 1024)) == Some(t);
    forall r ensures Link(s', dirs, r) == (if r == r0 then None else Link(s, dirs, r))
                  && (r != r0 ==> Target(s', dirs, r) == Target(s, dirs, r))
    {
      WriteLeaf(s, dirs, e, v, ZERO, r);
      SameMem(s2, s', dirs, r);
    }
    assert s'.refs == s.refs[q := s.refs[q] - 1] && q !in s.free;
    Relink(s, s', dirs, dirs, pins, pins, kdir, r0);
  }

  /** Filling an empty entry turns a pin on the page into a counted reference. */
  lemma PutStep(s: Phys, dirs: map<nat, Frame>, pins: seq<nat>, kdir: nat, e: nat, v: nat, w: Word)
    requires Inv(s, dirs, pins, kdir) && HasTable(s, dirs, e, v) && Target(s, dirs, Leaf(e, v)) == None
    requires Present(w) && w.frame < |pins| && w.frame != kdir && pins[w.frame] >= 1
    requires Data(s, dirs, w.frame)
    ensures var s' := SetCell(s, TableOf(s, dirs, e, v), v % 1024, w);
            && Inv(s', dirs, Bump(pins, w.frame, -1), kdir)
            && Relinked(s, s', dirs, Leaf(e, v), Some(w))
  {
    var t, r0 := TableOf(s, dirs, e, v), Leaf(e, v);
    var s' := SetCell(s, t, v % 1024, w);
    assert Target(s, dirs, Table(e, v / 1024)) == Some(t);
    forall r ensures Link(s', dirs, r) == (if r == r0 then Some(w) else Link(s, dirs, r))
                  && (r != r0 ==> Target(s', dirs, r) == Target(s, dirs, r))
    {
      WriteLeaf(s, dirs, e, v, w, r);
    }
    Relink(s, s', dirs, dirs, pins, Bump(pins, w.frame, -1), kdir, r0);
  }

  // A page that holds no present entry, so it can become a page table or directory.
  ghost predicate Blank(s: Phys, p: nat, n: nat) {
    forall i :: 0 <= i < n ==> !Present(Cell(s, p, i))
  }

  lemma WriteTable(s: Phys, dirs: map<nat, Frame>, e: nat, i: nat, w: Word, r: Ref)
    requires |s.mem| == |s.refs| && Owned(s, dirs) && e in dirs && i < USER_PDES
    requires Target(s, dirs, Table(e, i)) == None && Present(w)
    requires Blank(s, w.frame, 1024) && w.frame != dirs[e]
    ensures Link(SetCell(s, dirs[e], i, w), dirs, r)
         == if r == Table(e, i) then Some(w) else Link(s, dirs, r)
  {
    var d, s' := dirs[e], SetCell(s, dirs[e], i, w);
    assert Target(s, dirs, Root(e)) == Some(d) && Sole(s, dirs, Root(e));
    assert forall q, j :: (q != d || j != i) ==> Cell(s', q, j) == Cell(s, q, j);
    if r.Table? || r.Leaf? {
      var j := if r.Table? then r.i else r.v / 1024;
      if Target(s, dirs, Root(r.e)) == Some(d) { assert Root(r.e) == Root(e); }
      assert Target(s, dirs, Table(r.e, j)) != Some(d);
    }
  }

  /** Hanging a blank page under a directory entry turns its pin into a reference. */
  lemma PutTableStep(s: Phys, dirs: map<nat, Frame>, pins: seq<nat>, kdir: nat, e: nat, i: nat, w: Word)
    requires Inv(s, dirs, pins, kdir) && e in dirs && i < USER_PDES && Target(s, dirs, Table(e, i)) == None
    requires Present(w) && w.frame < |pins| && w.frame != kdir && pins[w.frame] >= 1
    requires Blank(s, w.frame, 1024) && Unused(s, dirs, w.frame)
    ensures var s' := SetCell(s, dirs[e], i, w);
            && Inv(s', dirs, Bump(pins, w.frame, -1), kdir)
            && Relinked(s, s', dirs, Table(e, i), Some(w))
  {
    var s', r0 := SetCell(s, dirs[e], i, w), Table(e, i);
    assert Target(s, dirs, Root(e)) == Some(dirs[e]);
    forall r ensures Link(s', dirs, r) == (if r == r0 then Some(w) else Link(s, dirs, r))
                  && (r != r0 ==> Target(s', dirs, r) == Target(s, dirs, r))
    {
      WriteTable(s, dirs, e, i, w, r);
    }
    Relink(s, s', dirs, dirs, pins, Bump(pins, w.frame, -1), kdir, r0);
  }

  // ---------- pgdir_walk and page_insert

  /** A page in use that page_insert may be given: not a page table, a directory or kern_pgdir. */
  ghost predicate Mappable(s: Phys, dirs: map<nat, Frame>, kdir: nat, pp: nat) {
    pp < |s.refs| && pp != kdir && s.refs[pp] >= 1 && Data(s, dirs, pp)
  }

  /** A creating walk either finds the table, or hangs a zeroed page there, or (out of
      memory) changes nothing; no entry of any environment changes its value. */
  lemma WalkStep(s: Phys, dirs: map<nat, Frame>, pins: seq<nat>, kdir: nat, e: nat, v: nat)
    requires Inv(s, dirs, pins, kdir) && e in dirs && v < USER_PAGES
    ensures var (s', pte) := Walk(s, dirs[e], v, true);
            && (pte.None? <==> !HasTable(s, dirs, e, v) && s.free == [])
            && (pte.None? ==> s' == s)
            && (pte.Some? ==>
                && Inv(s', dirs, pins, kdir) && HasTable(s', dirs, e, v)
                && pte.value == PtePtr(TableOf(s', dirs, e, v), v % 1024)
                && (HasTable(s, dirs, e, v) ==> s' == s)
                && (!HasTable(s, dirs, e, v) ==>
                    && s.free[0] < 0x10_0000
                    && Cell(s', dirs[e], v / 1024) == Word(s.free[0], PTE_P | PTE_W | PTE_U))
                && Relinked(s, s', dirs, Table(e, v / 1024), Some(Cell(s', dirs[e], v / 1024)))
                && (forall q :: q != dirs[e] && q != TableOf(s', dirs, e, v) ==> PageWords(s', q) == PageWords(s, q))
                && (forall q :: 0 <= q < |s.refs| && q !in s.free ==> s'.refs[q] == s.refs[q]))
  {
    if !HasTable(s, dirs, e, v) && s.free != [] {
      var p := s.free[0];
      AllocStep(s, dirs, pins, kdir);
      var s1 := AllocPinned(s);
      var w := Word(p, PTE_P | PTE_W | PTE_U);
      assert Target(s, dirs, Table(e, v / 1024)) == None;
      assert p in s.free;
      PutTableStep(s1, dirs, Bump(pins, p, 1), kdir, e, v / 1024, w);
      assert Bump(Bump(pins, p, 1), p, -1) == pins;
      assert Target(s, dirs, Root(e)) != Some(p);
    }
  }

  lemma VacateStep(s: Phys, dirs: map<nat, Frame>, pins: seq<nat>, kdir: nat, e: nat, v: nat)
    requires Inv(s, dirs, pins, kdir) && HasTable(s, dirs, e, v)
    ensures var s' := Vacate(s, dirs[e], PtePtr(TableOf(s, dirs, e, v), v % 1024), v);
            && Inv(s', dirs, pins, kdir) && HasTable(s', dirs, e, v)
            && TableOf(s', dirs, e, v) == TableOf(s, dirs, e, v)
            && Relinked(s, s', dirs, Leaf(e, v), None)
            && (forall q :: q != TableOf(s, dirs, e, v) ==> PageWords(s', q) == PageWords(s, q))
  {
    if Present(Cell(s, TableOf(s, dirs, e, v), v % 1024)) {
      RemoveStep(s, dirs, pins, kdir, e, v);
      var s' := Remove(s, dirs[e], v);
      assert Link(s', dirs, Table(e, v / 1024)) == Link(s, dirs, Table(e, v / 1024));
    }
  }

  lemma StillData(s: Phys, s': Phys, dirs: map<nat, Frame>, r0: Ref, w: Option<Word>, p: nat)
    requires Relinked(s, s', dirs, r0, w) && Data(s, dirs, p)
    requires r0.Leaf? || w.None? || w.value.frame != p
    ensures Data(s', dirs, p)
  {
    forall r: Ref | !r.Leaf? ensures Target(s', dirs, r) != Some(p) {
      assert Link(s', dirs, r) == if r == r0 then w else Link(s, dirs, r);
      assert Target(s, dirs, r) != Some(p);
    }
  }

  lemma InUse(s: Phys, dirs: map<nat, Frame>, pins: seq<nat>, kdir: nat, pp: nat)
    requires Inv(s, dirs, pins, kdir) && Mappable(s, dirs, kdir, pp) && s.refs[pp] < 0xFFFF
    ensures Insertable(s, dirs, pins, kdir, pp)
  {}

  // The old mapping's removal and the store of the new entry, for a page that holds a pin.
  lemma PlaceStep(s: Phys, dirs: map<nat, Frame>, pins: seq<nat>, kdir: nat, e: nat, pp: Frame, v: nat, perm: bv12)
    requires Inv(s, dirs, pins, kdir) && HasTable(s, dirs, e, v)
    requires pp < |pins| && pins[pp] >= 1 && pp != kdir && Data(s, dirs, pp)
    ensures var t := PtePtr(TableOf(s, dirs, e, v), v % 1024);
            var s' := SetCell(Vacate(s, dirs[e], t, v), t.frame, t.index, Word(pp, perm | PTE_P));
            && Inv(s', dirs, Bump(pins, pp, -1), kdir)
            && Relinked(s, s', dirs, Leaf(e, v), Some(Word(pp, perm | PTE_P)))
            && (forall q :: q != TableOf(s, dirs, e, v) ==> PageWords(s', q) == PageWords(s, q))
  {
    var t, w := PtePtr(TableOf(s, dirs, e, v), v % 1024), Word(pp, perm | PTE_P);
    hide Inv, Vacate, Data;
    VacateStep(s, dirs, pins, kdir, e, v);
    var s3 := Vacate(s, dirs[e], t, v);
    StillData(s, s3, dirs, Leaf(e, v), None, pp);
    PutStep(s3, dirs, pins, kdir, e, v, w);
    CellElsewhere(s3, t.frame, t.index, w);
    hide SetCell, Bump, PageWords, HasTable, TableOf, KernelDir;
    RelinkTwice(s, s3, SetCell(s3, t.frame, t.index, w), dirs, Leaf(e, v), None, Some(w));
  }

  // pp->pp_ref++ for a page in use or one nothing refers to yet
  lemma ClaimStep(s: Phys, dirs: map<nat, Frame>, pins: seq<nat>, kdir: nat, pp: nat)
    requires Insertable(s, dirs, pins, kdir, pp)
    ensures pp < |pins| && Inv(IncRef(s, pp), dirs, Bump(pins, pp, 1), kdir)
    ensures SameLinks(s, IncRef(s, pp), dirs) && Data(IncRef(s, pp), dirs, pp)
  {
    var s', b := IncRef(s, pp), Back(s, pp);
    forall r
      ensures Link(s', dirs, r) == Link(s, dirs, r) == Link(b, dirs, r)
              && Target(s', dirs, r) == Target(s, dirs, r) == Target(b, dirs, r)
    {
      SameMem(s, s', dirs, r);
      SameMem(s, b, dirs, r);
    }
    if s.refs[pp] == 0 {
      assert b.free[0] == pp && forall q: nat :: q in b.free <==> q == pp || q in s.free;
      assert forall i :: 0 <= i < |s.free| ==> b.free[i + 1] == s.free[i];
    }
    Relink(b, s', dirs, dirs, pins, Bump(pins, pp, 1), kdir, Root(0));
  }

  lemma BumpBack(pins: seq<nat>, p: nat)
    requires p < |pins|
    ensures Bump(Bump(pins, p, 1), p, -1) == pins
  {}

  lemma CellElsewhere(s: Phys, p: nat, i: nat, w: Word)
    ensures forall q :: q != p ==> PageWords(SetCell(s, p, i, w), q) == PageWords(s, q)
  {}

  lemma RelinkTwice(s: Phys, s1: Phys, s2: Phys, dirs: map<nat, Frame>, r0: Ref, w1: Option<Word>, w2: Option<Word>)
    requires Relinked(s, s1, dirs, r0, w1) && Relinked(s1, s2, dirs, r0, w2)
    ensures Relinked(s, s2, dirs, r0, w2)
  {}

  /** page_insert, complete: it fails exactly when a table is needed and memory is out, and
      then changes nothing; otherwise the table is the old table with `v` put to (pp, perm),
      every other entry of every environment and every other page is what it was, and the
      counts follow, also when pp was already mapped there. */
  lemma InsertStep(s: Phys, dirs: map<nat, Frame>, pins: seq<nat>, kdir: nat, e: nat, pp: Frame, v: nat, perm: bv12)
    requires Insertable(s, dirs, pins, kdir, pp) && e in dirs && v < USER_PAGES
    ensures var (s', ok) := Insert(s, dirs[e], pp, v, perm);
            && (ok <==> HasTable(s, dirs, e, v) || s.free != [])
            && (!ok ==> s' == s)
            && (ok ==>
                && Inv(s', dirs, pins, kdir)
                && Link(s', dirs, Leaf(e, v)) == Some(Word(pp, perm | PTE_P))
                && (forall r {:trigger Link(s', dirs, r)} :: r != Leaf(e, v) && r != Table(e, v / 1024) ==>
                     Link(s', dirs, r) == Link(s, dirs, r))
                && (HasTable(s, dirs, e, v) ==> Link(s', dirs, Table(e, v / 1024)) == Link(s, dirs, Table(e, v / 1024)))
                && (!HasTable(s, dirs, e, v) ==>
                    && s.free[0] < 0x10_0000
                    && Link(s', dirs, Table(e, v / 1024)) == Some(Word(s.free[0], PTE_P | PTE_W | PTE_U)))
                && (forall q :: q != dirs[e] && q != TableOf(s', dirs, e, v) ==> PageWords(s', q) == PageWords(s, q)))
  {
    ClaimStep(s, dirs, pins, kdir, pp);
    var c := IncRef(s, pp);
    ClaimedWalk(s, dirs, pins, kdir, dirs[e], pp, v);
    ClaimedInsert(s, c, dirs, Bump(pins, pp, 1), kdir, e, pp, v, perm);
    BumpBack(pins, pp);
  }

  // The count of pp may as well go up before the walk.
  lemma ClaimedWalk(s: Phys, dirs: map<nat, Frame>, pins: seq<nat>, kdir: nat, dir: nat, pp: nat, v: nat)
    requires Insertable(s, dirs, pins, kdir, pp)
    ensures var (s1, pte), (c1, pte') := Walk(s, dir, v, true), Walk(IncRef(s, pp), dir, v, true);
            pte' == pte && c1 == IncRef(s1, pp)
  {
    NotNext(s, dirs, pins, kdir, pp);
    hide Insertable;
  }

  lemma NotNext(s: Phys, dirs: map<nat, Frame>, pins: seq<nat>, kdir: nat, pp: nat)
    requires Insertable(s, dirs, pins, kdir, pp)
    ensures pp < |s.refs| && (s.free != [] ==> s.free[0] != pp && s.free[0] < |s.refs| && s.refs[s.free[0]] == 0)
  {
    if s.free != [] {
      if s.refs[pp] == 0 { assert Back(s, pp).free[0] == pp && Back(s, pp).free[1] == s.free[0]; }
      assert s.free[0] in Back(s, pp).free && s.free[0] in s.free;
    }
  }

  lemma ClaimedInsert(s: Phys, c: Phys,
                      dirs: map<nat, Frame>, pins: seq<nat>, kdir: nat, e: nat, pp: Frame, v: nat, perm: bv12)
    requires Inv(c, dirs, pins, kdir) && e in dirs && v < USER_PAGES
    requires c == IncRef(s, pp) && SameLinks(s, c, dirs) && pp < |pins| && pins[pp] >= 1 && pp != kdir
             && Data(c, dirs, pp)
    requires Walk(c, dirs[e], v, true) == (IncRef(Walk(s, dirs[e], v, true).0, pp), Walk(s, dirs[e], v, true).1)
    ensures var (s', ok) := Insert(s, dirs[e], pp, v, perm);
            && (ok <==> HasTable(s, dirs, e, v) || s.free != [])
            && (!ok ==> s' == s)
            && (ok ==>
                && Inv(s', dirs, Bump(pins, pp, -1), kdir)
                && Link(s', dirs, Leaf(e, v)) == Some(Word(pp, perm | PTE_P))
                && (forall r {:trigger Link(s', dirs, r)} :: r != Leaf(e, v) && r != Table(e, v / 1024) ==>
                     Link(s', dirs, r) == Link(s, dirs, r))
                && (HasTable(s, dirs, e, v) ==> Link(s', dirs, Table(e, v / 1024)) == Link(s, dirs, Table(e, v / 1024)))
                && (!HasTable(s, dirs, e, v) ==>
                    && s.free[0] < 0x10_0000
                    && Link(s', dirs, Table(e, v / 1024)) == Some(Word(s.free[0], PTE_P | PTE_W | PTE_U)))
                && (forall q :: q != dirs[e] && q != TableOf(s', dirs, e, v) ==> PageWords(s', q) == PageWords(s, q)))
  {
    WalkStep(c, dirs, pins, kdir, e, v);
    var (c1, pte) := Walk(c, dirs[e], v, true);
    if pte.Some? {
      if HasTable(c, dirs, e, v) {
        assert Link(c, dirs, Table(e, v / 1024)) == Some(Cell(c, dirs[e], v / 1024));
        assert Target(c, dirs, Table(e, v / 1024)) != Some(pp);
      }
      StillData(c, c1, dirs, Table(e, v / 1024), Some(Cell(c1, dirs[e], v / 1024)), pp);
      PlaceStep(c1, dirs, pins, kdir, e, pp, v, perm);
      assert Link(Insert(s, dirs[e], pp, v, perm).0, dirs, Table(e, v / 1024)) == Link(c1, dirs, Table(e, v / 1024));
    }
  }

  // ---------- what page_insert takes from the free list, and gives back

  // The page that a put over `old` gives back: the one mapped before, if that was its last reference.
  function GivenBack(s: Phys, was: Option<Word>, pp: nat): seq<nat> {
    if was.Some? && was.value.frame != pp && was.value.frame < |s.refs| && s.refs[was.value.frame] == 1
    then [was.value.frame] else []
  }

  /** The free list after page_insert: one page less where a table was missing, and the page mapped
      there before in front, if nothing else refers to it. Mapping the same page again frees nothing. */
  lemma InsertTakes(s: Phys, dirs: map<nat, Frame>, pins: seq<nat>, kdir: nat, e: nat, pp: Frame, v: nat, perm: bv12)
    requires Inv(s, dirs, pins, kdir) && e in dirs && v < USER_PAGES && Mappable(s, dirs, kdir, pp)
             && s.refs[pp] < 0xFFFF
    requires HasTable(s, dirs, e, v) || s.free != []
    ensures Insert(s, dirs[e], pp, v, perm).0.free
            == GivenBack(s, Link(s, dirs, Leaf(e, v)), pp) + (if HasTable(s, dirs, e, v) then s.free else s.free[1..])
  {
    if HasTable(s, dirs, e, v) {
      OverTakes(s, dirs, pins, kdir, e, pp, v, perm);
    } else {
      NewTakes(s, dirs, pins, kdir, e, pp, v, perm);
    }
    hide Insert, Inv, Mappable;
  }

  lemma OverTakes(s: Phys, dirs: map<nat, Frame>, pins: seq<nat>, kdir: nat, e: nat, pp: Frame, v: nat, perm: bv12)
    requires Inv(s, dirs, pins, kdir) && HasTable(s, dirs, e, v) && Mappable(s, dirs, kdir, pp) && s.refs[pp] < 0xFFFF
    ensures Insert(s, dirs[e], pp, v, perm).0.free == GivenBack(s, Link(s, dirs, Leaf(e, v)), pp) + s.free
  {
    assert Link(s, dirs, Leaf(e, v)) == Pt(s, dirs[e], v);
    if Pt(s, dirs[e], v).Some? {
      var q := Pt(s, dirs[e], v).value.frame;
      Held(s, dirs, pins, kdir, e, v, q);
    }
    hide Inv, Mappable;
  }

  lemma Held(s: Phys, dirs: map<nat, Frame>, pins: seq<nat>, kdir: nat, e: nat, v: nat, q: nat)
    requires Inv(s, dirs, pins, kdir) && Target(s, dirs, Leaf(e, v)) == Some(q)
    ensures q < |s.refs| && 1 <= s.refs[q] < 0x1_0000
  {
    HoldersAreTargets(s, dirs, q, Leaf(e, v));
  }

  lemma NewTakes(s: Phys, dirs: map<nat, Frame>, pins: seq<nat>, kdir: nat, e: nat, pp: Frame, v: nat, perm: bv12)
    requires Inv(s, dirs, pins, kdir) && e in dirs && v < USER_PAGES && !HasTable(s, dirs, e, v) && s.free != []
    ensures Link(s, dirs, Leaf(e, v)) == None && Insert(s, dirs[e], pp, v, perm).0.free == s.free[1..]
  {
    assert s.free[0] in s.free && Target(s, dirs, Root(e)) == Some(dirs[e]);
    FreePageUnused(s, dirs, pins, kdir, s.free[0], Root(e));
  }

  /** A put where nothing is mapped, or of the same page: it takes a page from the free list exactly if
      the table is missing, and the only table that is new is that one. */
  lemma PutTakes(s: Phys, dirs: map<nat, Frame>, pins: seq<nat>, kdir: nat, e: nat, pp: Frame, v: nat, perm: bv12)
    requires Inv(s, dirs, pins, kdir) && e in dirs && v < USER_PAGES && Mappable(s, dirs, kdir, pp)
             && s.refs[pp] < 0xFFFF
    requires Target(s, dirs, Leaf(e, v)) == None || Target(s, dirs, Leaf(e, v)) == Some(pp)
    requires HasTable(s, dirs, e, v) || s.free != []
    ensures var s' := Insert(s, dirs[e], pp, v, perm).0;
            && s'.free == (if HasTable(s, dirs, e, v) then s.free else s.free[1..])
            && (forall d, i {:trigger Link(s', dirs, Table(d, i))} ::
                  Link(s', dirs, Table(d, i)).Some? <==> Link(s, dirs, Table(d, i)).Some? || (d == e && i == v / 1024))
  {
    hide Inv, Insertable, Insert, Mappable;
    InUse(s, dirs, pins, kdir, pp);
    InsertStep(s, dirs, pins, kdir, e, pp, v, perm);
    InsertTakes(s, dirs, pins, kdir, e, pp, v, perm);
    GivesNothing(s, Link(s, dirs, Leaf(e, v)), pp);
    hide GivenBack;
    assert forall q: seq<nat> :: [] + q == q;
    TablesPut(s, Insert(s, dirs[e], pp, v, perm).0, dirs, e, v);
  }

  lemma GivesNothing(s: Phys, was: Option<Word>, pp: nat)
    requires was.None? || was.value.frame == pp
    ensures GivenBack(s, was, pp) == []
  {}

  lemma TablesPut(s: Phys, s': Phys, dirs: map<nat, Frame>, e: nat, v: nat)
    requires v < USER_PAGES
    requires forall r {:trigger Link(s', dirs, r)} :: r != Leaf(e, v) && r != Table(e, v / 1024) ==>
               Link(s', dirs, r) == Link(s, dirs, r)
    requires HasTable(s, dirs, e, v) ==> Link(s', dirs, Table(e, v / 1024)) == Link(s, dirs, Table(e, v / 1024))
    requires !HasTable(s, dirs, e, v) ==> Link(s', dirs, Table(e, v / 1024)).Some?
    ensures forall d, i {:trigger Link(s', dirs, Table(d, i))} ::
              Link(s', dirs, Table(d, i)).Some? <==> Link(s, dirs, Table(d, i)).Some? || (d == e && i == v / 1024)
  {
    TableIsLink(s, dirs, e, v);
    hide Link, HasTable;
  }

  lemma TableIsLink(s: Phys, dirs: map<nat, Frame>, e: nat, v: nat)
    requires v < USER_PAGES
    ensures HasTable(s, dirs, e, v) <==> Link(s, dirs, Table(e, v / 1024)).Some?
  {}
}
