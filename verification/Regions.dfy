/** The static mappings above UTOP (boot_map_region and mmio_map_region of kern/pmap.c). */
module Regions {
  import opened Mmu
  import opened Pmap
  import opened PageTables

  const PTE_PWT: bv12 := 0x008
  const PTE_PCD: bv12 := 0x010
  const MMIOBASE := 0xef80_0000
  const MMIOLIM := 0xefc0_0000

  // ---------- which pages a region has

  // vend_ptr, after the test for an overflow
  function RegionEnd(va: nat, size: nat): nat {
    var vend := (va + size) % 0x1_0000_0000;
    if size > (0xffff_ffff - vend + 1) % 0x1_0000_0000 then 0xffff_f000 else vend
  }

  // How often the loop runs: from va until the 32-bit pointer meets the end.
  function RegionPages(va: nat, size: nat): nat { (RegionEnd(va, size) - va) % 0x1_0000_0000 / PGSIZE }

  predicate Region(va: nat, size: nat) {
    va % PGSIZE == 0 && size % PGSIZE == 0 && va < 0x1_0000_0000 && size < 0x1_0000_0000 && va + size <= 0x1_0000_0000
  }

  /** boot_map_region maps exactly the range asked for if and only if the range could be twice
      as long without passing the top of memory, or ends one page below the top. */
  lemma RegionExact(va: nat, size: nat)
    requires Region(va, size)
    ensures RegionPages(va, size) == size / PGSIZE <==> va + 2 * size <= 0x1_0000_0000 || va + size == 0xffff_f000
  {
    EndCases(va, size);
    PagesCases(va, size);
    hide RegionEnd, RegionPages;
  }

  lemma EndCases(va: nat, size: nat)
    requires va < 0x1_0000_0000 && va + size <= 0x1_0000_0000
    ensures RegionEnd(va, size) == if va + 2 * size > 0x1_0000_0000 then 0xffff_f000 else va + size
  {
    Wrapped(va + size);
    Wrapped(0xffff_ffff - (va + size) % 0x1_0000_0000 + 1);
  }

  lemma Wrapped(x: nat)
    requires x <= 0x1_0000_0000
    ensures x % 0x1_0000_0000 == if x == 0x1_0000_0000 then 0 else x
  {}

  lemma PagesCases(va: nat, size: nat)
    requires Region(va, size) && va <= RegionEnd(va, size) < 0x1_0000_0000 && RegionEnd(va, size) % PGSIZE == 0
    ensures RegionPages(va, size) * PGSIZE == RegionEnd(va, size) - va
  {
    hide RegionEnd;
  }

  /** Up to the top of memory, as for the mapping of all memory at KERNBASE, one page is missing;
      elsewhere the test for an overflow makes the mapping too long. */
  lemma RegionInexact(va: nat, size: nat)
    requires Region(va, size) && va + 2 * size > 0x1_0000_0000
    ensures va + size == 0x1_0000_0000 ==> RegionPages(va, size) == size / PGSIZE - 1
    ensures va + size < 0xffff_f000 ==> RegionPages(va, size) > size / PGSIZE
  {
    EndCases(va, size);
    PagesCases(va, size);
    hide RegionEnd, RegionPages;
  }

  // ---------- one page directory

  /** A page directory with its tables: none of them free or used twice. */
  ghost predicate Tree(s: Phys, dir: nat) {
    && |s.mem| == |s.refs| <= 0x10_0000 && dir < |s.mem| && dir !in s.free
    && (forall i, j :: 0 <= i < j < |s.free| ==> s.free[i] != s.free[j])
    && (forall p: nat :: p in s.free ==> p < |s.mem|)
    && (forall i: nat :: i < 1024 && HasPde(s, dir, i) ==>
         TableFrame(s, dir, i) < |s.mem| && TableFrame(s, dir, i) != dir && TableFrame(s, dir, i) !in s.free)
    && (forall i: nat, j: nat :: i < j < 1024 && HasPde(s, dir, i) && HasPde(s, dir, j) ==>
         TableFrame(s, dir, i) != TableFrame(s, dir, j))
  }

  predicate HasPde(s: Phys, dir: nat, i: nat) { Present(Cell(s, dir, i)) }

  function TableFrame(s: Phys, dir: nat, i: nat): nat { Cell(s, dir, i).frame }

  // What the hardware finds for page v: the table entry, and nothing where there is no table.
  function Entry(s: Phys, dir: nat, v: nat): Word {
    if HasPde(s, dir, v / 1024) then Cell(s, TableFrame(s, dir, v / 1024), v % 1024) else ZERO
  }

  // No count and no contents of a page in use changed, but for the directory and its tables.
  ghost predicate UsersKept(s: Phys, s': Phys, dir: nat) {
    && |s'.mem| == |s.mem| && |s'.refs| == |s.refs|
    && (forall p: nat :: p in s'.free ==> p in s.free)
    && (forall p: nat :: p < |s.refs| && p !in s.free ==> s'.refs[p] == s.refs[p])
    && (forall p: nat :: p < |s.mem| && p !in s.free && p != dir && !IsTable(s, dir, p) ==>
         s'.mem[p] == s.mem[p] && !IsTable(s', dir, p))
  }

  ghost predicate IsTable(s: Phys, dir: nat, p: nat) {
    exists i: nat :: i < 1024 && HasPde(s, dir, i) && TableFrame(s, dir, i) == p
  }

  // A page table is hung into the directory.
  ghost predicate TableHung(s: Phys, s': Phys, dir: nat, k: nat, p: nat) {
    && s.free != [] && p == s.free[0] && s'.free == s.free[1..]
    && |s'.mem| == |s.mem| && |s'.refs| == |s.refs|
    && (forall q: nat :: q < |s.refs| && q != p ==> s'.refs[q] == s.refs[q])
    && (forall q: nat :: q < |s.mem| && q != p && q != dir ==> s'.mem[q] == s.mem[q])
    && (forall q: nat, j: nat :: q != p && q != dir ==> Cell(s', q, j) == Cell(s, q, j))
    && (forall j: nat :: Cell(s', p, j) == ZERO)
    && (forall j: nat :: j < 1024 && j != k ==> Cell(s', dir, j) == Cell(s, dir, j))
    && HasPde(s', dir, k) && TableFrame(s', dir, k) == p && !HasPde(s, dir, k)
  }

  lemma HangTable(s: Phys, dir: nat, v: nat)
    requires Tree(s, dir) && v < 0x10_0000 && !HasPde(s, dir, v / 1024) && s.free != []
    ensures var (s', pte) := Walk(s, dir, v, true);
            TableHung(s, s', dir, v / 1024, s.free[0]) && pte == Some(PtePtr(s.free[0], v % 1024))
  {
    assert s.free[0] in s.free;
    assert PTE_P | PTE_W | PTE_U == 7 && (7 as bv12) & PTE_P != 0;
  }

  lemma HungTree(s: Phys, s': Phys, dir: nat, k: nat, p: nat)
    requires Tree(s, dir) && k < 1024 && TableHung(s, s', dir, k, p)
    ensures Tree(s', dir) && UsersKept(s, s', dir)
  {
    hide Cell;
    assert p in s.free;
    forall q: nat | q in s'.free ensures q in s.free && q != p {
      var i :| 0 <= i < |s'.free| && s'.free[i] == q;
      assert s.free[i + 1] == q;
    }
    assert forall i: nat :: i < 1024 && i != k ==>
             HasPde(s', dir, i) == HasPde(s, dir, i) && TableFrame(s', dir, i) == TableFrame(s, dir, i);
  }

  lemma HungEntries(s: Phys, s': Phys, dir: nat, k: nat, p: nat, u: nat)
    requires Tree(s, dir) && k < 1024 && TableHung(s, s', dir, k, p) && u < 0x10_0000
    ensures Entry(s', dir, u) == Entry(s, dir, u)
  {
    hide Cell;
    assert p in s.free;
    if u / 1024 != k { assert HasPde(s', dir, u / 1024) == HasPde(s, dir, u / 1024); }
  }

  // pgdir_walk(dir, v, 1)
  lemma WalkTree(s: Phys, dir: nat, v: nat)
    requires Tree(s, dir) && v < 0x10_0000
    ensures var (s', pte) := Walk(s, dir, v, true);
            && (pte == None <==> !HasPde(s, dir, v / 1024) && s.free == [])
            && (pte == None ==> s' == s)
            && (pte != None ==>
                && Tree(s', dir) && UsersKept(s, s', dir)
                && HasPde(s', dir, v / 1024) && pte == Some(PtePtr(TableFrame(s', dir, v / 1024), v % 1024))
                && (forall i: nat :: i < 1024 && i != v / 1024 ==> Cell(s', dir, i) == Cell(s, dir, i))
                && |s'.free| == |s.free| - (if HasPde(s, dir, v / 1024) then 0 else 1)
                && (forall u: nat :: u < 0x10_0000 ==> Entry(s', dir, u) == Entry(s, dir, u)))
  {
    if !HasPde(s, dir, v / 1024) && s.free != [] {
      var s' := Walk(s, dir, v, true).0;
      HangTable(s, dir, v);
      hide Cell, Walk;
      HungTree(s, s', dir, v / 1024, s.free[0]);
      forall u: nat | u < 0x10_0000 ensures Entry(s', dir, u) == Entry(s, dir, u) {
        HungEntries(s, s', dir, v / 1024, s.free[0], u);
      }
    }
  }

  // *ppte = w
  lemma EntrySet(s: Phys, dir: nat, v: nat, w: Word)
    requires Tree(s, dir) && v < 0x10_0000 && HasPde(s, dir, v / 1024)
    ensures var s' := SetCell(s, TableFrame(s, dir, v / 1024), v % 1024, w);
            && Tree(s', dir) && UsersKept(s, s', dir) && s'.free == s.free
            && (forall i: nat :: i < 1024 ==> Cell(s', dir, i) == Cell(s, dir, i))
            && (forall u: nat :: u < 0x10_0000 ==> Entry(s', dir, u) == if u == v then w else Entry(s, dir, u))
  {
    var t := TableFrame(s, dir, v / 1024);
    var s' := SetCell(s, t, v % 1024, w);
    assert IsTable(s, dir, t);
    assert forall q: nat, j: nat :: Cell(s', q, j) == if q == t && j == v % 1024 then w else Cell(s, q, j);
    hide Cell;
    assert forall i: nat :: i < 1024 ==>
             Cell(s', dir, i) == Cell(s, dir, i) && HasPde(s', dir, i) == HasPde(s, dir, i)
               && TableFrame(s', dir, i) == TableFrame(s, dir, i);
    forall u: nat | u < 0x10_0000 ensures Entry(s', dir, u) == if u == v then w else Entry(s, dir, u) {
      assert u / 1024 < 1024 && u == u / 1024 * 1024 + u % 1024;
    }
  }

  lemma KeptTwice(s: Phys, s1: Phys, s2: Phys, dir: nat)
    requires UsersKept(s, s1, dir) && UsersKept(s1, s2, dir)
    ensures UsersKept(s, s2, dir)
  {}

  // ---------- a whole region

  /** The loop of boot_map_region: n pages from page v on, mapped to those from f on; false
      stands for its panic. */
  function MapRegion(s: Phys, dir: nat, v: nat, n: nat, f: nat, perm: bv12): (Phys, bool)
    decreases n
  {
    if n == 0 then (s, true)
    else
      var (s1, pte) := Walk(s, dir, v, true);
      if pte.None? then (s1, false)
      else MapRegion(SetCell(s1, pte.value.frame, pte.value.index, Mapped(f, perm)), dir, v + 1, n - 1, f + 1, perm)
  }

  // pa_ptr is a 32-bit pointer
  function Mapped(f: nat, perm: bv12): Word { Word(f % 0x10_0000, perm | PTE_P) }

  // How many of the tables from i up to j are missing.
  function Missing(s: Phys, dir: nat, i: nat, j: nat): nat
    decreases j - i
  {
    if i >= j then 0 else (if HasPde(s, dir, i) then 0 else 1) + Missing(s, dir, i + 1, j)
  }

  // How many new page tables the n pages from v on need.
  function TablesNeeded(s: Phys, dir: nat, v: nat, n: nat): nat {
    if n == 0 then 0 else Missing(s, dir, v / 1024, (v + n - 1) / 1024 + 1)
  }

  lemma {:induction false} MissingSame(s: Phys, s': Phys, dir: nat, i: nat, j: nat)
    requires j <= 1024 && forall k: nat :: i <= k < j ==> Cell(s', dir, k) == Cell(s, dir, k)
    ensures Missing(s', dir, i, j) == Missing(s, dir, i, j)
    decreases j - i
  {
    if i < j { MissingSame(s, s', dir, i + 1, j); }
  }

  lemma NeededNext(s: Phys, s': Phys, dir: nat, v: nat, n: nat)
    requires n >= 1 && v + n <= 0x10_0000 && HasPde(s', dir, v / 1024)
    requires forall i: nat :: i < 1024 && i != v / 1024 ==> Cell(s', dir, i) == Cell(s, dir, i)
    ensures TablesNeeded(s, dir, v, n)
              == TablesNeeded(s', dir, v + 1, n - 1) + (if HasPde(s, dir, v / 1024) then 0 else 1)
  {
    var i, j := v / 1024, (v + n - 1) / 1024 + 1;
    assert (v + 1) / 1024 == i || (v + 1) / 1024 == i + 1;
    MissingSame(s, s', dir, i + 1, j);
    assert Missing(s', dir, i, j) == Missing(s', dir, i + 1, j);
  }

  // One round of the loop.
  function MapOne(s: Phys, dir: nat, v: nat, f: nat, perm: bv12): (Phys, bool) {
    var (s1, pte) := Walk(s, dir, v, true);
    if pte.None? then (s1, false) else (SetCell(s1, pte.value.frame, pte.value.index, Mapped(f, perm)), true)
  }

  lemma MapOneMaps(s: Phys, dir: nat, v: nat, f: nat, perm: bv12)
    requires Tree(s, dir) && v < 0x10_0000
    ensures var (s', ok) := MapOne(s, dir, v, f, perm);
            && (ok <==> HasPde(s, dir, v / 1024) || s.free != []) && (!ok ==> s' == s)
            && (ok ==>
                && Tree(s', dir) && UsersKept(s, s', dir) && HasPde(s', dir, v / 1024)
                && |s'.free| == |s.free| - (if HasPde(s, dir, v / 1024) then 0 else 1)
                && (forall i: nat :: i < 1024 && i != v / 1024 ==> Cell(s', dir, i) == Cell(s, dir, i))
                && (forall u: nat :: u < 0x10_0000 ==>
                     Entry(s', dir, u) == if u == v then Mapped(f, perm) else Entry(s, dir, u)))
  {
    hide Tree, UsersKept, Entry, Walk, SetCell, Cell, Mapped;
    WalkTree(s, dir, v);
    var (s1, pte) := Walk(s, dir, v, true);
    if pte.Some? {
      EntrySet(s1, dir, v, Mapped(f, perm));
      KeptTwice(s, s1, MapOne(s, dir, v, f, perm).0, dir);
    }
  }

  lemma SelfKept(s: Phys, dir: nat)
    ensures UsersKept(s, s, dir)
  {}

  /** boot_map_region puts every page of the region where it belongs, leaves every other address
      of the directory as it was, does not touch the counts of the pages it maps, nor any page in
      use but the directory and its tables, takes one page per missing table, and panics exactly
      if there are not enough. */
  lemma {:induction false} MapRegionMaps(s: Phys, dir: nat, v: nat, n: nat, f: nat, perm: bv12)
    requires Tree(s, dir) && v + n <= 0x10_0000
    ensures var (s', ok) := MapRegion(s, dir, v, n, f, perm);
            && (ok <==> TablesNeeded(s, dir, v, n) <= |s.free|)
            && Tree(s', dir) && UsersKept(s, s', dir)
            && (ok ==> |s'.free| == |s.free| - TablesNeeded(s, dir, v, n))
            && (ok ==> forall u: nat :: u < 0x10_0000 ==>
                  Entry(s', dir, u) == if v <= u < v + n then Mapped(f + u - v, perm) else Entry(s, dir, u))
    decreases n
  {
    hide Tree, UsersKept, Entry, Walk, SetCell, Cell, Mapped, TablesNeeded, HasPde;
    if n == 0 {
      SelfKept(s, dir);
      NoneNeeded(s, dir, v);
    } else {
      MapOneMaps(s, dir, v, f, perm);
      var (s1, ok) := MapOne(s, dir, v, f, perm);
      if ok {
        NeededNext(s, s1, dir, v, n);
        MapRegionMaps(s1, dir, v + 1, n - 1, f + 1, perm);
        KeptTwice(s, s1, MapRegion(s, dir, v, n, f, perm).0, dir);
      } else {
        SelfKept(s, dir);
        OneNeeded(s, dir, v, n);
      }
    }
  }

  lemma NoneNeeded(s: Phys, dir: nat, v: nat)
    ensures TablesNeeded(s, dir, v, 0) == 0
  {}

  lemma OneNeeded(s: Phys, dir: nat, v: nat, n: nat)
    requires n >= 1 && !HasPde(s, dir, v / 1024)
    ensures TablesNeeded(s, dir, v, n) >= 1
  {
    assert v / 1024 < (v + n - 1) / 1024 + 1;
  }

  // ---------- in place

  lemma TreeRooted(s: Phys, dir: nat, v: nat)
    requires Tree(s, dir) && v < 0x10_0000
    ensures Rooted(s, dir, v)
  {
    assert HasPde(s, dir, v / 1024) ==> TableFrame(s, dir, v / 1024) < |s.mem|;
  }

  // one round of the loop
  method MapPage(pm: Pages, dir: nat, v: nat, f: nat, perm: bv12) returns (ok: bool)
    requires pm.Valid() && Tree(pm.View(), dir) && v < 0x10_0000
    modifies pm`pageFreeList, pm`free, pm.ppLink, pm.ppRef, pm.mem
    ensures pm.Valid() && (pm.View(), ok) == MapOne(old(pm.View()), dir, v, f, perm)
  {
    hide Linked, Unlinked, Tree, Walk, SetCell, Rooted, Walkable;
    TreeRooted(pm.View(), dir, v);
    var pte := pm.PgdirWalk(dir, v, true);
    if pte == None { return false; }
    pm.SetPte(pte.value, Mapped(f, perm));
    return true;
  }

  // vend_ptr is on a page boundary at or above va.
  lemma EndPointer(va: nat, size: nat)
    requires Region(va, size)
    ensures va <= RegionEnd(va, size) < 0x1_0000_0000 && (RegionEnd(va, size) - va) % PGSIZE == 0
    ensures (RegionEnd(va, size) - va) / PGSIZE == RegionPages(va, size)
  {
    EndCases(va, size);
    PagesCases(va, size);
  }

  lemma NoPages(s: Phys, dir: nat, v: nat, f: nat, perm: bv12)
    ensures MapRegion(s, dir, v / PGSIZE, 0, f / PGSIZE, perm) == (s, true)
  {}

  lemma RoundStep(s: Phys, dir: nat, v: nat, vend: nat, f: nat, perm: bv12)
    requires Tree(s, dir) && v < vend < 0x1_0000_0000 && (vend - v) % PGSIZE == 0
    ensures v + PGSIZE <= vend && (vend - (v + PGSIZE)) % PGSIZE == 0 && v / PGSIZE < 0x10_0000
    ensures var (s1, ok) := MapOne(s, dir, v / PGSIZE, f / PGSIZE, perm);
            && (ok ==> Tree(s1, dir))
            && MapRegion(s, dir, v / PGSIZE, (vend - v) / PGSIZE, f / PGSIZE, perm)
               == if ok then MapRegion(s1, dir, (v + PGSIZE) / PGSIZE, (vend - (v + PGSIZE)) / PGSIZE,
                 (f + PGSIZE) / PGSIZE, perm) else (s1, false)
  {
    hide Tree, UsersKept, Entry, Walk, SetCell, Cell, Mapped;
    MapOneMaps(s, dir, v / PGSIZE, f / PGSIZE, perm);
  }

  /** boot_map_region in place. */
  method BootMapRegion(pm: Pages, dir: nat, va: nat, size: nat, pa: nat, perm: bv12) returns (panic: bool)
    requires pm.Valid() && Tree(pm.View(), dir) && Region(va, size)
    modifies pm`pageFreeList, pm`free, pm.ppLink, pm.ppRef, pm.mem
    ensures pm.Valid()
            && (pm.View(), !panic)
                 == MapRegion(old(pm.View()), dir, va / PGSIZE, RegionPages(va, size), pa / PGSIZE, perm)
  {
    hide Linked, Unlinked, Tree, MapOne, MapRegion, Entry, RegionPages;
    EndPointer(va, size);
    var vend: nat := (va + size) % 0x1_0000_0000;
    if size > (0xffff_ffff - vend + 1) % 0x1_0000_0000 { vend := 0xffff_f000; }
    var v: nat, f: nat := va, pa;
    while v != vend
      invariant v <= vend && (vend - v) % PGSIZE == 0 && pm.Valid() && Tree(pm.View(), dir)
      invariant MapRegion(pm.View(), dir, v / PGSIZE, (vend - v) / PGSIZE, f / PGSIZE, perm)
             == MapRegion(old(pm.View()), dir, va / PGSIZE, RegionPages(va, size), pa / PGSIZE, perm)
      decreases vend - v
    {
      RoundStep(pm.View(), dir, v, vend, f, perm);
      var ok := MapPage(pm, dir, v / PGSIZE, f / PGSIZE, perm);
      if !ok { return true; }
      v, f := v + PGSIZE, f + PGSIZE;
    }
    NoPages(pm.View(), dir, v, f, perm);
    return false;
  }

  // ---------- device memory

  function RoundUp(size: nat): nat { (size + PGSIZE - 1) / PGSIZE * PGSIZE }

  const DEVICE: bv12 := PTE_PCD | PTE_PWT | PTE_W

  lemma DeviceRegion(base: nat, size: nat)
    requires MMIOBASE <= base && base % PGSIZE == 0 && base + size <= MMIOLIM
    ensures base + RoundUp(size) <= MMIOLIM && (base + RoundUp(size)) % PGSIZE == 0 && RoundUp(size) >= size
    ensures Region(base, RoundUp(size)) && RegionPages(base, RoundUp(size)) == RoundUp(size) / PGSIZE
    ensures base / PGSIZE + RoundUp(size) / PGSIZE == (base + RoundUp(size)) / PGSIZE <= 0x10_0000
  {
    RegionExact(base, RoundUp(size));
    hide RegionPages;
  }

  // What a call leaves: the pages from `base` up to `base'` are those of the device.
  ghost predicate Device(s: Phys, s': Phys, dir: nat, base: nat, base': nat, pa: nat) {
    && Tree(s', dir) && UsersKept(s, s', dir)
    && forall u: nat :: u < 0x10_0000 ==>
         Entry(s', dir, u) == if base / PGSIZE <= u < base' / PGSIZE
           then Mapped(pa / PGSIZE + u - base / PGSIZE, PTE_PCD | PTE_PWT | PTE_W) else Entry(s, dir, u)
  }

  lemma DeviceMapped(s: Phys, dir: nat, base: nat, size: nat, pa: nat)
    requires Tree(s, dir) && MMIOBASE <= base && base % PGSIZE == 0 && base + size <= MMIOLIM
    ensures var (s', ok) := MapRegion(s, dir, base / PGSIZE, RoundUp(size) / PGSIZE, pa / PGSIZE, DEVICE);
            && (ok <==> TablesNeeded(s, dir, base / PGSIZE, RoundUp(size) / PGSIZE) <= |s.free|)
            && Tree(s', dir) && (ok ==> Device(s, s', dir, base, base + RoundUp(size), pa))
  {
    hide Tree, UsersKept, Entry, Mapped, TablesNeeded;
    DeviceRegion(base, size);
    MapRegionMaps(s, dir, base / PGSIZE, RoundUp(size) / PGSIZE, pa / PGSIZE, DEVICE);
  }

  /** The allocator of the MMIO window, with its static `base`. */
  class Mmio {
    const pm: Pages
    const kernPgdir: nat
    var base: nat

    ghost predicate Valid()
      reads this, pm, pm.ppLink, pm.ppRef, pm.mem
    {
      pm.Valid() && Tree(pm.View(), kernPgdir) && MMIOBASE <= base <= MMIOLIM && base % PGSIZE == 0
    }

    constructor (pages: Pages, dir: nat)
      requires pages.Valid() && Tree(pages.View(), dir)
      ensures Valid() && pm == pages && kernPgdir == dir && base == MMIOBASE
    {
      pm, kernPgdir, base := pages, dir, MMIOBASE;
    }

    /** mmio_map_region: each call gets the next pages of the window, so the regions of two calls
        never meet, and the window is never passed; it panics exactly if the region does not fit
        or a page table is missing and memory is out. */
    method MmioMapRegion(pa: nat, size: nat) returns (panic: bool, region: nat)
      requires Valid() && base + size < 0x1_0000_0000
      modifies this`base, pm`pageFreeList, pm`free, pm.ppLink, pm.ppRef, pm.mem
      ensures panic <==>
                old(base) + size > MMIOLIM
                  || old(TablesNeeded(pm.View(), kernPgdir, base / PGSIZE, RoundUp(size) / PGSIZE) > |pm.free|)
      ensures panic ==> base == old(base)
      ensures !panic ==> Valid() && region == old(base) && base == region + RoundUp(size)
      ensures !panic ==> Device(old(pm.View()), pm.View(), kernPgdir, region, base, pa)
    {
      hide Tree, Linked, Unlinked, TablesNeeded, MapRegion, RegionPages, Region, RoundUp, Device;
      if base + size > MMIOLIM { return true, 0; }
      DeviceRegion(base, size);
      DeviceMapped(pm.View(), kernPgdir, base, size, pa);
      panic := BootMapRegion(pm, kernPgdir, base, RoundUp(size), pa, DEVICE);
      if panic { return true, 0; }
      base := base + RoundUp(size);
      region := base - RoundUp(size);
    }
  }
}
