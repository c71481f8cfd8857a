/** The kernel's half of the page directories: env_setup_vm copies it from kern_pgdir, and no
    operation on page tables writes it. */
module Directories {
  import opened Mmu
  import opened Pmap
  import opened EnvVm
  import opened Paging

  // Directory d holds above UTOP what kern_pgdir holds, but for the slot that maps d itself.
  ghost predicate KernelHalf(s: Phys, d: Frame, kdir: nat) {
    forall i {:trigger Cell(s, d, i)} :: USER_PDES <= i < 1024 ==>
      Cell(s, d, i) == if i == UVPT_SLOT then Word(d, READ_ONLY) else Cell(s, kdir, i)
  }

  ghost predicate Halves(s: Phys, dirs: map<nat, Frame>, kdir: Frame) {
    MapsItself(s, kdir) && forall e :: e in dirs ==> KernelHalf(s, dirs[e], kdir)
  }

  lemma HalvesMapThemselves(s: Phys, dirs: map<nat, Frame>, kdir: Frame, e: nat)
    requires Halves(s, dirs, kdir) && e in dirs
    ensures MapsItself(s, dirs[e])
  {
    assert KernelHalf(s, dirs[e], kdir);
  }

  // kern_pgdir, or the directory of an environment
  ghost predicate IsDir(dirs: map<nat, Frame>, kdir: nat, q: nat) { q == kdir || exists d :: d in dirs && dirs[d] == q }

  ghost predicate UpperSame(s: Phys, s': Phys, q: nat) {
    forall i :: USER_PDES <= i < 1024 ==> Cell(s', q, i) == Cell(s, q, i)
  }

  ghost predicate UppersSame(s: Phys, s': Phys, dirs: map<nat, Frame>, kdir: nat) {
    forall q: nat {:trigger UpperSame(s, s', q)} :: IsDir(dirs, kdir, q) ==> UpperSame(s, s', q)
  }

  lemma DirOfEnv(dirs: map<nat, Frame>, kdir: nat, e: nat)
    requires e in dirs
    ensures IsDir(dirs, kdir, dirs[e])
  {}

  lemma HalvesKept(s: Phys, s': Phys, dirs: map<nat, Frame>, dirs': map<nat, Frame>, kdir: Frame)
    requires Halves(s, dirs, kdir) && UppersSame(s, s', dirs', kdir)
    requires forall e :: e in dirs' ==> e in dirs && dirs'[e] == dirs[e]
    ensures Halves(s', dirs', kdir)
  {
    assert UpperSame(s, s', kdir) && USER_PDES <= UVPT_SLOT < 1024;
    forall e | e in dirs' ensures KernelHalf(s', dirs'[e], kdir) {
      DirOfEnv(dirs', kdir, e);
      assert UpperSame(s, s', dirs'[e]) && KernelHalf(s, dirs[e], kdir);
    }
  }

  lemma UppersChain(s: Phys, s1: Phys, s2: Phys, dirs: map<nat, Frame>, kdir: nat)
    requires UppersSame(s, s1, dirs, kdir) && UppersSame(s1, s2, dirs, kdir)
    ensures UppersSame(s, s2, dirs, kdir)
  {
    forall q: nat | IsDir(dirs, kdir, q) ensures UpperSame(s, s2, q) {
      assert UpperSame(s, s1, q) && UpperSame(s1, s2, q);
    }
  }

  lemma NothingWritten(s: Phys, s': Phys, dirs: map<nat, Frame>, kdir: nat)
    requires s'.mem == s.mem
    ensures UppersSame(s, s', dirs, kdir)
  {
    forall q: nat ensures UpperSame(s, s', q) {}
  }

  lemma PageSame(s: Phys, s': Phys, q: nat)
    requires PageWords(s', q) == PageWords(s, q)
    ensures UpperSame(s, s', q)
  {
    forall i | USER_PDES <= i < 1024 ensures Cell(s', q, i) == Cell(s, q, i) {
      assert Cell(s', q, i) == PageWords(s', q)[i] && Cell(s, q, i) == PageWords(s, q)[i];
    }
  }

  lemma NotTheSame(dirs: map<nat, Frame>, kdir: nat, e: nat, q: nat)
    requires IsDir(dirs, kdir, q) && e in dirs && q != dirs[e]
    ensures IsDir(dirs - {e}, kdir, q)
  {
    if q != kdir {
      var d :| d in dirs && dirs[d] == q;
      assert d in dirs - {e} && (dirs - {e})[d] == q;
    }
  }

  // A directory other than that of e, or kern_pgdir, is no table of e.
  lemma OtherDirectory(s: Phys, dirs: map<nat, Frame>, pins: seq<nat>, kdir: nat, e: nat, q: nat, r: Ref)
    requires Inv(s, dirs, pins, kdir) && IsDir(dirs - {e}, kdir, q) && !r.Leaf? && r.e == e
    ensures Target(s, dirs, r) != Some(q)
  {
    if q != kdir {
      var d :| d in dirs - {e} && dirs[d] == q;
      assert Target(s, dirs, Root(d)) == Some(q) && Sole(s, dirs, Root(d));
    }
  }

  lemma DirectoryIsNoTable(s: Phys, dirs: map<nat, Frame>, e: nat, v: nat)
    requires Owned(s, dirs) && HasTable(s, dirs, e, v)
    ensures TableOf(s, dirs, e, v) != dirs[e]
  {
    assert Target(s, dirs, Root(e)) == Some(dirs[e])
           && Target(s, dirs, Table(e, v / 1024)) == Some(TableOf(s, dirs, e, v));
    assert Sole(s, dirs, Root(e));
  }

  // A directory is not a free page, nor a page that holds data.
  lemma DirectoryInUse(s: Phys, dirs: map<nat, Frame>, pins: seq<nat>, kdir: nat, q: nat)
    requires Inv(s, dirs, pins, kdir) && IsDir(dirs, kdir, q)
    ensures q !in s.free && forall e, v :: Target(s, dirs, Leaf(e, v)) != Some(q)
  {
    if q in s.free { FreePageUnused(s, dirs, pins, kdir, q, Root(0)); }
    if q != kdir {
      var d :| d in dirs && dirs[d] == q;
      assert Target(s, dirs, Root(d)) == Some(q) && Sole(s, dirs, Root(d));
      if q in s.free { FreePageUnused(s, dirs, pins, kdir, q, Root(d)); }
    }
  }

  // ---------- page_insert

  // After a walk that succeeds pp still holds data, and there is a table.
  lemma WalkedData(s: Phys, dirs: map<nat, Frame>, pins: seq<nat>, kdir: nat, e: nat, pp: Frame, v: nat)
    requires Inv(s, dirs, pins, kdir) && e in dirs && v < USER_PAGES && Data(s, dirs, pp) && pp < |pins|
             && pins[pp] >= 1
    requires Walk(s, dirs[e], v, true).1.Some?
    ensures var s1 := Walk(s, dirs[e], v, true).0;
            && Inv(s1, dirs, pins, kdir) && Data(s1, dirs, pp) && HasTable(s1, dirs, e, v) && Owned(s1, dirs)
            && Walk(s, dirs[e], v, true).1 == Some(PtePtr(TableOf(s1, dirs, e, v), v % 1024))
  {
    WalkStep(s, dirs, pins, kdir, e, v);
    var s1 := Walk(s, dirs[e], v, true).0;
    if HasTable(s, dirs, e, v) {
      assert Link(s, dirs, Table(e, v / 1024)) == Some(Cell(s, dirs[e], v / 1024));
      assert Target(s, dirs, Table(e, v / 1024)) != Some(pp);
    }
    StillData(s, s1, dirs, Table(e, v / 1024), Some(Cell(s1, dirs[e], v / 1024)), pp);
    hide Walk;
  }

  lemma WalkKeepsUpper(s: Phys, dirs: map<nat, Frame>, pins: seq<nat>, kdir: nat, e: nat, v: nat)
    requires Inv(s, dirs, pins, kdir) && e in dirs && v < USER_PAGES
    ensures UpperSame(s, Walk(s, dirs[e], v, true).0, dirs[e])
  {
    if !HasTable(s, dirs, e, v) && s.free != [] {
      assert s.free[0] in s.free;
      FreePageUnused(s, dirs, pins, kdir, s.free[0], Root(e));
      assert Target(s, dirs, Root(e)) == Some(dirs[e]);
    }
  }

  lemma NotKernel(s: Phys, dirs: map<nat, Frame>, pins: seq<nat>, kdir: nat, pp: nat)
    requires Insertable(s, dirs, pins, kdir, pp)
    ensures pp != kdir
  {}

  // In the directory of e page_insert writes no slot beyond the user part,
  lemma InsertKeepsUpper(s: Phys,
                         dirs: map<nat, Frame>, pins: seq<nat>, kdir: nat, e: nat, pp: Frame, v: nat, perm: bv12)
    requires Insertable(s, dirs, pins, kdir, pp) && e in dirs && v < USER_PAGES && Insert(s, dirs[e], pp, v, perm).1
    ensures UpperSame(s, Insert(s, dirs[e], pp, v, perm).0, dirs[e])
  {
    hide Inv, Insertable, Vacate, Data, Owned;
    ClaimStep(s, dirs, pins, kdir, pp);
    ClaimedWalk(s, dirs, pins, kdir, dirs[e], pp, v);
    var c := IncRef(s, pp);
    var c1, left := Walk(c, dirs[e], v, true).0, Bump(pins, pp, 1);
    WalkKeepsUpper(c, dirs, left, kdir, e, v);
    WalkedData(c, dirs, left, kdir, e, pp, v);
    NotKernel(s, dirs, pins, kdir, pp);
    PlaceStep(c1, dirs, left, kdir, e, pp, v, perm);
    hide SetCell;
    DirectoryIsNoTable(c1, dirs, e, v);
    var s' := Insert(s, dirs[e], pp, v, perm).0;
    assert PageWords(s', dirs[e]) == PageWords(c1, dirs[e]);
    PageSame(c1, s', dirs[e]);
    assert forall i :: Cell(c, dirs[e], i) == Cell(s, dirs[e], i);
  }

  // and no other directory.
  lemma InsertKeepsUppers(s: Phys,
                          dirs: map<nat, Frame>, pins: seq<nat>, kdir: nat, e: nat, pp: Frame, v: nat, perm: bv12)
    requires Insertable(s, dirs, pins, kdir, pp) && e in dirs && v < USER_PAGES
    ensures UppersSame(s, Insert(s, dirs[e], pp, v, perm).0, dirs, kdir)
  {
    var (s', ok) := Insert(s, dirs[e], pp, v, perm);
    InsertStep(s, dirs, pins, kdir, e, pp, v, perm);
    if ok {
      InsertKeepsUpper(s, dirs, pins, kdir, e, pp, v, perm);
      assert Link(s', dirs, Table(e, v / 1024)) == Some(Cell(s', dirs[e], v / 1024));
      assert Target(s', dirs, Root(e)) == Some(dirs[e])
             && Target(s', dirs, Table(e, v / 1024)) == Some(TableOf(s', dirs, e, v));
      hide Insert, Inv, Insertable, Cell, Target, Link, UpperSame;
      forall q: nat | IsDir(dirs, kdir, q) && q != dirs[e] ensures UpperSame(s, s', q) {
        NotTheSame(dirs, kdir, e, q);
        OtherDirectory(s', dirs, pins, kdir, e, q, Root(e));
        OtherDirectory(s', dirs, pins, kdir, e, q, Table(e, v / 1024));
        PageSame(s, s', q);
      }
    } else {
      NothingWritten(s, s', dirs, kdir);
    }
  }

  lemma RegionKeepsUppers(s: Phys,
                          dirs: map<nat, Frame>, pins: seq<nat>, kdir: nat, e: nat, v: nat, perm: bv12)
    requires Inv(s, dirs, pins, kdir) && e in dirs && v < USER_PAGES && s.free != []
    ensures UppersSame(s, RegionAlloc(s, dirs[e], v, perm).0, dirs, kdir)
  {
    hide Inv, Insertable, Insert, UppersSame;
    TakenIsFrame(s, dirs, pins, kdir);
    TakeStep(s, dirs, pins, kdir, false);
    NothingWritten(s, PageTake(s), dirs, kdir);
    InsertKeepsUppers(PageTake(s), dirs, pins, kdir, e, s.free[0], v, perm);
    UppersChain(s, PageTake(s), RegionAlloc(s, dirs[e], v, perm).0, dirs, kdir);
  }

  // ---------- page_remove, env_setup_vm, env_free, page_alloc, and stores

  lemma RemoveKeepsUppers(s: Phys, dirs: map<nat, Frame>, pins: seq<nat>, kdir: nat, e: nat, v: nat)
    requires Inv(s, dirs, pins, kdir) && Target(s, dirs, Leaf(e, v)).Some?
    ensures UppersSame(s, Remove(s, dirs[e], v), dirs, kdir)
  {
    var s', t := Remove(s, dirs[e], v), TableOf(s, dirs, e, v);
    RemoveStep(s, dirs, pins, kdir, e, v);
    DirectoryIsNoTable(s, dirs, e, v);
    OneTableWritten(s, s', t, v % 1024);
    assert Target(s, dirs, Table(e, v / 1024)) == Some(t);
    hide Remove, Inv, Cell, Target, Link, UpperSame;
    forall q: nat | IsDir(dirs, kdir, q) ensures UpperSame(s, s', q) {
      if q != dirs[e] {
        NotTheSame(dirs, kdir, e, q);
        OtherDirectory(s, dirs, pins, kdir, e, q, Table(e, v / 1024));
      }
      PageSame(s, s', q);
    }
  }

  /** env_setup_vm leaves the other directories alone and gives the new one the kernel's half. */
  lemma SetupHalf(s: Phys, dirs: map<nat, Frame>, pins: seq<nat>, kdir: Frame, e: nat)
    requires Inv(s, dirs, pins, kdir) && e !in dirs && SetupVm(s, kdir).1.Some?
    ensures var (s', p) := SetupVm(s, kdir);
            p.value < 0x10_0000 && UppersSame(s, s', dirs, kdir) && KernelHalf(s', p.value, kdir)
  {
    SetupStep(s, dirs, pins, kdir, e);
    var s', p := SetupVm(s, kdir).0, SetupVm(s, kdir).1.value;
    assert p in s.free;
    hide SetupVm, Inv, UpperSame, IsDir;
    forall q: nat | IsDir(dirs, kdir, q) ensures UpperSame(s, s', q) {
      DirectoryInUse(s, dirs, pins, kdir, q);
      PageSame(s, s', q);
    }
    assert UpperSame(s, s', kdir) by { assert IsDir(dirs, kdir, kdir) by { KernelIsDir(dirs, kdir); } }
    KernelUpper(s, s', p, kdir);
  }

  lemma KernelIsDir(dirs: map<nat, Frame>, kdir: nat)
    ensures IsDir(dirs, kdir, kdir)
  {}

  lemma KernelUpper(s: Phys, s': Phys, p: Frame, kdir: nat)
    requires UpperSame(s, s', kdir)
    requires forall i {:trigger Cell(s', p, i)} :: USER_PDES <= i < 1024 ==>
               Cell(s', p, i) == if i == UVPT_SLOT then Word(p, PTE_P | PTE_U) else Cell(s, kdir, i)
    ensures KernelHalf(s', p, kdir)
  {}

  lemma SetupHalves(s: Phys, dirs: map<nat, Frame>, pins: seq<nat>, kdir: Frame, e: nat)
    requires Inv(s, dirs, pins, kdir) && e !in dirs && SetupVm(s, kdir).1.Some? && Halves(s, dirs, kdir)
    ensures var (s', p) := SetupVm(s, kdir); p.value < 0x10_0000 && Halves(s', dirs[e := p.value], kdir)
  {
    hide SetupVm, Inv;
    SetupHalf(s, dirs, pins, kdir, e);
    HalvesKept(s, SetupVm(s, kdir).0, dirs, dirs, kdir);
  }

  lemma FreeKeepsUppers(s: Phys, dirs: map<nat, Frame>, pins: seq<nat>, kdir: nat, e: nat)
    requires Inv(s, dirs, pins, kdir) && e in dirs
    ensures UppersSame(s, EnvFree(s, dirs[e]), dirs - {e}, kdir)
  {
    var s' := EnvFree(s, dirs[e]);
    EnvFreeStep(s, dirs, pins, kdir, e);
    hide EnvFree, Cell, UpperSame, IsDir;
    forall q: nat | IsDir(dirs - {e}, kdir, q) ensures UpperSame(s, s', q) {
      forall r: Ref | !r.Leaf? && r.e == e
        ensures Target(s, dirs, r) != Some(q)
      {
        OtherDirectory(s, dirs, pins, kdir, e, q, r);
      }
      assert NotTable(s, dirs, e, q);
      PageSame(s, s', q);
    }
  }

  lemma AllocKeepsUppers(s: Phys, dirs: map<nat, Frame>, pins: seq<nat>, kdir: nat)
    requires Inv(s, dirs, pins, kdir) && s.free != []
    ensures UppersSame(s, AllocPinned(s), dirs, kdir)
  {
    AllocStep(s, dirs, pins, kdir);
    assert s.free[0] in s.free;
    hide Inv, AllocPinned, UpperSame, IsDir;
    forall q: nat | IsDir(dirs, kdir, q) ensures UpperSame(s, AllocPinned(s), q) {
      DirectoryInUse(s, dirs, pins, kdir, q);
      PageSame(s, AllocPinned(s), q);
    }
  }

  lemma StoreKeepsUppers(s: Phys, dirs: map<nat, Frame>, pins: seq<nat>, kdir: nat, e: nat, v: nat, i: nat, w: Word)
    requires Inv(s, dirs, pins, kdir) && Target(s, dirs, Leaf(e, v)).Some?
    ensures UppersSame(s, SetCell(s, Target(s, dirs, Leaf(e, v)).value, i, w), dirs, kdir)
  {
    var f := Target(s, dirs, Leaf(e, v)).value;
    hide Inv, IsDir;
    forall q: nat | IsDir(dirs, kdir, q) ensures UpperSame(s, SetCell(s, f, i, w), q) {
      DirectoryInUse(s, dirs, pins, kdir, q);
      assert q != f;
    }
  }
}
