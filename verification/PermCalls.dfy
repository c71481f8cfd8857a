/** The calls that take a permission, for any 32 bits of it: what they do, and exactly when they
    keep what the other modules prove of permissions below 2^12. */
module PermCalls {
  import opened Mmu
  import opened Errors
  import opened Perms
  import opened Pmap
  import opened Envs
  import opened Ipc
  import opened Syscalls

  function SysPageAlloc32(k: Kern, cur: nat, id: int, va: nat, perm: Perm): (Kern, Outcome)
    requires Formed(k) && cur < NENV
  {
    match Envid2Env(k.envs, cur, id, true)
    case None => (k, Ret(-E_BAD_ENV))
    case Some(e) =>
      if !GoodVa(va) || !UserPresent(perm.low) then (k, Ret(-E_INVAL))
      else if k.phys.free == [] || k.phys.free[0] >= 0x10_0000 then (k, Ret(E_NO_MEM))
      else
        var pp := k.phys.free[0];
        var (s, ok) := InsertWord(AllocPinned(k.phys), DirOf(k, e), pp, va / PGSIZE, EntryOf(pp, perm));
        if ok then (k.(phys := s), Ret(0)) else (k.(phys := s), Panic)
  }

  function SysPageMap32(k: Kern, cur: nat, srcid: int, srcva: nat, dstid: int, dstva: nat, perm: Perm): (Kern, Outcome)
    requires Formed(k) && cur < NENV
  {
    match Envid2Env(k.envs, cur, srcid, true)
    case None => (k, Ret(-E_BAD_ENV))
    case Some(src) =>
      match Envid2Env(k.envs, cur, dstid, true)
      case None => (k, Ret(-E_BAD_ENV))
      case Some(dst) =>
        if !GoodVa(srcva) || !GoodVa(dstva) then (k, Ret(-E_INVAL))
        else MapPage32(k, src, srcva / PGSIZE, dst, dstva / PGSIZE, perm)
  }

  function MapPage32(k: Kern, src: nat, v: nat, dst: nat, u: nat, perm: Perm): (Kern, Outcome) {
    var pte := Pt(k.phys, DirOf(k, src), v);
    if pte.None? || !UserPresent(perm.low) || (perm.low & PTE_W != 0 && !Writable(pte.value)) then (k, Ret(-E_INVAL))
    else
      var (s, ok) := InsertWord(k.phys, DirOf(k, dst), pte.value.frame, u, EntryOf(pte.value.frame, perm));
      (k.(phys := s), Ret(if ok then 0 else -E_NO_MEM))
  }

  // The test (perm & *ppte) != perm of a send compares all 32 bits.
  function SysIpcTrySend32(k: Kern, cur: nat, id: int, value: nat, srcva: nat, perm: Perm): (Kern, Outcome)
    requires Formed(k) && cur < NENV
  {
    match Envid2Env(k.envs, cur, id, false)
    case None => (k, Ret(-E_BAD_ENV))
    case Some(e) =>
      if k.envs[e].recving then Send32(k, cur, e, value, srcva, perm)
      else (k.(envs := Block(k.envs, cur, e)), Ret(-E_IPC_NOT_RECV))
  }

  function Send32(k: Kern, cur: nat, e: nat, value: nat, srcva: nat, perm: Perm): (Kern, Outcome)
    requires Formed(k) && cur < NENV && e < NENV
  {
    var (s, t) := TransferPage32(k, cur, e, srcva, perm);
    match t
    case Refuse(code) => (k.(phys := s), Ret(code))
    case Accept(page) => (k.(phys := s, envs := Deliver(k.envs, cur, e, value, page)), Ret(0))
  }

  function TransferPage32(k: Kern, cur: nat, e: nat, srcva: nat, perm: Perm): (Phys, Transfer)
    requires Formed(k) && e < NENV
  {
    if srcva >= UTOP then (k.phys, Accept(Some(0)))
    else if srcva % PGSIZE != 0 then (k.phys, Refuse(-E_INVAL))
    else
      var pte := Pt(k.phys, DirOf(k, cur), srcva / PGSIZE);
      if pte.None? || !Covers(pte.value.frame, perm.high) || !Subset(perm.low, pte.value.flags)
      then (k.phys, Refuse(-E_INVAL))
      else if k.envs[e].dstva >= UTOP then (k.phys, Accept(None))
      else
        var (s, ok) := InsertWord(k.phys, DirOf(k, e), pte.value.frame, k.envs[e].dstva / PGSIZE,
          EntryOf(pte.value.frame, perm));
        (s, if ok then Accept(Some(perm.low)) else Refuse(-E_NO_MEM))
  }

  // ---------- when the upper bits do no harm

  // The page that sys_page_alloc hands out is the one its entry names.
  predicate AllocNames(k: Kern, cur: nat, id: int, va: nat, perm: Perm)
    requires Formed(k) && cur < NENV
  {
    SysPageAlloc32(k, cur, id, va, perm).1 == Ret(0) && k.phys.free != [] && k.phys.free[0] < 0x10_0000 ==>
      Covers(k.phys.free[0], perm.high)
  }

  // The page that sys_page_map shares is the one its entry names.
  predicate MapNames(k: Kern, cur: nat, srcid: int, srcva: nat, dstid: int, dstva: nat, perm: Perm)
    requires Formed(k) && cur < NENV
  {
    var src := Envid2Env(k.envs, cur, srcid, true);
    SysPageMap32(k, cur, srcid, srcva, dstid, dstva, perm).1 == Ret(0) && src.Some?
      && Pt(k.phys, DirOf(k, src.value), srcva / PGSIZE).Some? ==>
      Covers(Pt(k.phys, DirOf(k, src.value), srcva / PGSIZE).value.frame, perm.high)
  }

  // Where page_insert fails, what it would have stored is of no account.
  lemma FailsAlike(s: Phys, dir: nat, pp: Frame, v: nat, w: Word, w': Word)
    ensures InsertWord(s, dir, pp, v, w).1 == InsertWord(s, dir, pp, v, w').1
    ensures !InsertWord(s, dir, pp, v, w).1 ==> InsertWord(s, dir, pp, v, w) == InsertWord(s, dir, pp, v, w')
  {}

  lemma InsertLow(s: Phys, dir: nat, pp: Frame, v: nat, perm: Perm)
    ensures InsertWord(s, dir, pp, v, EntryOf(pp, perm)).1 == Insert(s, dir, pp, v, perm.low).1
    ensures !Insert(s, dir, pp, v, perm.low).1 || Covers(pp, perm.high) ==>
              InsertWord(s, dir, pp, v, EntryOf(pp, perm)) == Insert(s, dir, pp, v, perm.low)
  {
    hide InsertWord, EntryOf, Covers;
    EntryLow(pp, perm);
    FailsAlike(s, dir, pp, v, EntryOf(pp, perm), Word(pp, perm.low | PTE_P));
  }

  lemma AllocLow(k: Kern, cur: nat, id: int, va: nat, perm: Perm)
    requires Formed(k) && cur < NENV
    ensures SysPageAlloc32(k, cur, id, va, perm).1 == SysPageAlloc(k, cur, id, va, perm.low).1
    ensures AllocNames(k, cur, id, va, perm) ==>
              SysPageAlloc32(k, cur, id, va, perm) == SysPageAlloc(k, cur, id, va, perm.low)
  {
    hide Insert, InsertWord, AllocPinned, EntryOf, Covers, DirOf, UserPresent, GoodVa, EnvX;
    var e := Envid2Env(k.envs, cur, id, true);
    if e.Some? && k.phys.free != [] && k.phys.free[0] < 0x10_0000 {
      InsertLow(AllocPinned(k.phys), DirOf(k, e.value), k.phys.free[0], va / PGSIZE, perm);
    }
  }

  lemma MapLow(k: Kern, cur: nat, srcid: int, srcva: nat, dstid: int, dstva: nat, perm: Perm)
    requires Formed(k) && cur < NENV
    ensures SysPageMap32(k, cur, srcid, srcva, dstid, dstva, perm).1
              == SysPageMap(k, cur, srcid, srcva, dstid, dstva, perm.low).1
    ensures MapNames(k, cur, srcid, srcva, dstid, dstva, perm) ==>
              SysPageMap32(k, cur, srcid, srcva, dstid, dstva, perm)
                == SysPageMap(k, cur, srcid, srcva, dstid, dstva, perm.low)
  {
    hide MapPage, MapPage32, Covers, Pt, DirOf, GoodVa, EnvX;
    var src, dst := Envid2Env(k.envs, cur, srcid, true), Envid2Env(k.envs, cur, dstid, true);
    if src.Some? && dst.Some? { MapPageLow(k, src.value, srcva / PGSIZE, dst.value, dstva / PGSIZE, perm); }
  }

  lemma MapPageLow(k: Kern, src: nat, v: nat, dst: nat, u: nat, perm: Perm)
    ensures MapPage32(k, src, v, dst, u, perm).1 == MapPage(k, src, v, dst, u, perm.low).1
    ensures MapPage(k, src, v, dst, u, perm.low).1 == Ret(0) ==> Pt(k.phys, DirOf(k, src), v).Some?
    ensures (MapPage(k, src, v, dst, u, perm.low).1 == Ret(0) ==>
              Covers(Pt(k.phys, DirOf(k, src), v).value.frame, perm.high)) ==>
              MapPage32(k, src, v, dst, u, perm) == MapPage(k, src, v, dst, u, perm.low)
  {
    hide Insert, InsertWord, EntryOf, Covers, Pt, DirOf, UserPresent, Writable;
    var pte := Pt(k.phys, DirOf(k, src), v);
    if pte.Some? { InsertLow(k.phys, DirOf(k, dst), pte.value.frame, u, perm); }
  }

  lemma SmallPerm(k: Kern, perm: Perm)
    requires Formed(k) && perm.high == 0
    ensures forall cur, id, va :: 0 <= cur < NENV ==>
              SysPageAlloc32(k, cur, id, va, perm) == SysPageAlloc(k, cur, id, va, perm.low)
    ensures forall cur, srcid, srcva, dstid, dstva :: 0 <= cur < NENV ==>
              SysPageMap32(k, cur, srcid, srcva, dstid, dstva, perm)
                == SysPageMap(k, cur, srcid, srcva, dstid, dstva, perm.low)
  {
    hide SysPageAlloc, SysPageAlloc32, SysPageMap, SysPageMap32, Pt;
    forall pp: nat ensures Covers(pp, perm.high) {}
    forall cur, id, va | 0 <= cur < NENV
      ensures SysPageAlloc32(k, cur, id, va, perm) == SysPageAlloc(k, cur, id, va, perm.low)
    {
      AllocLow(k, cur, id, va, perm);
    }
    forall cur, srcid, srcva, dstid, dstva | 0 <= cur < NENV
      ensures SysPageMap32(k, cur, srcid, srcva, dstid, dstva, perm)
                == SysPageMap(k, cur, srcid, srcva, dstid, dstva, perm.low)
    {
      MapLow(k, cur, srcid, srcva, dstid, dstva, perm);
    }
  }

  // A send of a page whose frame number lacks one of the upper bits of perm.
  predicate SendsWrong(k: Kern, cur: nat, e: nat, srcva: nat, perm: Perm)
    requires Formed(k) && e < NENV
  {
    var pte := Pt(k.phys, DirOf(k, cur), srcva / PGSIZE);
    k.envs[e].recving && srcva < UTOP && srcva % PGSIZE == 0 && pte.Some? && !Covers(pte.value.frame, perm.high)
  }

  /** A send needs no such condition: its own test refuses exactly the perms that would name another
      page than the one sent, and it does with the others what their low bits say. */
  lemma SendLow(k: Kern, cur: nat, id: int, value: nat, srcva: nat, perm: Perm)
    requires Formed(k) && cur < NENV
    ensures var e := Envid2Env(k.envs, cur, id, false);
            SysIpcTrySend32(k, cur, id, value, srcva, perm)
            == if e.Some? && SendsWrong(k, cur, e.value, srcva, perm) then (k, Ret(-E_INVAL))
               else SysIpcTrySend(k, cur, id, value, srcva, perm.low)
  {
    hide TransferPage, TransferPage32, Deliver, Block;
    var e := Envid2Env(k.envs, cur, id, false);
    if e.Some? && k.envs[e.value].recving { TransferLow(k, cur, e.value, srcva, perm); }
  }

  lemma TransferLow(k: Kern, cur: nat, e: nat, srcva: nat, perm: Perm)
    requires Formed(k) && e < NENV && k.envs[e].recving
    ensures TransferPage32(k, cur, e, srcva, perm)
            == if SendsWrong(k, cur, e, srcva, perm) then (k.phys, Refuse(-E_INVAL))
               else TransferPage(k, cur, e, srcva, perm.low)
  {
    hide Insert, InsertWord, EntryOf, Covers, Pt, Subset, DirOf;
    var pte := Pt(k.phys, DirOf(k, cur), srcva / PGSIZE);
    if pte.Some? { InsertLow(k.phys, DirOf(k, e), pte.value.frame, k.envs[e].dstva / PGSIZE, perm); }
  }

  // ---------- and when they do

  lemma SetTwice(s: Phys, p: nat, i: nat, w: Word, w': Word)
    ensures SetCell(SetCell(s, p, i, w), p, i, w') == SetCell(s, p, i, w')
  {
    if p < |s.mem| && i < 1024 {
      assert s.mem[p][i := w][i := w'] == s.mem[p][i := w'];
      assert SetCell(SetCell(s, p, i, w), p, i, w').mem == SetCell(s, p, i, w').mem;
    }
  }

  // Where page_insert stores its entry.
  lemma StoredAt(s: Phys, dirs: map<nat, Frame>, pins: seq<nat>, kdir: nat, e: nat, pp: Frame, v: nat, perm: bv12)
    requires Insertable(s, dirs, pins, kdir, pp) && e in dirs && v < USER_PAGES && Insert(s, dirs[e], pp, v, perm).1
    ensures var g := Insert(s, dirs[e], pp, v, perm).0;
            && Inv(g, dirs, pins, kdir) && HasTable(g, dirs, e, v)
            && Link(g, dirs, Leaf(e, v)) == Some(Word(pp, perm | PTE_P))
            && Walk(s, dirs[e], v, true).1 == Some(PtePtr(TableOf(g, dirs, e, v), v % 1024))
  {
    InsertStep(s, dirs, pins, kdir, e, pp, v, perm);
    hide Insert, Inv, Insertable;
    if HasTable(s, dirs, e, v) { assert Link(s, dirs, Table(e, v / 1024)) == Some(Cell(s, dirs[e], v / 1024)); }
  }

  /** A stored entry that names another page breaks the invariant, with the same pins. */
  lemma WrongFrame(s: Phys, dirs: map<nat, Frame>, pins: seq<nat>, kdir: nat, e: nat, pp: Frame, v: nat, w: Word)
    requires Insertable(s, dirs, pins, kdir, pp) && e in dirs && v < USER_PAGES && Present(w) && w.frame != pp
    requires InsertWord(s, dirs[e], pp, v, w).1
    ensures !Inv(InsertWord(s, dirs[e], pp, v, w).0, dirs, pins, kdir)
  {
    var g, b := Insert(s, dirs[e], pp, v, 0).0, InsertWord(s, dirs[e], pp, v, w).0;
    StoredAt(s, dirs, pins, kdir, e, pp, v, 0);
    var (s1, pte) := Walk(s, dirs[e], v, true);
    var s2 := Vacate(IncRef(s1, pp), dirs[e], pte.value, v);
    SetTwice(s2, pte.value.frame, pte.value.index, Word(pp, 0 | PTE_P), w);
    assert b == SetCell(g, TableOf(g, dirs, e, v), v % 1024, w);
    Misnamed(g, dirs, pins, kdir, e, v, w);
  }

  /** What is stored, also where it is wrong: that entry, and every other entry and table as if it were
      the right one. */
  lemma StoredAnyway(s: Phys, dirs: map<nat, Frame>, pins: seq<nat>, kdir: nat, e: nat, pp: Frame, v: nat, w: Word)
    requires Insertable(s, dirs, pins, kdir, pp) && e in dirs && v < USER_PAGES && Present(w)
    requires InsertWord(s, dirs[e], pp, v, w).1
    ensures var s' := InsertWord(s, dirs[e], pp, v, w).0;
            && Link(s', dirs, Leaf(e, v)) == Some(w)
            && forall r {:trigger Link(s', dirs, r)} :: r != Leaf(e, v) && r != Table(e, v / 1024) ==>
                 Link(s', dirs, r) == Link(s, dirs, r)
  {
    var g, b := Insert(s, dirs[e], pp, v, 0).0, InsertWord(s, dirs[e], pp, v, w).0;
    StoredAt(s, dirs, pins, kdir, e, pp, v, 0);
    InsertStep(s, dirs, pins, kdir, e, pp, v, 0);
    var (s1, pte) := Walk(s, dirs[e], v, true);
    var s2 := Vacate(IncRef(s1, pp), dirs[e], pte.value, v);
    SetTwice(s2, pte.value.frame, pte.value.index, Word(pp, 0 | PTE_P), w);
    assert b == SetCell(g, TableOf(g, dirs, e, v), v % 1024, w);
    hide Insert, InsertWord, Walk, Vacate, SetCell;
    forall r ensures Link(b, dirs, r) == (if r == Leaf(e, v) then Some(w) else Link(g, dirs, r)) {
      WriteLeaf(g, dirs, e, v, w, r);
    }
  }

  lemma Misnamed(g: Phys, dirs: map<nat, Frame>, pins: seq<nat>, kdir: nat, e: nat, v: nat, w: Word)
    requires Inv(g, dirs, pins, kdir) && HasTable(g, dirs, e, v) && Target(g, dirs, Leaf(e, v)).Some?
    requires Present(w) && Some(w.frame) != Target(g, dirs, Leaf(e, v))
    ensures !Inv(SetCell(g, TableOf(g, dirs, e, v), v % 1024, w), dirs, pins, kdir)
  {
    var pp, b := Target(g, dirs, Leaf(e, v)).value, SetCell(g, TableOf(g, dirs, e, v), v % 1024, w);
    forall r ensures Link(b, dirs, r) == (if r == Leaf(e, v) then Some(w) else Link(g, dirs, r))
                  && (r != Leaf(e, v) ==> Target(b, dirs, r) == Target(g, dirs, r)) { WriteLeaf(g, dirs, e, v, w, r); }
    Retarget(g, b, dirs, dirs, Leaf(e, v), pp);
    HoldersAreTargets(g, dirs, pp, Leaf(e, v));
    assert b.refs[pp] == g.refs[pp] == |Holders(g, dirs, pp)| + pins[pp];
  }

  /** sys_page_alloc, for any 32 bits of perm: a successful call keeps the invariant exactly if the
      upper bits of perm lie within those of the page it hands out. */
  lemma AllocExact(k: Kern, pins: seq<nat>, cur: nat, id: int, va: nat, perm: Perm)
    requires KInv(k, pins) && cur in k.dirs && cur < NENV && SysPageAlloc32(k, cur, id, va, perm).1 == Ret(0)
    ensures k.phys.free != [] && k.phys.free[0] < |pins| && k.phys.free[0] < 0x10_0000
    ensures KInv(SysPageAlloc32(k, cur, id, va, perm).0, Bump(pins, k.phys.free[0], 1)) <==>
              Covers(k.phys.free[0], perm.high)
  {
    AllocLow(k, cur, id, va, perm);
    PageAllocStep(k, pins, cur, id, va, perm.low);
    var pp, e := k.phys.free[0], Envid2Env(k.envs, cur, id, true).value;
    if !Covers(pp, perm.high) {
      PinnedKern(k, pins);
      hide Inv, TablesOpen, EnvTable, AllocPinned, InsertWord;
      PresentEntryOf(pp, perm);
      InUse(AllocPinned(k.phys), k.dirs, Bump(pins, pp, 1), k.kdir, pp);
      WrongFrame(AllocPinned(k.phys), k.dirs, Bump(pins, pp, 1), k.kdir, e, pp, va / PGSIZE, EntryOf(pp, perm));
    }
  }

  lemma PresentEntryOf(pp: Frame, perm: Perm)
    ensures Present(EntryOf(pp, perm)) && (EntryOf(pp, perm).frame != pp <==> !Covers(pp, perm.high))
  {
    NamesPage(pp, perm);
  }

  /** sys_page_map likewise: exactly if they lie within those of the page it shares. */
  lemma MapExact(k: Kern, pins: seq<nat>, cur: nat, srcid: int, srcva: nat, dstid: int, dstva: nat, perm: Perm)
    requires KInv(k, pins) && cur in k.dirs && cur < NENV && forall e: nat :: CanShare(k, e, srcva / PGSIZE)
    requires SysPageMap32(k, cur, srcid, srcva, dstid, dstva, perm).1 == Ret(0)
    ensures Envid2Env(k.envs, cur, srcid, true).Some?
            && PteOf(k, Envid2Env(k.envs, cur, srcid, true).value, srcva / PGSIZE).Some?
    ensures KInv(SysPageMap32(k, cur, srcid, srcva, dstid, dstva, perm).0, pins)
            <==> Covers(PteOf(k, Envid2Env(k.envs, cur, srcid, true).value, srcva / PGSIZE).value.frame, perm.high)
  {
    hide Inv, TablesOpen, EnvTable, InsertWord, Covers, EntryOf;
    MapLow(k, cur, srcid, srcva, dstid, dstva, perm);
    PageMapStep(k, pins, cur, srcid, srcva, dstid, dstva, perm.low);
    var src, dst := Envid2Env(k.envs, cur, srcid, true).value, Envid2Env(k.envs, cur, dstid, true).value;
    var pp := PteOf(k, src, srcva / PGSIZE).value.frame;
    if !Covers(pp, perm.high) {
      PresentEntryOf(pp, perm);
      MappedIsMappable(k, pins, src, srcva / PGSIZE);
      assert CanShare(k, src, srcva / PGSIZE);
      InUse(k.phys, k.dirs, pins, k.kdir, pp);
      WrongFrame(k.phys, k.dirs, pins, k.kdir, dst, pp, dstva / PGSIZE, EntryOf(pp, perm));
    }
  }

  /** The entry that a successful call stores, for any perm: that of Perms.EntryBits. */
  lemma AllocStores(k: Kern, pins: seq<nat>, cur: nat, id: int, va: nat, perm: Perm)
    requires KInv(k, pins) && cur in k.dirs && cur < NENV && SysPageAlloc32(k, cur, id, va, perm).1 == Ret(0)
    ensures k.phys.free != [] && k.phys.free[0] < 0x10_0000 && Envid2Env(k.envs, cur, id, true).Some?
    ensures PteOf(SysPageAlloc32(k, cur, id, va, perm).0, Envid2Env(k.envs, cur, id, true).value, va / PGSIZE)
            == Some(EntryOf(k.phys.free[0], perm))
  {
    AllocLow(k, cur, id, va, perm);
    PageAllocStep(k, pins, cur, id, va, perm.low);
    PinnedKern(k, pins);
    var pp, e, left := k.phys.free[0], Envid2Env(k.envs, cur, id, true).value, Bump(pins, k.phys.free[0], 1);
    PresentEntryOf(pp, perm);
    InUse(AllocPinned(k.phys), k.dirs, left, k.kdir, pp);
    hide Inv, Insertable, TablesOpen, EnvTable, AllocPinned, InsertWord;
    StoredAnyway(AllocPinned(k.phys), k.dirs, left, k.kdir, e, pp, va / PGSIZE, EntryOf(pp, perm));
  }

  lemma MapStores(k: Kern, pins: seq<nat>, cur: nat, srcid: int, srcva: nat, dstid: int, dstva: nat, perm: Perm)
    requires KInv(k, pins) && cur in k.dirs && cur < NENV && forall e: nat :: CanShare(k, e, srcva / PGSIZE)
    requires SysPageMap32(k, cur, srcid, srcva, dstid, dstva, perm).1 == Ret(0)
    ensures Envid2Env(k.envs, cur, srcid, true).Some? && Envid2Env(k.envs, cur, dstid, true).Some?
    ensures var src, dst := Envid2Env(k.envs, cur, srcid, true).value, Envid2Env(k.envs, cur, dstid, true).value;
            && PteOf(k, src, srcva / PGSIZE).Some?
            && PteOf(SysPageMap32(k, cur, srcid, srcva, dstid, dstva, perm).0, dst, dstva / PGSIZE)
               == Some(EntryOf(PteOf(k, src, srcva / PGSIZE).value.frame, perm))
  {
    hide Inv, Insertable, TablesOpen, EnvTable, InsertWord, Covers, EntryOf;
    MapLow(k, cur, srcid, srcva, dstid, dstva, perm);
    PageMapStep(k, pins, cur, srcid, srcva, dstid, dstva, perm.low);
    var src, dst := Envid2Env(k.envs, cur, srcid, true).value, Envid2Env(k.envs, cur, dstid, true).value;
    var pp := PteOf(k, src, srcva / PGSIZE).value.frame;
    PresentEntryOf(pp, perm);
    MappedIsMappable(k, pins, src, srcva / PGSIZE);
    assert CanShare(k, src, srcva / PGSIZE);
    InUse(k.phys, k.dirs, pins, k.kdir, pp);
    StoredAnyway(k.phys, k.dirs, pins, k.kdir, dst, pp, dstva / PGSIZE, EntryOf(pp, perm));
  }
}
