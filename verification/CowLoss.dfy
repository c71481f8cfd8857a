/** What fork loses when memory is short: exactly which pages duppage fails for, and whether the
    child gets an exception stack, said of the state that fork starts from. */
module CowLoss {
  import opened Mmu
  import opened Pmap
  import opened Envs
  import opened Syscalls
  import opened CowFault
  import opened CowRefine
  import opened CowFork

  /** The directory slots of the pages below v that e maps: one page table each. */
  ghost function Used(k: Kern, e: nat, v: nat): set<nat> {
    set u | 0 <= u < v && PteOf(k, e, u).Some? :: u / 1024
  }

  lemma UsedNext(k: Kern, e: nat, v: nat)
    ensures Used(k, e, v + 1) == Used(k, e, v) + (if PteOf(k, e, v).Some? then {v / 1024} else {})
  {
    hide PteOf;
    forall i ensures i in Used(k, e, v + 1) <==> i in Used(k, e, v) || (PteOf(k, e, v).Some? && i == v / 1024) {
      if i in Used(k, e, v + 1) {
        var u :| 0 <= u < v + 1 && PteOf(k, e, u).Some? && i == u / 1024;
      }
    }
  }

  // The slots before that of v: all those used below v, but for its own.
  lemma UsedBefore(k: Kern, e: nat, v: nat)
    ensures Used(k, e, v / 1024 * 1024) == Used(k, e, v) - {v / 1024}
  {
    hide PteOf;
    forall i ensures i in Used(k, e, v / 1024 * 1024) <==> i in Used(k, e, v) && i != v / 1024 {
      if i in Used(k, e, v / 1024 * 1024) {
        var u :| 0 <= u < v / 1024 * 1024 && PteOf(k, e, u).Some? && i == u / 1024;
        assert u < v;
      }
      if i in Used(k, e, v) && i != v / 1024 {
        var u :| 0 <= u < v && PteOf(k, e, u).Some? && i == u / 1024;
        assert u < v / 1024 * 1024;
      }
    }
  }

  // ---------- what one round takes

  /** A round at page v maps it for c if e maps it and there is a page table, or a page for one. */
  ghost predicate Round(k: Kern, k': Kern, e: nat, c: nat, v: nat, done: bool) {
    var mapped, table := PteOf(k, e, v).Some?, Link(k.phys, k.dirs, Table(c, v / 1024)).Some?;
    && (done <==> mapped && (table || k.phys.free != []))
    && k'.phys.free == (if done && !table then k.phys.free[1..] else k.phys.free)
    && k'.dirs == k.dirs && k'.envs == k.envs
    && (forall d, i {:trigger Link(k'.phys, k'.dirs, Table(d, i))} :: Link(k'.phys, k'.dirs, Table(d, i)).Some?
          <==> Link(k.phys, k.dirs, Table(d, i)).Some? || (done && d == c && i == v / 1024))
    && (forall d, u {:trigger PteOf(k', d, u)} ::
          PteOf(k', d, u).Some? <==> PteOf(k, d, u).Some? || (done && d == c && u == v))
  }

  // One mapping of the caller's own page at the same address of t.
  ghost predicate Mapping(k: Kern, k': Kern, t: nat, v: nat) {
    && k'.phys.free == (if Link(k.phys, k.dirs, Table(t, v / 1024)).Some? || k.phys.free == [] then k.phys.free
                        else k.phys.free[1..])
    && k'.dirs == k.dirs && k'.envs == k.envs
    && (forall d, i {:trigger Link(k'.phys, k'.dirs, Table(d, i))} :: Link(k'.phys, k'.dirs, Table(d, i)).Some?
          <==> Link(k.phys, k.dirs, Table(d, i)).Some? || (d == t && i == v / 1024))
    && (forall d, u {:trigger PteOf(k', d, u)} ::
          PteOf(k', d, u).Some? <==> PteOf(k, d, u).Some? || (d == t && u == v))
  }

  lemma OwnMapTakes(k: Kern, pins: seq<nat>, e: nat, id: int, t: nat, v: nat, perm: bv12)
    requires KInv(k, pins) && e in k.dirs && t in k.dirs && v < USER_PAGES && BelowLimit(k.phys) && Formed(k)
             && e < NENV
    requires Envid2Env(k.envs, e, id, true) == Some(t) && (PteOf(k, t, v).Some? ==> t == e)
    requires SysPageMap(k, e, 0, v * PGSIZE, id, v * PGSIZE, perm).1 == Ret(0)
    ensures Mapping(k, SysPageMap(k, e, 0, v * PGSIZE, id, v * PGSIZE, perm).0, t, v)
  {
    hide KInv, MapPage, BelowLimit, CanShare, Envid2Env, Link, UserPresent, SysPageMap, PteOf, HasTable;
    OwnMapIs(k, pins, e, id, t, v, perm);
    MapOwnEntries(k, pins, e, id, t, v, perm);
    MapPageTakes(k, pins, e, v, t, v, perm);
    HasTableIs(k, t, v);
  }

  lemma MapOwnEntries(k: Kern, pins: seq<nat>, e: nat, id: int, t: nat, v: nat, perm: bv12)
    requires KInv(k, pins) && e in k.dirs && v < USER_PAGES && BelowLimit(k.phys) && Formed(k) && e < NENV
    requires Envid2Env(k.envs, e, id, true) == Some(t)
    requires SysPageMap(k, e, 0, v * PGSIZE, id, v * PGSIZE, perm).1 == Ret(0)
    ensures var k' := SysPageMap(k, e, 0, v * PGSIZE, id, v * PGSIZE, perm).0;
            && k' == k.(phys := k'.phys)
            && (forall d, u {:trigger PteOf(k', d, u)} ::
                  PteOf(k', d, u).Some? <==> PteOf(k, d, u).Some? || (d == t && u == v))
  {
    hide KInv, SysPageMap, BelowLimit, PteOf;
    MapOwnPage(k, pins, e, id, t, v, perm);
    var k' := SysPageMap(k, e, 0, v * PGSIZE, id, v * PGSIZE, perm).0;
    forall d, u ensures PteOf(k', d, u).Some? <==> PteOf(k, d, u).Some? || (d == t && u == v) {
      assert d != t || u != v ==> PteOf(k', d, u) == PteOf(k, d, u);
    }
  }

  lemma OwnMapIs(k: Kern, pins: seq<nat>, e: nat, id: int, t: nat, v: nat, perm: bv12)
    requires KInv(k, pins) && e in k.dirs && v < USER_PAGES && BelowLimit(k.phys) && Formed(k) && e < NENV
    requires Envid2Env(k.envs, e, id, true) == Some(t)
    requires SysPageMap(k, e, 0, v * PGSIZE, id, v * PGSIZE, perm).1 == Ret(0)
    ensures CanShare(k, e, v)
    ensures SysPageMap(k, e, 0, v * PGSIZE, id, v * PGSIZE, perm) == MapPage(k, e, v, t, v, perm)
  {
    hide KInv, MapPage;
    assert v * PGSIZE / PGSIZE == v && Envid2Env(k.envs, e, 0, true) == Some(e);
  }

  lemma HasTableIs(k: Kern, t: nat, v: nat)
    requires v < USER_PAGES
    ensures HasTable(k.phys, k.dirs, t, v) <==> Link(k.phys, k.dirs, Table(t, v / 1024)).Some?
  {
    TableIsLink(k.phys, k.dirs, t, v);
  }

  // The parent maps its page once more, where it is mapped.
  lemma MarkTakes(p: Prog, e: nat)
    requires CowInv(p) && Allowed(p, MarkCow(e)) && Do(p, MarkCow(e)).Some?
    ensures var k, k', v := p.k, Do(p, MarkCow(e)).value.k, p.b.gaps[e].v;
            && k'.phys.free == k.phys.free && k'.dirs == k.dirs && k'.envs == k.envs
            && (forall d, i {:trigger Link(k'.phys, k'.dirs, Table(d, i))} ::
                  Link(k'.phys, k'.dirs, Table(d, i)).Some? <==> Link(k.phys, k.dirs, Table(d, i)).Some?)
            && (forall d, u {:trigger PteOf(k', d, u)} :: PteOf(k', d, u).Some? <==> PteOf(k, d, u).Some?)
  {
    var k, v := p.k, p.b.gaps[e].v;
    var pins :| KInv(k, pins);
    KernFormed(k, pins, e);
    assert GapOk(k, p.b, e);
    MappedHasTable(k, e, v);
    hide KInv, Pending, BelowLimit, SysPageMap, Envid2Env;
    OwnMapTakes(k, pins, e, 0, e, v, COW_PERM);
  }

  lemma MappedHasTable(k: Kern, e: nat, v: nat)
    requires PteOf(k, e, v).Some?
    ensures v < USER_PAGES && Link(k.phys, k.dirs, Table(e, v / 1024)).Some?
  {}

  lemma FirstCallTakes(p: Prog, e: nat, c: nat, v: nat, a: Act)
    requires CowInv(p) && PteOf(p.k, c, v) == None && Allowed(p, a) && Do(p, a).Some?
    requires (a.ShareRo? && a == ShareRo(e, c, v)) || (a.ShareCow? && a == ShareCow(e, c, v, a.late))
    ensures Mapping(p.k, Do(p, a).value.k, c, v)
  {
    var k := p.k;
    var pins :| KInv(k, pins);
    TargetIs(k, pins, e, c, true);
    hide KInv, Pending, BelowLimit, SysPageMap, Envid2Env, Mapping, Private, AllUser, FaultsOk, GapsOk;
    MapNamed(k, e, v, k.envs[c].id, if a.ShareRo? then RO_PERM else COW_PERM);
    OwnMapTakes(k, pins, e, k.envs[c].id, c, v, if a.ShareRo? then RO_PERM else COW_PERM);
  }

  // A call that succeeds named a live environment.
  lemma MapNamed(k: Kern, e: nat, v: nat, id: int, perm: bv12)
    requires Formed(k) && e < NENV
    ensures SysPageMap(k, e, 0, v * PGSIZE, id, v * PGSIZE, perm).1 == Ret(0) ==> Envid2Env(k.envs, e, id, true).Some?
  {
    hide Envid2Env;
  }

  lemma RoundTakes(p: Prog, e: nat, c: nat, v: nat)
    requires CowInv(p) && e !in p.b.gaps && v < STACK_TOP_PAGE && !Pending(p.b, e, v) && DupNext(p, e, c, v).Some?
    requires PteOf(p.k, c, v) == None && c < NENV && e < NENV && Formed(p.k) && p.k.envs[c].parent == p.k.envs[e].id
    ensures var (p', ok) := DupNext(p, e, c, v).value;
            && Round(p.k, p'.k, e, c, v, PteOf(p.k, e, v).Some? && ok)
            && (PteOf(p.k, e, v) == None ==> ok)
  {
    var k := p.k;
    if PteOf(k, e, v).Some? {
      assert User(PteOf(k, e, v).value);
      var pins :| KInv(k, pins);
      HasTableIs(k, c, v);
      hide KInv, AllUser, Private, FaultsOk, GapsOk, Sound, Pending, PteOf, DupPage;
      DupPageFails(p, pins, e, c, v);
      DupPageTakes(p, e, c, v);
    }
  }

  lemma DupPageTakes(p: Prog, e: nat, c: nat, v: nat)
    requires CowInv(p) && e !in p.b.gaps && PteOf(p.k, c, v) == None && PteOf(p.k, e, v).Some?
             && DupPage(p, e, c, v).Some?
    ensures var (p', ok) := DupPage(p, e, c, v).value; if ok then Mapping(p.k, p'.k, c, v) else p' == p
  {
    hide CowInv, Allowed, Do, Mapping, PteOf;
    var pte := PteOf(p.k, e, v).value;
    var late := Writable(pte);
    if Writable(pte) || Cow(pte) {
      var a := ShareCow(e, c, v, late);
      if Do(p, a).Some? {
        var p1 := Do(p, a).value;
        FirstCallTakes(p, e, c, v, a);
        ShowsIsEagerOf(p, EagerOf(p));
        ActStep(p, EagerOf(p), a);
        GapOpened(p, e, c, v, late);
        MarkNeverFails(p1, e);
        MarkTakes(p1, e);
        MappingThenSame(p.k, p1.k, Do(p1, MarkCow(e)).value.k, c, v);
      }
    } else if Do(p, ShareRo(e, c, v)).Some? {
      FirstCallTakes(p, e, c, v, ShareRo(e, c, v));
    }
  }

  lemma MappingThenSame(k: Kern, k1: Kern, k2: Kern, c: nat, v: nat)
    requires Mapping(k, k1, c, v) && k2.phys.free == k1.phys.free && k2.dirs == k1.dirs && k2.envs == k1.envs
    requires forall d, i {:trigger Link(k2.phys, k2.dirs, Table(d, i))} ::
               Link(k2.phys, k2.dirs, Table(d, i)).Some? <==> Link(k1.phys, k1.dirs, Table(d, i)).Some?
    requires forall d, u {:trigger PteOf(k2, d, u)} :: PteOf(k2, d, u).Some? <==> PteOf(k1, d, u).Some?
    ensures Mapping(k, k2, c, v)
  {
    hide Link;
  }

  // ---------- the loop

  /** Where the loop is at page v, having begun with `free` free pages, and with e mapping what it
      maps in k0. */
  ghost predicate At(k0: Kern, free: nat, k: Kern, e: nat, c: nat, v: nat) {
    var used := Used(k0, e, v);
    && |k.phys.free| == (if |used| <= free then free - |used| else 0)
    && (forall i: nat {:trigger Link(k.phys, k.dirs, Table(c, i))} ::
          Link(k.phys, k.dirs, Table(c, i)).Some? <==> i in used && |Used(k0, e, i * 1024)| < free)
    && (forall u: nat {:trigger PteOf(k, e, u)} :: PteOf(k, e, u).Some? <==> PteOf(k0, e, u).Some?)
    && (forall u: nat {:trigger PteOf(k, c, u)} :: v <= u ==> PteOf(k, c, u) == None)
    && Formed(k) && c < NENV && e < NENV && k.envs[c].parent == k.envs[e].id
  }

  // The pages for which a loop over [from, to) fails.
  ghost predicate Loses(k0: Kern, free: nat, e: nat, from: nat, to: nat, lost: set<nat>) {
    forall u: nat {:trigger u in lost} ::
      u in lost <==> from <= u < to && PteOf(k0, e, u).Some? && |Used(k0, e, u / 1024 * 1024)| >= free
  }

  // How many slots are used, before and after page v, and before its slot.
  lemma Counts(k: Kern, e: nat, v: nat)
    ensures var used, slot, mapped := Used(k, e, v), v / 1024, PteOf(k, e, v).Some?;
            && Used(k, e, v + 1) == (if mapped then used + {slot} else used)
            && |Used(k, e, v + 1)| == |used| + (if mapped && slot !in used then 1 else 0)
            && |Used(k, e, slot * 1024)| == |used| - (if slot in used then 1 else 0)
  {
    var used, slot := Used(k, e, v), v / 1024;
    UsedNext(k, e, v);
    UsedBefore(k, e, v);
    CardinalWithout(used, slot);
    CardinalWithout(used + {slot}, slot);
    assert used + {slot} - {slot} == used - {slot};
    hide Used, PteOf;
  }

  lemma RoundCounts(k0: Kern, free: nat, k: Kern, k': Kern, e: nat, c: nat, v: nat, done: bool)
    requires At(k0, free, k, e, c, v) && Round(k, k', e, c, v, done) && e != c
    ensures At(k0, free, k', e, c, v + 1)
    ensures PteOf(k0, e, v).Some? ==> (!done <==> |Used(k0, e, v / 1024 * 1024)| >= free)
    ensures PteOf(k0, e, v) == None ==> !done
  {
    hide PteOf, Link, Used;
    Counts(k0, e, v);
    var used, slot := Used(k0, e, v), v / 1024;
    assert PteOf(k, e, v).Some? <==> PteOf(k0, e, v).Some?;
    assert Link(k.phys, k.dirs, Table(c, slot)).Some? <==> slot in used && |Used(k0, e, slot * 1024)| < free;
    assert |k'.phys.free| == |k.phys.free| - (if done && Link(k.phys, k.dirs, Table(c, slot)) == None then 1 else 0);
    TablesAfter(k0, free, k, k', e, c, v, done);
    EntriesAfter(k0, free, k, k', e, c, v, done);
  }

  lemma TablesAfter(k0: Kern, free: nat, k: Kern, k': Kern, e: nat, c: nat, v: nat, done: bool)
    requires At(k0, free, k, e, c, v) && Round(k, k', e, c, v, done)
    ensures forall i: nat {:trigger Link(k'.phys, k'.dirs, Table(c, i))} ::
              Link(k'.phys, k'.dirs, Table(c, i)).Some? <==> i in Used(k0, e, v + 1) && |Used(k0, e, i * 1024)| < free
  {
    hide PteOf, Link, Used;
    Counts(k0, e, v);
    assert PteOf(k, e, v).Some? <==> PteOf(k0, e, v).Some?;
    var used, slot := Used(k0, e, v), v / 1024;
    forall i: nat
      ensures Link(k'.phys, k'.dirs, Table(c, i)).Some? <==> i in Used(k0, e, v + 1) && |Used(k0, e, i * 1024)| < free
    {
      assert Link(k.phys, k.dirs, Table(c, i)).Some? <==> i in used && |Used(k0, e, i * 1024)| < free;
    }
  }

  lemma EntriesAfter(k0: Kern, free: nat, k: Kern, k': Kern, e: nat, c: nat, v: nat, done: bool)
    requires At(k0, free, k, e, c, v) && Round(k, k', e, c, v, done) && e != c
    ensures forall u: nat {:trigger PteOf(k', e, u)} :: PteOf(k', e, u).Some? <==> PteOf(k0, e, u).Some?
    ensures forall u: nat {:trigger PteOf(k', c, u)} :: v + 1 <= u ==> PteOf(k', c, u) == None
  {
    hide PteOf, Link, Used;
    forall u: nat
      ensures PteOf(k', e, u).Some? <==> PteOf(k0, e, u).Some?
    {
      assert PteOf(k, e, u).Some? <==> PteOf(k0, e, u).Some?;
    }
  }

  lemma {:induction false} LoopLoses(k0: Kern, free: nat, p: Prog, e: nat, c: nat, v: nat)
    requires CowInv(p) && e !in p.b.gaps && e != c && v <= STACK_TOP_PAGE && NotAwaited(p.b, e)
             && At(k0, free, p.k, e, c, v)
    requires DupAll(p, e, c, v).Some?
    ensures var (p', lost) := DupAll(p, e, c, v).value;
            At(k0, free, p'.k, e, c, STACK_TOP_PAGE) && Loses(k0, free, e, v, STACK_TOP_PAGE, lost)
    decreases STACK_TOP_PAGE - v
  {
    hide CowInv, DupNext, At, Round, NotAwaited, Used, PteOf;
    if v < STACK_TOP_PAGE {
      NoneAwaited(p.b, e, v);
      AtFacts(k0, free, p.k, e, c, v);
      var (p1, ok) := DupNext(p, e, c, v).value;
      RoundTakes(p, e, c, v);
      KeepsInv(p, e, c, v);
      var done := PteOf(p.k, e, v).Some? && ok;
      RoundCounts(k0, free, p.k, p1.k, e, c, v, done);
      LoopLoses(k0, free, p1, e, c, v + 1);
    }
  }

  lemma AtFacts(k0: Kern, free: nat, k: Kern, e: nat, c: nat, v: nat)
    requires At(k0, free, k, e, c, v)
    ensures PteOf(k, c, v) == None && c < NENV && e < NENV && Formed(k) && k.envs[c].parent == k.envs[e].id
    ensures PteOf(k, e, v).Some? <==> PteOf(k0, e, v).Some?
  {}

  lemma KeepsInv(p: Prog, e: nat, c: nat, v: nat)
    requires CowInv(p) && e !in p.b.gaps && v < STACK_TOP_PAGE && !Pending(p.b, e, v) && DupNext(p, e, c, v).Some?
    ensures CowInv(DupNext(p, e, c, v).value.0) && DupNext(p, e, c, v).value.0.b == p.b
  {
    hide CowInv, DupNext, Pending, EagerOf;
    ShowsIsEagerOf(p, EagerOf(p));
    NextCopies(p, EagerOf(p), e, c, v);
  }

  // ---------- fork

  lemma LoopBegins(p: Prog, e: nat, c: nat)
    requires CowInv(p) && Allowed(p, Spawn(e, c)) && Do(p, Spawn(e, c)).Some?
    ensures var p1 := Do(p, Spawn(e, c)).value;
            && p.k.phys.free != [] && At(p.k, |p.k.phys.free| - 1, p1.k, e, c, 0) && e != c
  {
    var k := p.k;
    var pins :| KInv(k, pins);
    SpawnIs(p, Spawn(e, c));
    SpawnAllowed(p, e, c);
    hide Do, SysExofork, Allowed, Sound, Private, AllUser, FaultsOk, GapsOk;
    assert KInv(k, pins);
    ExoforkStep(k, pins, e);
    var p1 := Do(p, Spawn(e, c)).value;
    assert Used(k, e, 0) == {};
    NoTables(k, pins, p1.k, e, c);
    hide KInv;
    forall u: nat ensures PteOf(p1.k, e, u) == PteOf(k, e, u) && PteOf(p1.k, c, u) == None {}
  }

  lemma NoTables(k: Kern, pins: seq<nat>, k1: Kern, e: nat, c: nat)
    requires KInv(k, pins) && e in k.dirs && Formed(k) && e < NENV && k.freeEnvs != [] && c == k.freeEnvs[0] && c < NENV
    requires SysExofork(k, e).1.Ret? && SysExofork(k, e).1.code >= 0
    requires k1 == SysExofork(k, e).0
    ensures forall i {:trigger Link(k1.phys, k1.dirs, Table(c, i))} :: Link(k1.phys, k1.dirs, Table(c, i)) == None
  {
    ExoforkStep(k, pins, e);
    NextIdNamesSlot(k.envs[c].id, c);
    ExoforkShape(k, e);
    EnvVm.SetupStep(k.phys, k.dirs, pins, k.kdir, c);
    hide SysExofork, EnvVm.SetupVm, Inv, EnvTable, TablesOpen;
    forall i ensures Link(k1.phys, k1.dirs, Table(c, i)) == None { assert Link(k.phys, k.dirs, Table(c, i)) == None; }
  }

  /** What fork loses, said of the kernel it is called in. A page of the parent is lost exactly if
      the page tables for the directory slots before its own have used up all free pages but one,
      which is the child's directory. So nothing is lost exactly if the free pages cover the
      directory and a page table for every slot; and the child has an exception stack exactly if
      they leave another one. */
  lemma ForkLoses(p: Prog, e: nat, c: nat)
    requires CowInv(p) && e !in p.b.gaps && NotAwaited(p.b, e) && Fork(p, e, c).Some?
    ensures var f, free := Fork(p, e, c).value, |p.k.phys.free|;
            && free >= 1
            && (forall u: nat {:trigger u in f.lost} :: u in f.lost <==>
                  u < STACK_TOP_PAGE && PteOf(p.k, e, u).Some? && |Used(p.k, e, u / 1024 * 1024)| >= free - 1)
            && (f.lost == {} <==> |Used(p.k, e, STACK_TOP_PAGE)| <= free - 1)
            && (f.stack <==> |Used(p.k, e, STACK_TOP_PAGE)| < free - 1)
  {
    hide CowInv, Do, Allowed, At, Loses, NotAwaited, DupAll, SysPageAlloc, Used, PteOf, Fork;
    ForkParts(p, e, c);
    AfterLoop(p, e, c);
    var free := |p.k.phys.free|;
    var (p2, lost) := DupAll(Do(p, Spawn(e, c)).value, e, c, 0).value;
    NoneLost(p.k, free - 1, e, lost);
    StackIff(p.k, free - 1, p2, e, c);
    LostAre(p.k, free - 1, e, lost);
  }

  lemma LostAre(k: Kern, free: nat, e: nat, lost: set<nat>)
    requires Loses(k, free, e, 0, STACK_TOP_PAGE, lost)
    ensures forall u: nat {:trigger u in lost} :: u in lost <==>
              u < STACK_TOP_PAGE && PteOf(k, e, u).Some? && |Used(k, e, u / 1024 * 1024)| >= free
  {
    hide Used, PteOf;
  }

  // The loop, from sys_exofork to its end.
  lemma AfterLoop(p: Prog, e: nat, c: nat)
    requires CowInv(p) && e !in p.b.gaps && NotAwaited(p.b, e) && Allowed(p, Spawn(e, c)) && Do(p, Spawn(e, c)).Some?
    requires DupAll(Do(p, Spawn(e, c)).value, e, c, 0).Some?
    ensures var (p2, lost) := DupAll(Do(p, Spawn(e, c)).value, e, c, 0).value;
            && p.k.phys.free != [] && CowInv(p2) && p2.b == p.b
            && At(p.k, |p.k.phys.free| - 1, p2.k, e, c, STACK_TOP_PAGE)
            && Loses(p.k, |p.k.phys.free| - 1, e, 0, STACK_TOP_PAGE, lost)
  {
    hide CowInv, Do, Allowed, At, Loses, NotAwaited, DupAll, Used, EagerOf, Shows;
    var p1, free := Do(p, Spawn(e, c)).value, |p.k.phys.free|;
    LoopBegins(p, e, c);
    ShowsIsEagerOf(p, EagerOf(p));
    ForkSpawn(p, EagerOf(p), e, c);
    LoopLoses(p.k, free - 1, p1, e, c, 0);
    LoopKeeps(p1, e, c);
  }

  lemma ForkParts(p: Prog, e: nat, c: nat)
    requires Fork(p, e, c).Some?
    ensures Allowed(p, Spawn(e, c)) && Do(p, Spawn(e, c)).Some?
    ensures DupAll(Do(p, Spawn(e, c)).value, e, c, 0).Some?
    ensures var (p2, lost), z := DupAll(Do(p, Spawn(e, c)).value, e, c, 0).value, Zero(e, c, XSTACK_PAGE, XSTACK_PERM);
            && Allowed(p2, z) && Formed(p2.k) && e < NENV && c < NENV
            && !SysPageAlloc(p2.k, e, p2.k.envs[c].id, XSTACK_PAGE * PGSIZE, XSTACK_PERM).1.Panic?
            && Fork(p, e, c).value.lost == lost && (Fork(p, e, c).value.stack <==> Do(p2, z).Some?)
  {
    hide Do, DupAll, SysPageAlloc, Pending;
  }

  lemma LoopKeeps(p: Prog, e: nat, c: nat)
    requires CowInv(p) && e !in p.b.gaps && e != c && NotAwaited(p.b, e) && DupAll(p, e, c, 0).Some?
    ensures CowInv(DupAll(p, e, c, 0).value.0) && DupAll(p, e, c, 0).value.0.b == p.b
  {
    hide CowInv, DupAll, NotAwaited, EagerOf, Copied;
    ShowsIsEagerOf(p, EagerOf(p));
    var m := AllCopies(p, EagerOf(p), e, c, 0);
  }

  lemma NoneLost(k: Kern, free: nat, e: nat, lost: set<nat>)
    requires Loses(k, free, e, 0, STACK_TOP_PAGE, lost)
    ensures lost == {} <==> |Used(k, e, STACK_TOP_PAGE)| <= free
  {
    hide PteOf;
    var all := Used(k, e, STACK_TOP_PAGE);
    if lost != {} {
      var u :| u in lost;
      UsedAt(k, e, u, STACK_TOP_PAGE);
    }
    if all != {} {
      var last := Largest(k, e, STACK_TOP_PAGE);
      UsedUpTo(k, e, last);
      CardinalWithout(all, last / 1024);
      assert last in lost <==> |all| - 1 >= free;
      if lost != {} {
        var u :| u in lost;
        assert u <= last;
        UsedGrows(k, e, u / 1024 * 1024, last / 1024 * 1024);
      }
    }
  }

  lemma UsedAt(k: Kern, e: nat, u: nat, v: nat)
    requires u < v && PteOf(k, e, u).Some?
    ensures u / 1024 in Used(k, e, v)
  {}

  // The last page below v that e maps.
  lemma {:induction false} Largest(k: Kern, e: nat, v: nat) returns (u: nat)
    requires Used(k, e, v) != {}
    ensures u < v && PteOf(k, e, u).Some? && forall w :: u < w < v ==> PteOf(k, e, w) == None
    decreases v
  {
    hide PteOf;
    if PteOf(k, e, v - 1).Some? {
      u := v - 1;
    } else {
      UsedNext(k, e, v - 1);
      u := Largest(k, e, v - 1);
    }
  }

  lemma UsedUpTo(k: Kern, e: nat, last: nat)
    requires last < STACK_TOP_PAGE && PteOf(k, e, last).Some?
    requires forall w :: last < w < STACK_TOP_PAGE ==> PteOf(k, e, w) == None
    ensures Used(k, e, last / 1024 * 1024) == Used(k, e, STACK_TOP_PAGE) - {last / 1024}
    ensures last / 1024 in Used(k, e, STACK_TOP_PAGE)
  {
    hide PteOf;
    UsedBefore(k, e, last);
    var all := Used(k, e, STACK_TOP_PAGE);
    assert last / 1024 in all;
    forall i | i in all && i != last / 1024 ensures i in Used(k, e, last) {
      var u :| 0 <= u < STACK_TOP_PAGE && PteOf(k, e, u).Some? && i == u / 1024;
      assert u <= last;
    }
    forall i | i in Used(k, e, last) ensures i in all {}
  }

  lemma UsedGrows(k: Kern, e: nat, v: nat, w: nat)
    requires v <= w
    ensures |Used(k, e, v)| <= |Used(k, e, w)|
  {
    hide PteOf;
    assert Used(k, e, v) <= Used(k, e, w);
    SmallerSet(Used(k, e, v), Used(k, e, w));
  }

  lemma {:induction false} SmallerSet<T>(a: set<T>, b: set<T>)
    requires a <= b
    ensures |a| <= |b|
    decreases |a|
  {
    if a != {} {
      var x :| x in a;
      CardinalWithout(a, x);
      CardinalWithout(b, x);
      SmallerSet(a - {x}, b - {x});
    }
  }

  // The child's exception stack: out of memory is the only way to fail.
  lemma StackIff(k0: Kern, free: nat, p: Prog, e: nat, c: nat)
    requires CowInv(p) && At(k0, free, p.k, e, c, STACK_TOP_PAGE) && Allowed(p, Zero(e, c, XSTACK_PAGE, XSTACK_PERM))
    requires Formed(p.k) && e < NENV && c < NENV
    requires !SysPageAlloc(p.k, e, p.k.envs[c].id, XSTACK_PAGE * PGSIZE, XSTACK_PERM).1.Panic?
    ensures Do(p, Zero(e, c, XSTACK_PAGE, XSTACK_PERM)).Some? <==> |Used(k0, e, STACK_TOP_PAGE)| < free
  {
    var k := p.k;
    var pins :| KInv(k, pins);
    TargetIs(k, pins, e, c, true);
    assert k.envs[c].id > 0 && GoodVa(XSTACK_PAGE * PGSIZE) && UserPresent(XSTACK_PERM);
    assert Envid2Env(k.envs, e, k.envs[c].id, true) == Some(c);
    hide KInv, Pending, SysPageAlloc, Envid2Env, UserPresent, Used, Private, AllUser, FaultsOk, GapsOk;
    PageAllocReturns(k, pins, e, k.envs[c].id, XSTACK_PAGE * PGSIZE, XSTACK_PERM);
  }
}
