/** When the steps of the copy-on-write runs succeed: exactly, and for every one of them. */
module CowSteps {
  import opened Mmu
  import opened Pmap
  import opened Envs
  import opened Syscalls
  import opened CowFault
  import opened CowRefine
  import opened CowFork

  // The caller may act on t.
  predicate MayAct(k: Kern, e: nat, t: nat) {
    t == e || (t < |k.envs| && e < |k.envs| && k.envs[t].parent == k.envs[e].id)
  }

  ghost predicate TableOrPage(k: Kern, t: nat, v: nat) { HasTable(k.phys, k.dirs, t, v) || k.phys.free != [] }

  // Pages for a page and for a page table, if that is missing.
  ghost predicate TwoPages(k: Kern, t: nat, v: nat) {
    |k.phys.free| >= if HasTable(k.phys, k.dirs, t, v) then 1 else 2
  }

  /** What each step takes: memory, the right to act on the target, and an entry of the right kind.
      The second call of a duppage, the copy, and the last two calls of a handler take nothing. */
  ghost predicate Takes(k: Kern, a: Act) {
    match a
    case Spawn(_, _) => k.phys.free != []
    case ShareCow(e, c, v, _) =>
      && PteOf(k, e, v).Some? && (Writable(PteOf(k, e, v).value) || Cow(PteOf(k, e, v).value))
      && MayAct(k, e, c) && TableOrPage(k, c, v)
    case ShareRo(e, c, v) =>
      && PteOf(k, e, v).Some? && !Writable(PteOf(k, e, v).value) && !Cow(PteOf(k, e, v).value)
      && MayAct(k, e, c) && TableOrPage(k, c, v)
    case Zero(e, t, v, perm) => MayAct(k, e, t) && UserPresent(perm) && TwoPages(k, t, v)
    case Write(e, v, _, _) => PteOf(k, e, v).Some? && Writable(PteOf(k, e, v).value)
    case FaultAlloc(e, v) =>
      && PteOf(k, e, v).Some? && Cow(PteOf(k, e, v).value) && !Writable(PteOf(k, e, v).value)
      && TwoPages(k, e, PFTEMP_PAGE)
    case _ => true
  }

  lemma SpawnHappens(p: Prog, pins: seq<nat>, a: Act)
    requires KInv(p.k, pins) && Allowed(p, a) && a.Spawn?
    ensures Do(p, a).Some? <==> Takes(p.k, a)
  {
    SpawnAllowed(p, a.e, a.c);
    hide SysExofork, KInv, Pending;
    ExoforkStep(p.k, pins, a.e);
  }

  lemma Named(k: Kern, pins: seq<nat>, e: nat, t: nat)
    requires KInv(k, pins) && e in k.dirs && t in k.dirs
    ensures Formed(k) && e < NENV && t < NENV
    ensures MayAct(k, e, t) <==> Envid2Env(k.envs, e, k.envs[t].id, true) == Some(t)
    ensures MayAct(k, e, t) <==> Envid2Env(k.envs, e, k.envs[t].id, true) != None
    ensures Envid2Env(k.envs, e, 0, true) == Some(e)
  {}

  lemma ShareHappens(p: Prog, pins: seq<nat>, a: Act)
    requires KInv(p.k, pins) && Allowed(p, a) && (a.ShareCow? || a.ShareRo?)
    ensures Do(p, a).Some? <==> Takes(p.k, a)
  {
    var k, e, c, v, perm := p.k, a.e, a.c, a.v, if a.ShareCow? then COW_PERM else RO_PERM;
    Named(k, pins, e, c);
    assert v * PGSIZE / PGSIZE == v && UserPresent(perm) && perm & PTE_W == 0 && CanShare(k, e, v);
    hide KInv, SysPageMap, Pending, BelowLimit, CanShare, UserPresent, Envid2Env, HasTable;
    PageMapReturns(k, pins, e, 0, v * PGSIZE, k.envs[c].id, v * PGSIZE, perm);
  }

  lemma ZeroHappens(p: Prog, pins: seq<nat>, a: Act)
    requires KInv(p.k, pins) && Allowed(p, a) && a.Zero?
    ensures Do(p, a).Some? <==> Takes(p.k, a)
  {
    var k, e, t, v := p.k, a.e, a.t, a.v;
    Named(k, pins, e, t);
    assert v * PGSIZE / PGSIZE == v && GoodVa(v * PGSIZE);
    hide KInv, SysPageAlloc, Pending, BelowLimit, UserPresent, Envid2Env, HasTable;
    PageAllocReturns(k, pins, e, k.envs[t].id, v * PGSIZE, a.perm);
  }

  lemma DropHappens(p: Prog, pins: seq<nat>, a: Act)
    requires KInv(p.k, pins) && Allowed(p, a) && a.Drop?
    ensures Do(p, a).Some?
  {
    var k, e, t, v := p.k, a.e, a.t, a.v;
    TargetIs(k, pins, e, t, false);
    assert Envid2Env(k.envs, e, k.envs[t].id, false).Some? && GoodVa(v * PGSIZE);
    hide KInv, SysPageUnmap, Pending, BelowLimit, Envid2Env;
    PageUnmapStep(k, pins, e, k.envs[t].id, v * PGSIZE);
  }

  lemma FaultHappens(p: Prog, pins: seq<nat>, a: Act)
    requires CowInv(p) && KInv(p.k, pins) && Allowed(p, a) && a.FaultAlloc?
    ensures Do(p, a).Some? <==> Takes(p.k, a)
  {
    var k, e := p.k, a.e;
    KernFormed(k, pins, e);
    hide KInv, CowInv, SysPageAlloc, Pending, BelowLimit, HasTable;
    TempAllocated(k, pins, e);
  }

  lemma HandlerHappens(p: Prog, pins: seq<nat>, a: Act)
    requires CowInv(p) && KInv(p.k, pins) && Allowed(p, a) && (a.FaultMap? || a.FaultUnmap?)
    ensures Do(p, a).Some?
  {
    var k, e, v := p.k, a.e, p.b.faults[a.e].v;
    KernFormed(k, pins, e);
    assert FaultOk(k, p.b, e);
    var f := PteOf(k, e, PFTEMP_PAGE).value.frame;
    assert CanShare(k, e, PFTEMP_PAGE);
    assert GoodVa(PFTEMP_PAGE * PGSIZE) && Envid2Env(k.envs, e, 0, false) == Some(e);
    hide KInv, CowInv, SysPageMap, SysPageUnmap, Pending, BelowLimit, CanShare, Envid2Env;
    if a.FaultMap? { MoveSucceeds(k, pins, e, v, f); }
    PageUnmapStep(k, pins, e, 0, PFTEMP_PAGE * PGSIZE);
  }

  /** A step that the assumptions on runs allow succeeds exactly if it finds what it takes. */
  lemma StepHappens(p: Prog, pins: seq<nat>, a: Act)
    requires CowInv(p) && KInv(p.k, pins) && Allowed(p, a)
    ensures Do(p, a).Some? <==> Takes(p.k, a)
  {
    match a
    case Spawn(_, _) => SpawnHappens(p, pins, a);
    case ShareCow(_, _, _, _) => ShareHappens(p, pins, a);
    case MarkCow(e) => MarkNeverFails(p, e);
    case ShareRo(_, _, _) => ShareHappens(p, pins, a);
    case Zero(_, _, _, _) => ZeroHappens(p, pins, a);
    case Drop(_, _, _) => DropHappens(p, pins, a);
    case FaultAlloc(_, _) => FaultHappens(p, pins, a);
    case FaultMap(_) => HandlerHappens(p, pins, a);
    case FaultUnmap(_) => HandlerHappens(p, pins, a);
    case _ =>
  }

  /** What each step that succeeds leaves for all to see. A handler that is through has made its page
      writable, and given PFTEMP back. */
  lemma StepShows(p: Prog, a: Act)
    requires CowInv(p) && Allowed(p, a) && Do(p, a).Some?
    ensures var p', b := Do(p, a).value, p.b;
            match a
            case Spawn(_, c) => p'.k.dirs.Keys == p.k.dirs.Keys + {c}
            case Zero(_, t, v, perm) =>
              Shown(p'.k, p'.b, t, v) == Some(VPage(ZeroPage(), perm & PTE_W != 0 || perm & PTE_COW != 0))
            case Drop(_, t, v) => Shown(p'.k, p'.b, t, v) == None
            case Write(e, v, i, w) =>
              && Shown(p.k, b, e, v).Some? && i < 1024
              && Shown(p'.k, p'.b, e, v) == Some(VPage(Shown(p.k, b, e, v).value.words[i := w], true))
            case Exit(e) => p'.k.dirs.Keys == p.k.dirs.Keys - {e}
            case ShareRo(e, c, v) => Shown(p'.k, p'.b, c, v) == Shown(p.k, b, e, v)
            case FaultUnmap(e) =>
              && e in b.faults && e !in p'.b.faults && PteOf(p'.k, e, PFTEMP_PAGE) == None
              && PteOf(p'.k, e, b.faults[e].v).Some? && Writable(PteOf(p'.k, e, b.faults[e].v).value)
              && Shown(p'.k, p'.b, e, b.faults[e].v) == Shown(p.k, b, e, b.faults[e].v)
            case _ => true
  {
    hide Shown, EagerOf, CowInv, Do, Shows, EagerDo, Allowed, See;
    var m, p' := EagerOf(p), Do(p, a).value;
    ShowsIsEagerOf(p, m);
    ActStep(p, m, a);
    match a
    case Spawn(_, c) => SameEnvs(p', EagerDo(m, a)); SameEnvs(p, m); EnvsAfter(m, a);
    case Zero(_, t, v, _) => SeenThere(p', EagerDo(m, a), t, v); ZeroSeen(m, a);
    case Drop(_, t, v) => SeenThere(p', EagerDo(m, a), t, v); DropSeen(m, a);
    case Write(e, v, _, _) =>
      SeenThere(p, m, e, v);
      SeenThere(p', EagerDo(m, a), e, v);
      WriteSeen(p, a);
      StoreSeen(m, a);
    case Exit(_) => SameEnvs(p', EagerDo(m, a)); SameEnvs(p, m); EnvsAfter(m, a);
    case ShareRo(e, c, v) =>
      SeenThere(p, m, e, v);
      SeenThere(p', EagerDo(m, a), c, v);
      RoMapped(p, a);
      CopySeen(m, a);
    case FaultUnmap(e) =>
      HandlerDone(p, a);
      SeenThere(p, m, e, p.b.faults[e].v);
      SeenThere(p', EagerDo(m, a), e, p.b.faults[e].v);
      NothingSeen(m, a);
    case _ =>
  }

  lemma EnvsAfter(m: Eager, a: Act)
    requires a.Spawn? || a.Exit?
    ensures EagerDo(m, a).envs == if a.Spawn? then m.envs + {a.c} else m.envs - {a.e}
  {}

  lemma DropSeen(m: Eager, a: Act)
    requires a.Drop?
    ensures See(EagerDo(m, a), a.t, a.v) == None
  {}

  lemma StoreSeen(m: Eager, a: Act)
    requires a.Write? && a.i < 1024 && See(m, a.e, a.v).Some? && See(m, a.e, a.v).value.writable
    ensures See(EagerDo(m, a), a.e, a.v) == Some(VPage(See(m, a.e, a.v).value.words[a.i := a.w], true))
  {}

  lemma CopySeen(m: Eager, a: Act)
    requires a.ShareRo? && See(m, a.e, a.v).Some?
    ensures See(EagerDo(m, a), a.c, a.v) == See(m, a.e, a.v)
  {}

  lemma NothingSeen(m: Eager, a: Act)
    requires a.FaultUnmap?
    ensures EagerDo(m, a) == m
  {}

  lemma SeenThere(p: Prog, m: Eager, e: nat, v: nat)
    requires Shows(p, m)
    ensures Shown(p.k, p.b, e, v) == See(m, e, v)
  {
    assert See(m, e, v) == Shown(p.k, p.b, e, v);
  }

  lemma SameEnvs(p: Prog, m: Eager)
    requires Shows(p, m)
    ensures p.k.dirs.Keys == m.envs
  {}

  lemma ZeroSeen(m: Eager, a: Act)
    requires a.Zero?
    ensures See(EagerDo(m, a), a.t, a.v) == Some(VPage(ZeroPage(), a.perm & PTE_W != 0 || a.perm & PTE_COW != 0))
  {}

  lemma WriteSeen(p: Prog, a: Act)
    requires Allowed(p, a) && a.Write? && Do(p, a).Some?
    ensures a.i < 1024 && Shown(p.k, p.b, a.e, a.v).Some? && Shown(p.k, p.b, a.e, a.v).value.writable
  {
    hide UserStore;
  }

  lemma RoMapped(p: Prog, a: Act)
    requires Allowed(p, a) && a.ShareRo? && Do(p, a).Some?
    ensures Shown(p.k, p.b, a.e, a.v).Some?
  {
    hide SysPageMap;
  }

  lemma HandlerDone(p: Prog, a: Act)
    requires CowInv(p) && Allowed(p, a) && a.FaultUnmap? && Do(p, a).Some?
    ensures var p', e := Do(p, a).value, a.e;
            && e in p.b.faults && e !in p'.b.faults && PteOf(p'.k, e, PFTEMP_PAGE) == None
            && PteOf(p'.k, e, p.b.faults[e].v).Some? && Writable(PteOf(p'.k, e, p.b.faults[e].v).value)
  {
    UnmapCall(p, a);
    var e, p' := a.e, Do(p, a).value;
    assert FaultOk(p.k, p.b, e);
    var v := p.b.faults[e].v;
    assert PteOf(p'.k, e, v) == PteOf(p.k, e, v);
    TempWord(PteOf(p.k, e, PFTEMP_PAGE).value.frame);
    hide Do, Allowed;
  }
}
