/** fork of lib/fork.c as a whole: what duppage and fork leave, also when calls fail, what the
    child has when the parent goes on storing meanwhile, and what the assumption on pending
    entries is for. */
module CowFork {
  import opened Mmu
  import opened Pmap
  import opened Envs
  import opened Syscalls
  import opened CowFault
  import opened CowRefine

  // ---------- duppage

  /** duppage(envid of c, v) by e, and whether it returned 0; None if an assumption on runs does
      not hold. */
  function DupPage(p: Prog, e: nat, c: nat, v: nat): Option<(Prog, bool)> {
    var pte := PteOf(p.k, e, v);
    if pte.None? then None
    else if Writable(pte.value) || Cow(pte.value) then
      var a := ShareCow(e, c, v, Writable(pte.value));
      if !Allowed(p, a) then None
      else if Do(p, a).None? then Some((p, false))
      else Marked(Do(p, a).value, e)
    else
      var a := ShareRo(e, c, v);
      if !Allowed(p, a) then None
      else if Do(p, a).None? then Some((p, false))
      else Some((Do(p, a).value, true))
  }

  // its second call
  function Marked(p: Prog, e: nat): Option<(Prog, bool)> {
    if !Allowed(p, MarkCow(e)) then None
    else if Do(p, MarkCow(e)).None? then Some((p, false))
    else Some((Do(p, MarkCow(e)).value, true))
  }

  /** The second call of a duppage never fails, so a duppage that fails changes nothing. */
  lemma MarkNeverFails(p: Prog, e: nat)
    requires CowInv(p) && Allowed(p, MarkCow(e))
    ensures Do(p, MarkCow(e)).Some?
  {
    var k, v := p.k, p.b.gaps[e].v;
    var pins :| KInv(k, pins);
    KernFormed(k, pins, e);
    assert GapOk(k, p.b, e) && v * PGSIZE / PGSIZE == v;
    assert Present(Cell(k.phys, k.dirs[e], v / 1024));
    forall d: nat ensures CanShare(k, d, v) {}
    hide KInv, Pending, BelowLimit, CanShare;
    assert UserPresent(COW_PERM) && COW_PERM & PTE_W == 0;
    PageMapReturns(k, pins, e, 0, v * PGSIZE, 0, v * PGSIZE, COW_PERM);
  }

  // Announcing a copy and making it is making it.
  lemma AnnouncedCopy(m: Eager, e: nat, c: nat, v: nat)
    requires e !in m.open && (e, v) in m.pages && c != e
    ensures Close(EagerDo(m, ShareCow(e, c, v, true)), e) == CopyPage(m, e, c, v)
  {
    var m1 := EagerDo(m, ShareCow(e, c, v, true));
    assert m1.open - {e} == m.open;
    assert (m.pages - {(c, v)})[(c, v) := m.pages[(e, v)]] == m.pages[(c, v) := m.pages[(e, v)]];
  }

  lemma OpenIsGap(p: Prog, m: Eager, e: nat)
    requires Shows(p, m) && e !in p.b.gaps
    ensures e !in m.open
  {}

  lemma ShownPage(p: Prog, m: Eager, e: nat, v: nat)
    requires Shows(p, m) && AnyPage(v) && !Pending(p.b, e, v)
    ensures (e, v) in m.pages <==> PteOf(p.k, e, v).Some?
  {
    assert See(m, e, v) == Shown(p.k, p.b, e, v);
  }

  /** duppage copies one page: on the eager machine it is CopyPage if it returns 0, and nothing
      otherwise. */
  lemma DupPageCopies(p: Prog, m: Eager, e: nat, c: nat, v: nat)
    requires CowInv(p) && Shows(p, m) && e !in p.b.gaps && DupPage(p, e, c, v).Some?
    ensures var (p', ok) := DupPage(p, e, c, v).value;
            CowInv(p') && p'.b == p.b && (!ok ==> p' == p) && Shows(p', if ok then CopyPage(m, e, c, v) else m)
  {
    var pte := PteOf(p.k, e, v).value;
    if Writable(pte) || Cow(pte) {
      DupCowCopies(p, m, e, c, v);
    } else if Do(p, ShareRo(e, c, v)).Some? {
      ActStep(p, m, ShareRo(e, c, v));
      hide CowInv, Shows, SysPageMap, PteOf;
    }
  }

  lemma GapOpened(p: Prog, e: nat, c: nat, v: nat, late: bool)
    requires Allowed(p, ShareCow(e, c, v, late)) && Do(p, ShareCow(e, c, v, late)).Some?
    ensures Do(p, ShareCow(e, c, v, late)).value.b == p.b.(gaps := p.b.gaps[e := Gap(c, v, late)])
    ensures AnyPage(v) && !Pending(p.b, e, v) && c != e
  {
    hide SysPageMap, Pending;
  }

  lemma GapClosed(p: Prog, e: nat)
    requires Allowed(p, MarkCow(e)) && Do(p, MarkCow(e)).Some?
    ensures Do(p, MarkCow(e)).value.b == p.b.(gaps := p.b.gaps - {e})
  {
    hide SysPageMap;
  }

  // Both calls of a duppage.
  lemma TwoCalls(p: Prog, m: Eager, e: nat, c: nat, v: nat, late: bool)
    requires CowInv(p) && Shows(p, m) && e !in p.b.gaps && PteOf(p.k, e, v).Some?
    requires Allowed(p, ShareCow(e, c, v, late)) && Do(p, ShareCow(e, c, v, late)).Some?
    requires Allowed(Do(p, ShareCow(e, c, v, late)).value, MarkCow(e))
    ensures var p1 := Do(p, ShareCow(e, c, v, late)).value;
            && Do(p1, MarkCow(e)).Some? && CowInv(Do(p1, MarkCow(e)).value) && Do(p1, MarkCow(e)).value.b == p.b
            && Shows(Do(p1, MarkCow(e)).value, CopyPage(m, e, c, v))
  {
    hide CowInv, Shows, Do, Allowed, PteOf, Pending, AnyPage, EagerDo, CopyPage;
    var a := ShareCow(e, c, v, late);
    var p1, m1 := Do(p, a).value, EagerDo(m, a);
    ActStep(p, m, a);
    GapOpened(p, e, c, v, late);
    MarkNeverFails(p1, e);
    ActStep(p1, m1, MarkCow(e));
    GapClosed(p1, e);
    assert p1.b.gaps - {e} == p.b.gaps;
    OpenIsGap(p, m, e);
    ShownPage(p, m, e, v);
    BothAreCopy(m, e, c, v, late);
  }

  lemma BothAreCopy(m: Eager, e: nat, c: nat, v: nat, late: bool)
    requires e !in m.open && (e, v) in m.pages && c != e
    ensures EagerDo(EagerDo(m, ShareCow(e, c, v, late)), MarkCow(e)) == CopyPage(m, e, c, v)
  {
    if late { AnnouncedCopy(m, e, c, v); }
  }

  lemma DupCowCopies(p: Prog, m: Eager, e: nat, c: nat, v: nat)
    requires CowInv(p) && Shows(p, m) && e !in p.b.gaps && DupPage(p, e, c, v).Some?
    requires Writable(PteOf(p.k, e, v).value) || Cow(PteOf(p.k, e, v).value)
    ensures var (p', ok) := DupPage(p, e, c, v).value;
            CowInv(p') && p'.b == p.b && (!ok ==> p' == p) && Shows(p', if ok then CopyPage(m, e, c, v) else m)
  {
    hide CowInv, Shows, Do, Allowed, PteOf, Pending;
    var late := Writable(PteOf(p.k, e, v).value);
    if Do(p, ShareCow(e, c, v, late)).Some? { TwoCalls(p, m, e, c, v, late); }
  }

  // ---------- fork

  // One round of the loop over addresses.
  function DupNext(p: Prog, e: nat, c: nat, v: nat): Option<(Prog, bool)> {
    if PteOf(p.k, e, v).Some? && User(PteOf(p.k, e, v).value) then DupPage(p, e, c, v) else Some((p, true))
  }

  /** The loop over addresses below USTACKTOP, from page v on, which ignores what duppage returns;
      with the pages for which it failed. */
  function DupAll(p: Prog, e: nat, c: nat, v: nat): Option<(Prog, set<nat>)>
    decreases STACK_TOP_PAGE - v
  {
    if v >= STACK_TOP_PAGE then Some((p, {}))
    else
      var next := DupNext(p, e, c, v);
      if next.None? then None
      else
        var rest := DupAll(next.value.0, e, c, v + 1);
        if rest.None? then None else Some((rest.value.0, rest.value.1 + (if next.value.1 then {} else {v})))
  }

  // What fork leaves: pages lost, and whether the child has an exception stack.
  datatype Forked = Forked(p: Prog, lost: set<nat>, stack: bool)

  const XSTACK_PERM: bv12 := PTE_U | PTE_W | PTE_P

  /** fork in the parent, its handler being installed; None if an assumption on runs does not hold,
      sys_exofork fails, which panics, or the kernel panics. When memory is out sys_page_alloc
      returns a positive number, and fork goes on. */
  function Fork(p: Prog, e: nat, c: nat): Option<Forked> {
    if !Allowed(p, Spawn(e, c)) || Do(p, Spawn(e, c)).None? then None
    else
      var all := DupAll(Do(p, Spawn(e, c)).value, e, c, 0);
      if all.None? then None
      else
        var (p2, lost) := all.value;
        var z := Zero(e, c, XSTACK_PAGE, XSTACK_PERM);
        if !Allowed(p2, z) || SysPageAlloc(p2.k, e, p2.k.envs[c].id, XSTACK_PAGE * PGSIZE, XSTACK_PERM).1.Panic?
        then None
        else if Do(p2, z).Some? then Some(Forked(Do(p2, z).value, lost, true))
        else Some(Forked(p2, lost, false))
  }

  // m' is m with the pages [from, to) of e copied to c, but for those lost.
  ghost predicate Copied(m: Eager, m': Eager, e: nat, c: nat, from: nat, to: nat, lost: set<nat>) {
    && m'.envs == m.envs && m'.open == m.open
    && forall d: nat, u: nat {:trigger See(m', d, u)} ::
         See(m', d, u) == if d == c && from <= u < to && u !in lost && See(m, e, u).Some? then See(m, e, u)
           else See(m, d, u)
  }

  lemma CopiedChain(m: Eager, m1: Eager, m2: Eager, e: nat, c: nat, from: nat, to: nat, one: set<nat>, lost: set<nat>)
    requires e != c && from < to && Copied(m, m1, e, c, from, from + 1, one) && Copied(m1, m2, e, c, from + 1, to, lost)
    requires (forall u :: u in one ==> u == from) && (forall u :: u in lost ==> u > from)
    ensures Copied(m, m2, e, c, from, to, lost + one)
  {
    forall d: nat, u: nat
      ensures See(m2, d, u) == if d == c && from <= u < to && u !in lost + one && See(m, e, u).Some?
                then See(m, e, u) else See(m, d, u)
    {
      assert See(m1, e, u) == See(m, e, u);
      assert See(m1, d, u) == See(m1, d, u);
    }
  }

  lemma OneCopied(m: Eager, e: nat, c: nat, v: nat, ok: bool)
    requires c != e
    ensures Copied(m, if ok then CopyPage(m, e, c, v) else m, e, c, v, v + 1, if ok then {} else {v})
  {}

  lemma NoneCopied(m: Eager, e: nat, c: nat, v: nat)
    ensures Copied(m, m, e, c, v, v, {})
  {}

  lemma NextCopies(p: Prog, m: Eager, e: nat, c: nat, v: nat)
    requires CowInv(p) && Shows(p, m) && e !in p.b.gaps && v < STACK_TOP_PAGE && !Pending(p.b, e, v)
             && DupNext(p, e, c, v).Some?
    ensures var (p', ok) := DupNext(p, e, c, v).value;
            CowInv(p') && p'.b == p.b && Shows(p', if ok then CopyPage(m, e, c, v) else m)
  {
    if PteOf(p.k, e, v).Some? {
      assert User(PteOf(p.k, e, v).value);
      hide CowInv, Shows, DupPage, PteOf, CopyPage;
      DupPageCopies(p, m, e, c, v);
    } else {
      assert See(m, e, v) == Shown(p.k, p.b, e, v);
      assert CopyPage(m, e, c, v) == m;
    }
  }

  lemma {:induction false} AllCopies(p: Prog, m: Eager, e: nat, c: nat, v: nat) returns (m': Eager)
    requires CowInv(p) && Shows(p, m) && e !in p.b.gaps && e != c && v <= STACK_TOP_PAGE && DupAll(p, e, c, v).Some?
    requires NotAwaited(p.b, e)
    ensures var (p', lost) := DupAll(p, e, c, v).value;
            && CowInv(p') && Shows(p', m') && p'.b == p.b && Copied(m, m', e, c, v, STACK_TOP_PAGE, lost)
            && (forall u :: u in lost ==> v <= u < STACK_TOP_PAGE)
    decreases STACK_TOP_PAGE - v
  {
    hide CowInv, Shows, DupNext, CopyPage, Copied, NotAwaited, Pending;
    m' := m;
    if v < STACK_TOP_PAGE {
      NoneAwaited(p.b, e, v);
      NextCopies(p, m, e, c, v);
      var (p1, ok) := DupNext(p, e, c, v).value;
      var m1 := if ok then CopyPage(m, e, c, v) else m;
      m' := AllCopies(p1, m1, e, c, v + 1);
      OneCopied(m, e, c, v, ok);
      CopiedChain(m, m1, m', e, c, v, STACK_TOP_PAGE, if ok then {} else {v}, DupAll(p1, e, c, v + 1).value.1);
    } else {
      NoneCopied(m, e, c, v);
    }
  }

  lemma NoneAwaited(b: Busy, e: nat, v: nat)
    requires NotAwaited(b, e)
    ensures !Pending(b, e, v)
  {}

  // What the eager machine shows once fork has returned.
  ghost predicate ForkedView(m: Eager, m': Eager, e: nat, c: nat, lost: set<nat>, stack: bool) {
    && m'.envs == m.envs + {c}
    && forall d: nat, u: nat {:trigger See(m', d, u)} :: See(m', d, u) ==
         if d != c then See(m, d, u)
         else if u < STACK_TOP_PAGE then (if u in lost then None else See(m, e, u))
         else if u == XSTACK_PAGE && stack then Some(VPage(ZeroPage(), true))
         else None
  }

  lemma CopiedIsForked(m: Eager, m2: Eager, e: nat, c: nat, lost: set<nat>, stack: bool)
    requires Copied(m.(envs := m.envs + {c}), m2, e, c, 0, STACK_TOP_PAGE, lost) && e != c
    requires forall u :: See(m, c, u) == None
    ensures ForkedView(m, if stack then EagerDo(m2, Zero(e, c, XSTACK_PAGE, XSTACK_PERM)) else m2, e, c, lost, stack)
  {
    var m1, m3 := m.(envs := m.envs + {c}), if stack then EagerDo(m2, Zero(e, c, XSTACK_PAGE, XSTACK_PERM)) else m2;
    forall d: nat, u: nat ensures See(m3, d, u) ==
         if d != c then See(m, d, u)
         else if u < STACK_TOP_PAGE then (if u in lost then None else See(m, e, u))
         else if u == XSTACK_PAGE && stack then Some(VPage(ZeroPage(), true))
         else None
    {
      assert See(m1, d, u) == See(m, d, u) && See(m1, e, u) == See(m, e, u);
      assert See(m2, d, u) == if d == c && u < STACK_TOP_PAGE && u !in lost && See(m1, e, u).Some? then See(m1, e, u)
               else See(m1, d, u);
    }
  }

  // sys_exofork, as fork begins
  lemma ForkSpawn(p: Prog, m: Eager, e: nat, c: nat)
    requires CowInv(p) && Shows(p, m) && Allowed(p, Spawn(e, c)) && Do(p, Spawn(e, c)).Some?
    ensures var p1 := Do(p, Spawn(e, c)).value;
            && CowInv(p1) && Shows(p1, m.(envs := m.envs + {c})) && p1.b == p.b
            && c != e && c !in p.k.dirs && forall u :: See(m, c, u) == None
  {
    ActStep(p, m, Spawn(e, c));
    SpawnIs(p, Spawn(e, c));
    NewSlot(p, e, c);
    hide CowInv, Do, SysExofork, Pending;
    forall u ensures See(m, c, u) == None { assert See(m, c, u) == Shown(p.k, p.b, c, u); }
  }

  lemma NewSlot(p: Prog, e: nat, c: nat)
    requires Sound(p.k) && Allowed(p, Spawn(e, c))
    ensures c !in p.k.dirs
  {
    var pins :| KInv(p.k, pins);
    assert c in p.k.freeEnvs;
  }

  // fork on both machines
  lemma ForkOnBoth(p: Prog, m: Eager, e: nat, c: nat) returns (m': Eager)
    requires CowInv(p) && Shows(p, m) && e !in p.b.gaps && NotAwaited(p.b, e) && Fork(p, e, c).Some?
    ensures var f := Fork(p, e, c).value;
            CowInv(f.p) && Shows(f.p, m') && f.p.b == p.b && c !in p.k.dirs && ForkedView(m, m', e, c, f.lost, f.stack)
  {
    hide CowInv, Shows, Do, EagerDo, Allowed, Copied, See, ForkedView, DupAll, NotAwaited, Pending, SysPageAlloc;
    ForkSpawn(p, m, e, c);
    var p1, m1, z := Do(p, Spawn(e, c)).value, m.(envs := m.envs + {c}), Zero(e, c, XSTACK_PAGE, XSTACK_PERM);
    var m2 := AllCopies(p1, m1, e, c, 0);
    var f := Fork(p, e, c).value;
    m' := m2;
    if f.stack {
      ActStep(DupAll(p1, e, c, 0).value.0, m2, z);
      ZeroBusy(DupAll(p1, e, c, 0).value.0, z);
      m' := EagerDo(m2, z);
    }
    CopiedIsForked(m, m2, e, c, f.lost, f.stack);
  }

  lemma ZeroBusy(p: Prog, a: Act)
    requires Allowed(p, a) && a.Zero? && Do(p, a).Some?
    ensures Do(p, a).value.b == p.b
  {
    hide SysPageAlloc;
  }

  /** fork: the child sees a copy of every page of the parent below USTACKTOP but those for which
      duppage failed, and a fresh exception stack if there was memory for it, and nothing more;
      what the parent and everybody else see is unchanged. */
  lemma ForkCopies(p: Prog, e: nat, c: nat)
    requires CowInv(p) && e !in p.b.gaps && NotAwaited(p.b, e) && Fork(p, e, c).Some?
    ensures var f := Fork(p, e, c).value;
            && CowInv(f.p) && c !in p.k.dirs && f.p.k.dirs.Keys == p.k.dirs.Keys + {c} && f.p.b == p.b
            && forall d: nat, u: nat {:trigger Shown(f.p.k, f.p.b, d, u)} :: Shown(f.p.k, f.p.b, d, u) ==
                 if d != c then Shown(p.k, p.b, d, u)
                 else if u < STACK_TOP_PAGE then (if u in f.lost then None else Shown(p.k, p.b, e, u))
                 else if u == XSTACK_PAGE && f.stack then Some(VPage(ZeroPage(), true))
                 else None
  {
    hide CowInv, Fork, See, Shown, EagerOf, NotAwaited;
    var f, m := Fork(p, e, c).value, EagerOf(p);
    ShowsIsEagerOf(p, m);
    var m' := ForkOnBoth(p, m, e, c);
    forall d: nat, u: nat ensures Shown(f.p.k, f.p.b, d, u) ==
                 if d != c then Shown(p.k, p.b, d, u)
                 else if u < STACK_TOP_PAGE then (if u in f.lost then None else Shown(p.k, p.b, e, u))
                 else if u == XSTACK_PAGE && f.stack then Some(VPage(ZeroPage(), true))
                 else None
    {
      assert See(m', d, u) == Shown(f.p.k, f.p.b, d, u) && See(m, d, u) == Shown(p.k, p.b, d, u)
             && See(m, e, u) == Shown(p.k, p.b, e, u);
    }
  }

  /** duppage fails exactly when the child needs a page table and memory is out. */
  lemma DupPageFails(p: Prog, pins: seq<nat>, e: nat, c: nat, v: nat)
    requires CowInv(p) && KInv(p.k, pins) && DupPage(p, e, c, v).Some?
    requires p.k.envs[c].parent == p.k.envs[e].id
    ensures DupPage(p, e, c, v).value.1 <==> HasTable(p.k.phys, p.k.dirs, c, v) || p.k.phys.free != []
  {
    var k, pte := p.k, PteOf(p.k, e, v).value;
    var cow := Writable(pte) || Cow(pte);
    var a, perm := if cow then ShareCow(e, c, v, Writable(pte)) else ShareRo(e, c, v),
      if cow then COW_PERM else RO_PERM;
    ShareSucceeds(p, pins, e, c, v, perm);
    if cow && Do(p, a).Some? {
      hide Shows;
      ActStep(p, EagerOf(p), a) by { ShowsIsEagerOf(p, EagerOf(p)); }
      MarkNeverFails(Do(p, a).value, e);
    }
    hide CowInv, SysPageMap, Pending, KInv;
  }

  lemma ShareSucceeds(p: Prog, pins: seq<nat>, e: nat, c: nat, v: nat, perm: bv12)
    requires KInv(p.k, pins) && Formed(p.k) && e < NENV && e in p.k.dirs && c in p.k.dirs && v < USER_PAGES
             && BelowLimit(p.k.phys)
    requires c < NENV && p.k.envs[c].parent == p.k.envs[e].id && PteOf(p.k, e, v).Some?
             && (perm == COW_PERM || perm == RO_PERM)
    ensures SysPageMap(p.k, e, 0, v * PGSIZE, p.k.envs[c].id, v * PGSIZE, perm).1 == Ret(0)
            <==> HasTable(p.k.phys, p.k.dirs, c, v) || p.k.phys.free != []
  {
    var k := p.k;
    assert v * PGSIZE / PGSIZE == v && UserPresent(perm) && perm & PTE_W == 0;
    forall d: nat ensures CanShare(k, d, v) {}
    assert Envid2Env(k.envs, e, k.envs[c].id, true) == Some(c) && Envid2Env(k.envs, e, 0, true) == Some(e);
    hide KInv, BelowLimit, CanShare, SysPageMap, UserPresent;
    PageMapReturns(k, pins, e, 0, v * PGSIZE, k.envs[c].id, v * PGSIZE, perm);
  }

  // ---------- storing while a fork is under way

  // The eager step a changes the page of entry (d, u).
  predicate Changes(m: Eager, a: Act, d: nat, u: nat) {
    match a
    case ShareCow(_, c, v, _) => c == d && v == u
    case ShareRo(_, c, v) => c == d && v == u
    case MarkCow(e) => e in m.open && m.open[e] == (d, u)
    case Zero(_, t, v, _) => t == d && v == u
    case Drop(_, t, v) => t == d && v == u
    case Write(e, v, _, _) => e == d && v == u
    case Exit(e) => e == d || (e in m.open && m.open[e] == (d, u))
    case _ => false
  }

  ghost predicate LeaveAlone(m: Eager, acts: seq<Act>, d: nat, u: nat)
    decreases |acts|
  {
    acts != [] ==> !Changes(m, acts[0], d, u) && LeaveAlone(EagerDo(m, acts[0]), acts[1..], d, u)
  }

  lemma {:induction false} PageKept(m: Eager, acts: seq<Act>, d: nat, u: nat)
    requires LeaveAlone(m, acts, d, u)
    ensures See(EagerRun(m, acts), d, u) == See(m, d, u)
    decreases |acts|
  {
    if acts != [] { PageKept(EagerDo(m, acts[0]), acts[1..], d, u); }
  }

  // The step at which c gets its copy of page v of e.
  predicate Copies(m: Eager, a: Act, e: nat, c: nat, v: nat) {
    match a
    case ShareCow(e', c', v', late) => e' == e && c' == c && v' == v && !late
    case ShareRo(e', c', v') => e' == e && c' == c && v' == v
    case MarkCow(e') => e' == e && e in m.open && m.open[e] == (c, v)
    case _ => false
  }

  /** fork while the parent goes on storing, to its stack or anywhere else: whatever happens
      before and after, the child has of each page what the parent had when the copy was made,
      as long as nobody changes the child's page itself. */
  lemma CopyHolds(p: Prog, before: seq<Act>, p1: Prog, a: Act, after: seq<Act>, p': Prog, e: nat, c: nat, v: nat)
    requires CowInv(p) && RunsTo(p, before, p1) && Allowed(p1, a) && Do(p1, a).Some?
             && RunsTo(Do(p1, a).value, after, p')
    requires Copies(EagerOf(p1), a, e, c, v) && c != e && Shown(p1.k, p1.b, e, v).Some?
    requires LeaveAlone(EagerDo(EagerOf(p1), a), after, c, v)
    ensures CowInv(p') && Shown(p'.k, p'.b, c, v) == Shown(p1.k, p1.b, e, v)
  {
    hide CowInv, Do, Allowed, EagerOf, EagerRun, RunsTo, Shown;
    CowRefinesEager(p, before, p1);
    var m1, p2 := EagerOf(p1), Do(p1, a).value;
    ShowsIsEagerOf(p1, m1);
    ActStep(p1, m1, a);
    ShowsIsEagerOf(p2, EagerDo(m1, a));
    CowRefinesEager(p2, after, p');
    ShowsIsEagerOf(p', EagerOf(p'));
    PageKept(EagerDo(m1, a), after, c, v);
    assert See(m1, e, v) == Shown(p1.k, p1.b, e, v) && See(EagerOf(p'), c, v) == Shown(p'.k, p'.b, c, v);
    assert See(EagerDo(m1, a), c, v) == See(m1, e, v);
  }

  /** What the assumption on pending entries is for: between the two calls of a duppage of a
      writable page, and nowhere else, a store reaches another environment's entry, the pending
      one, and the child would see it come exactly if it changes a word. */
  lemma GapWriteLeaks(p: Prog, e: nat, v: nat, d: nat, u: nat, i: nat, w: Word)
    requires CowInv(p) && e in p.k.dirs && AnyPage(v) && !AtFault(p.b, e, v) && i < 1024
    requires PteOf(p.k, e, v).Some? && Writable(PteOf(p.k, e, v).value)
    requires (d != e || u != v) && PteOf(p.k, d, u).Some?
             && PteOf(p.k, d, u).value.frame == PteOf(p.k, e, v).value.frame
    ensures u == v && e in p.b.gaps && p.b.gaps[e] == Gap(d, v, true)
    ensures ViewAt(UserStore(p.k, e, v, i, w), d, v) == ViewAt(p.k, d, v) <==> Contents(p.k, e, v)[i] == w
  {
    var k := p.k;
    var pins :| KInv(k, pins);
    assert Alone(k, p.b, e, v) && User(PteOf(k, e, v).value);
    hide KInv, UserStore;
    UserStoreStep(k, pins, e, v, i, w);
    LinksToEntries(k, UserStore(k, e, v, i, w));
    var before, after := Contents(k, e, v), Contents(k, e, v)[i := w];
    assert after[i] == w;
    if before[i] == w { assert after == before; }
  }

  // ---------- the handler as a whole

  // The rest of the copy.
  lemma {:induction false} CopyIsCopyWords(p: Prog, e: nat, n: nat, p': Prog)
    requires e in p.b.faults && p.b.faults[e].stage.Copying? && p.b.faults[e].stage.done + n == 1024
    requires RunsTo(p, seq(n, _ => FaultCopy(e)), p')
    ensures p'.k == CopyWords(p.k, e, PFTEMP_PAGE, p.b.faults[e].v, p.b.faults[e].stage.done)
    ensures p'.b == SetStage(p.b, e, Copying(1024))
    decreases n
  {
    var acts := seq(n, _ => FaultCopy(e));
    if n > 0 {
      hide CopyWord, Allowed, Pending, SysPageMap, SysPageAlloc, SysPageUnmap, PteOf;
      var p1 := Do(p, FaultCopy(e)).value;
      assert acts[1..] == seq(n - 1, _ => FaultCopy(e));
      CopyIsCopyWords(p1, e, n - 1, p');
      assert SetStage(p1.b, e, Copying(1024)) == SetStage(p.b, e, Copying(1024));
    } else {
      assert SetStage(p.b, e, Copying(1024)) == p.b;
    }
  }

  /** The steps of the fault handler, one after the other, are pgfault. */
  lemma HandlerIsPgFault(p: Prog, e: nat, v: nat, p1: Prog, p2: Prog, p3: Prog, p4: Prog)
    requires CowInv(p) && Allowed(p, FaultAlloc(e, v)) && Do(p, FaultAlloc(e, v)) == Some(p1)
    requires RunsTo(p1, seq(1024, _ => FaultCopy(e)), p2)
    requires Allowed(p2, FaultMap(e)) && Do(p2, FaultMap(e)) == Some(p3)
    requires Allowed(p3, FaultUnmap(e)) && Do(p3, FaultUnmap(e)) == Some(p4)
    ensures PgFault(p.k, e, v) == Some(p4.k)
  {
    hide SysPageAlloc, SysPageMap, SysPageUnmap, CopyWords, PteOf, CanCopy, CowInv, Allowed, Do, RunsTo;
    HandlerCanCopy(p, e, v);
    HandlerBegins(p, e, v);
    CopyIsCopyWords(p1, e, 1024, p2);
    HandlerEnds(p2, e, v, p3);
  }

  lemma HandlerBegins(p: Prog, e: nat, v: nat)
    requires Allowed(p, FaultAlloc(e, v)) && Do(p, FaultAlloc(e, v)).Some?
    ensures Formed(p.k) && e < NENV && PteOf(p.k, e, v).Some? && Cow(PteOf(p.k, e, v).value)
    ensures var p1 := Do(p, FaultAlloc(e, v)).value;
            && SysPageAlloc(p.k, e, 0, PFTEMP_PAGE * PGSIZE, RW) == (p1.k, Ret(0))
            && e in p1.b.faults && p1.b.faults[e] == Fault(v, Copying(0))
  {
    hide SysPageAlloc, Pending, PteOf;
  }

  lemma HandlerEnds(p2: Prog, e: nat, v: nat, p3: Prog)
    requires Allowed(p2, FaultMap(e)) && Do(p2, FaultMap(e)) == Some(p3) && p2.b.faults[e].v == v
    requires Allowed(p3, FaultUnmap(e)) && Do(p3, FaultUnmap(e)).Some?
    ensures Formed(p2.k) && Formed(p3.k) && e < NENV
            && SysPageMap(p2.k, e, 0, PFTEMP_PAGE * PGSIZE, 0, v * PGSIZE, RW) == (p3.k, Ret(0))
    ensures SysPageUnmap(p3.k, e, 0, PFTEMP_PAGE * PGSIZE) == (Do(p3, FaultUnmap(e)).value.k, Ret(0))
  {
    hide SysPageMap, SysPageUnmap, Pending;
  }

  lemma HandlerCanCopy(p: Prog, e: nat, v: nat)
    requires CowInv(p) && Allowed(p, FaultAlloc(e, v)) && Do(p, FaultAlloc(e, v)).Some?
    ensures CanCopy(Do(p, FaultAlloc(e, v)).value.k, e, PFTEMP_PAGE, v)
  {
    var k, pins :| k == p.k && KInv(k, pins);
    KernFormed(k, pins, e);
    hide KInv, SysPageAlloc, Envid2Env, Pending;
    CanCopyThen(k, pins, e, v);
  }
}
