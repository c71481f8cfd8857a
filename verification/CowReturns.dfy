/** That fork does return: with headroom in the counts, and nobody in the way, every assumption it
    makes on the way holds, and it comes to its end unless the kernel panics. */
module CowReturns {
  import opened Mmu
  import opened Pmap
  import opened Envs
  import opened Syscalls
  import opened CowFault
  import opened CowRefine
  import opened CowFork
  import opened CowLoss

  // ---------- how far counts can grow

  // Every entry names the page that it named in k0, those of c the page of the parent's entry there.
  ghost predicate Frames(k0: Kern, k: Kern, e: nat, c: nat) {
    forall d: nat, u: nat {:trigger PteOf(k, d, u)} :: PteOf(k, d, u).Some? ==>
      var pte := PteOf(k0, if d == c then e else d, u);
      pte.Some? && pte.value.frame == PteOf(k, d, u).value.frame
  }

  // No count is more than half way to its limit.
  ghost predicate Headroom(k: Kern) {
    forall f {:trigger k.phys.refs[f]} :: 0 <= f < |k.phys.refs| ==> 2 * k.phys.refs[f] + 1 < 0xFFFF
  }

  lemma {:induction false} Injected(own: set<Ref>, e: nat, all: set<Ref>)
    requires forall r: Ref :: r in own ==> r.Leaf? && Leaf(e, r.v) in all
    requires forall r: Ref, r': Ref :: r in own && r' in own && r.v == r'.v && r.Leaf? && r'.Leaf? ==> r == r'
    ensures |own| <= |all|
    decreases |own|
  {
    if own != {} {
      var r: Ref :| r in own;
      CardinalWithout(own, r);
      CardinalWithout(all, Leaf(e, r.v));
      Injected(own - {r}, e, all - {Leaf(e, r.v)});
    }
  }

  lemma Doubled(k0: Kern, k: Kern, e: nat, c: nat, f: nat)
    requires Frames(k0, k, e, c) && forall r :: Target(k.phys, k.dirs, r) == Some(f) ==> r.Leaf?
    ensures |Holders(k.phys, k.dirs, f)| <= 2 * |Holders(k0.phys, k0.dirs, f)|
  {
    var now, was := Holders(k.phys, k.dirs, f), Holders(k0.phys, k0.dirs, f);
    var own := set r | r in now && r.e == c;
    forall r | r in now ensures r.Leaf? && (if r.e == c then Leaf(e, r.v) else r) in was {
      HoldersAreTargets(k.phys, k.dirs, f, r);
      assert PteOf(k, r.e, r.v).Some?;
      HoldersAreTargets(k0.phys, k0.dirs, f, if r.e == c then Leaf(e, r.v) else r);
    }
    Injected(own, e, was);
    SmallerSet(now - own, was);
    assert now == (now - own) + own;
  }

  lemma CountsBound(k0: Kern, k: Kern, pins: seq<nat>, e: nat, c: nat)
    requires KInv(k0, pins) && KInv(k, pins) && Frames(k0, k, e, c) && Headroom(k0)
    ensures BelowLimit(k.phys)
  {
    forall f | 0 <= f < |k.phys.refs| ensures k.phys.refs[f] < 0xFFFF {
      assert k0.phys.refs[f] == |Holders(k0.phys, k0.dirs, f)| + pins[f];
      assert k.phys.refs[f] == |Holders(k.phys, k.dirs, f)| + pins[f];
      if r: Ref :| Target(k.phys, k.dirs, r) == Some(f) && !r.Leaf? {
        OneHolder(k, f, r);
      } else {
        Doubled(k0, k, e, c, f);
      }
    }
  }

  lemma OneHolder(k: Kern, f: nat, r: Ref)
    requires Owned(k.phys, k.dirs) && Target(k.phys, k.dirs, r) == Some(f) && !r.Leaf?
    ensures |Holders(k.phys, k.dirs, f)| == 1
  {
    assert Sole(k.phys, k.dirs, r);
    forall r' ensures r' in Holders(k.phys, k.dirs, f) <==> r' == r { HoldersAreTargets(k.phys, k.dirs, f, r'); }
    assert Holders(k.phys, k.dirs, f) == {r};
  }

  // ---------- one call

  // What the loop relies on from round to round.
  ghost predicate Going(k0: Kern, pins: seq<nat>, p: Prog, e: nat, c: nat) {
    && CowInv(p) && KInv(k0, pins) && KInv(p.k, pins) && Headroom(k0) && Frames(k0, p.k, e, c)
    && e in p.k.dirs && c in p.k.dirs && e != c && PteOf(p.k, e, PFTEMP_PAGE) == None
  }

  // Nobody is at an entry of the child, or duplicating to e, and e is not in its handler.
  ghost predicate Clear(b: Busy, e: nat, c: nat) {
    && e !in b.gaps && e !in b.faults && NotAwaited(b, e) && c !in b.gaps && c !in b.faults && NotAwaited(b, c)
  }

  lemma FirstAllowed(k0: Kern, pins: seq<nat>, p: Prog, e: nat, c: nat, v: nat)
    requires Going(k0, pins, p, e, c) && Clear(p.b, e, c) && v < USER_PAGES && PteOf(p.k, e, v).Some?
    ensures User(PteOf(p.k, e, v).value)
    ensures Allowed(p, if Writable(PteOf(p.k, e, v).value) || Cow(PteOf(p.k, e, v).value)
                       then ShareCow(e, c, v, Writable(PteOf(p.k, e, v).value)) else ShareRo(e, c, v))
    ensures Formed(p.k) && e < NENV && c < NENV
  {
    CountsBound(k0, p.k, pins, e, c);
    TargetIs(p.k, pins, e, c, true);
    hide KInv, CowInv, BelowLimit, PteOf;
  }

  lemma FirstGoes(k0: Kern, pins: seq<nat>, p: Prog, e: nat, c: nat, v: nat, a: Act)
    requires Going(k0, pins, p, e, c) && Clear(p.b, e, c) && PteOf(p.k, e, v).Some? && Allowed(p, a) && Do(p, a).Some?
    requires (a.ShareRo? && a == ShareRo(e, c, v)) || (a.ShareCow? && a == ShareCow(e, c, v, a.late))
    requires PteOf(p.k, c, v) == None
    ensures Going(k0, pins, Do(p, a).value, e, c)
    ensures a.ShareRo? ==> Do(p, a).value.b == p.b
    ensures a.ShareCow? ==> Do(p, a).value.b == p.b.(gaps := p.b.gaps[e := Gap(c, v, a.late)])
  {
    var k, p1 := p.k, Do(p, a).value;
    TargetIs(k, pins, e, c, true);
    ShareCall(p, a, c, v);
    CallKeepsPins(p, pins, e, c, v, a);
    hide CowInv, KInv, Do, Allowed, Headroom, EagerOf, PteOf, Sound;
    ShowsIsEagerOf(p, EagerOf(p));
    ActStep(p, EagerOf(p), a);
    FramesPut(k0, k, p1.k, e, c, c, v);
  }

  lemma CallKeepsPins(p: Prog, pins: seq<nat>, e: nat, c: nat, v: nat, a: Act)
    requires KInv(p.k, pins) && e in p.k.dirs && c in p.k.dirs && Allowed(p, a) && Do(p, a).Some?
    requires (a.ShareRo? && a == ShareRo(e, c, v)) || (a.ShareCow? && a == ShareCow(e, c, v, a.late))
             || (a == MarkCow(e) && e in p.b.gaps && p.b.gaps[e].v == v && v < USER_PAGES)
    ensures KInv(Do(p, a).value.k, pins)
  {
    var k := p.k;
    KernFormed(k, pins, e);
    TargetIs(k, pins, e, c, true);
    hide KInv, SysPageMap, Pending, BelowLimit, Envid2Env;
    var t, id := if a.MarkCow? then e else c, if a.MarkCow? then 0 else k.envs[c].id;
    MapOwnPage(k, pins, e, id, t, v, if a.ShareRo? then RO_PERM else COW_PERM);
  }

  // One more entry that names the page of e's own entry there.
  lemma FramesPut(k0: Kern, k: Kern, k': Kern, e: nat, c: nat, t: nat, v: nat)
    requires Frames(k0, k, e, c) && OthersSame(k, k', t, v) && (t == c || t == e) && e != c
    requires PteOf(k, e, v).Some? && PteOf(k', t, v).Some? && PteOf(k', t, v).value.frame == PteOf(k, e, v).value.frame
    ensures Frames(k0, k', e, c)
  {
    hide PteOf, Contents;
    forall d: nat, u: nat | PteOf(k', d, u).Some?
      ensures var pte := PteOf(k0, if d == c then e else d, u);
              pte.Some? && pte.value.frame == PteOf(k', d, u).value.frame
    {
      assert PteOf(k, e, v).Some?;
      if d != t || u != v { assert PteOf(k', d, u) == PteOf(k, d, u); }
    }
  }

  lemma SecondGoes(k0: Kern, pins: seq<nat>, p: Prog, e: nat, c: nat, v: nat, late: bool)
    requires Going(k0, pins, p, e, c) && e !in p.b.faults && e in p.b.gaps && p.b.gaps[e] == Gap(c, v, late)
    ensures Allowed(p, MarkCow(e)) && Do(p, MarkCow(e)).Some? && Going(k0, pins, Do(p, MarkCow(e)).value, e, c)
    ensures Do(p, MarkCow(e)).value.b == p.b.(gaps := p.b.gaps - {e})
  {
    CountsBound(k0, p.k, pins, e, c);
    KernFormed(p.k, pins, e);
    assert GapOk(p.k, p.b, e);
    MarkNeverFails(p, e);
    ShareCall(p, MarkCow(e), e, v);
    CallKeepsPins(p, pins, e, c, v, MarkCow(e));
    hide CowInv, KInv, Do, Allowed, Headroom, EagerOf, PteOf, BelowLimit, Sound;
    ShowsIsEagerOf(p, EagerOf(p));
    ActStep(p, EagerOf(p), MarkCow(e));
    FramesPut(k0, p.k, Do(p, MarkCow(e)).value.k, e, c, e, v);
    TempStays(p.k, Do(p, MarkCow(e)).value.k, e, v);
  }

  lemma TempStays(k: Kern, k': Kern, e: nat, v: nat)
    requires OthersSame(k, k', e, v) && v != PFTEMP_PAGE && PteOf(k, e, PFTEMP_PAGE) == None
    ensures PteOf(k', e, PFTEMP_PAGE) == None
  {
    assert PteOf(k', e, PFTEMP_PAGE) == PteOf(k, e, PFTEMP_PAGE);
  }

  // ---------- the loop

  lemma NextReturns(k0: Kern, pins: seq<nat>, p: Prog, e: nat, c: nat, v: nat)
    requires Going(k0, pins, p, e, c) && Clear(p.b, e, c) && v < STACK_TOP_PAGE && PteOf(p.k, c, v) == None
    ensures DupNext(p, e, c, v).Some? && Going(k0, pins, DupNext(p, e, c, v).value.0, e, c)
    ensures DupNext(p, e, c, v).value.0.b == p.b
  {
    hide Going, Clear, PteOf, DupPage, Allowed;
    if PteOf(p.k, e, v).Some? {
      FirstAllowed(k0, pins, p, e, c, v);
      if Writable(PteOf(p.k, e, v).value) || Cow(PteOf(p.k, e, v).value) {
        CowReturns(k0, pins, p, e, c, v);
      } else {
        RoReturns(k0, pins, p, e, c, v);
      }
    }
  }

  lemma RoReturns(k0: Kern, pins: seq<nat>, p: Prog, e: nat, c: nat, v: nat)
    requires Going(k0, pins, p, e, c) && Clear(p.b, e, c) && v < STACK_TOP_PAGE && PteOf(p.k, c, v) == None
    requires PteOf(p.k, e, v).Some? && !Writable(PteOf(p.k, e, v).value) && !Cow(PteOf(p.k, e, v).value)
    ensures DupPage(p, e, c, v).Some? && Going(k0, pins, DupPage(p, e, c, v).value.0, e, c)
    ensures DupPage(p, e, c, v).value.0.b == p.b
  {
    hide Going, Clear, Allowed, Do, PteOf;
    FirstAllowed(k0, pins, p, e, c, v);
    if Do(p, ShareRo(e, c, v)).Some? { FirstGoes(k0, pins, p, e, c, v, ShareRo(e, c, v)); }
  }

  lemma CowReturns(k0: Kern, pins: seq<nat>, p: Prog, e: nat, c: nat, v: nat)
    requires Going(k0, pins, p, e, c) && Clear(p.b, e, c) && v < STACK_TOP_PAGE && PteOf(p.k, c, v) == None
    requires PteOf(p.k, e, v).Some? && (Writable(PteOf(p.k, e, v).value) || Cow(PteOf(p.k, e, v).value))
    ensures DupPage(p, e, c, v).Some? && Going(k0, pins, DupPage(p, e, c, v).value.0, e, c)
    ensures DupPage(p, e, c, v).value.0.b == p.b
  {
    hide Going, Clear, Allowed, Do, PteOf;
    FirstAllowed(k0, pins, p, e, c, v);
    var late := Writable(PteOf(p.k, e, v).value);
    var a := ShareCow(e, c, v, late);
    if Do(p, a).Some? {
      FirstGoes(k0, pins, p, e, c, v, a);
      ClearFacts(p.b, e, c);
      SecondGoes(k0, pins, Do(p, a).value, e, c, v, late);
      GapsBack(p.b, Do(p, a).value.b, e, Gap(c, v, late));
    }
  }

  lemma GapsBack(b: Busy, b1: Busy, e: nat, g: Gap)
    requires e !in b.gaps && b1 == b.(gaps := b.gaps[e := g])
    ensures b1.(gaps := b1.gaps - {e}) == b
  {
    assert b.gaps[e := g] - {e} == b.gaps;
  }

  lemma ClearFacts(b: Busy, e: nat, c: nat)
    requires Clear(b, e, c)
    ensures e !in b.gaps && e !in b.faults
  {}

  lemma {:induction false} LoopReturns(k0: Kern, pins: seq<nat>, free: nat, p: Prog, e: nat, c: nat, v: nat)
    requires Going(k0, pins, p, e, c) && Clear(p.b, e, c) && v <= STACK_TOP_PAGE && At(k0, free, p.k, e, c, v)
    ensures DupAll(p, e, c, v).Some? && Going(k0, pins, DupAll(p, e, c, v).value.0, e, c)
    ensures DupAll(p, e, c, v).value.0.b == p.b
    decreases STACK_TOP_PAGE - v
  {
    hide DupNext, At, Round, Used, PteOf, CowInv, KInv, Headroom, Frames;
    if v < STACK_TOP_PAGE {
      AtFacts(k0, free, p.k, e, c, v);
      NextReturns(k0, pins, p, e, c, v);
      NoneAwaited(p.b, e, v);
      RoundTakes(p, e, c, v);
      var (p1, ok) := DupNext(p, e, c, v).value;
      RoundCounts(k0, free, p.k, p1.k, e, c, v, PteOf(p.k, e, v).Some? && ok);
      LoopReturns(k0, pins, free, p1, e, c, v + 1);
    }
  }

  // ---------- fork

  lemma SpawnGoes(p: Prog, pins: seq<nat>, e: nat, c: nat)
    requires CowInv(p) && KInv(p.k, pins) && e !in p.b.gaps && NotAwaited(p.b, e) && Headroom(p.k)
    requires Allowed(p, Spawn(e, c)) && Do(p, Spawn(e, c)).Some?
    ensures var p1 := Do(p, Spawn(e, c)).value; Going(p.k, pins, p1, e, c) && Clear(p1.b, e, c) && p1.b == p.b
  {
    var k := p.k;
    SpawnIs(p, Spawn(e, c));
    SpawnAllowed(p, e, c);
    hide Do, SysExofork;
    ExoforkStep(k, pins, e);
    var p1 := Do(p, Spawn(e, c)).value;
    NoBusy(p, c);
    assert PteOf(k, e, PFTEMP_PAGE) == None;
    ShowsIsEagerOf(p, EagerOf(p));
    hide CowInv, Allowed, KInv, EagerOf, Headroom;
    ActStep(p, EagerOf(p), Spawn(e, c));
    forall d: nat, u: nat | PteOf(p1.k, d, u).Some?
      ensures var pte := PteOf(k, if d == c then e else d, u);
                pte.Some? && pte.value.frame == PteOf(p1.k, d, u).value.frame
    {
      assert PteOf(p1.k, d, u) == PteOf(k, d, u) && PteOf(k, c, u) == None;
    }
  }

  // Nobody is at an entry of an environment that is not there.
  lemma NoBusy(p: Prog, c: nat)
    requires CowInv(p) && c !in p.k.dirs
    ensures c !in p.b.gaps && c !in p.b.faults && NotAwaited(p.b, c)
  {
    forall e | e in p.b.gaps ensures e != c && (p.b.gaps[e].late ==> p.b.gaps[e].c != c) { assert GapOk(p.k, p.b, e); }
    forall e | e in p.b.faults ensures e != c { assert FaultOk(p.k, p.b, e); }
  }

  /** fork comes to its end, whatever others are in the middle of, as long as no count is more than
      half way to its limit: unless memory is so short that the stack of the child gets the last
      page and its page table none, which panics. */
  lemma ForkReturns(p: Prog, pins: seq<nat>, e: nat, c: nat)
    requires CowInv(p) && KInv(p.k, pins) && e !in p.b.gaps && NotAwaited(p.b, e) && Headroom(p.k)
    requires Allowed(p, Spawn(e, c)) && Do(p, Spawn(e, c)).Some?
    ensures Fork(p, e, c).None?
            <==>
            (|Used(p.k, e, STACK_TOP_PAGE)| + 2 == |p.k.phys.free|
             && XSTACK_PAGE / 1024 !in Used(p.k, e, STACK_TOP_PAGE))
  {
    hide CowInv, KInv, Headroom, NotAwaited, Allowed, Do, At, DupAll, SysPageAlloc, Used, Going, Clear, Loses;
    var p1, free := Do(p, Spawn(e, c)).value, |p.k.phys.free| - 1;
    SpawnGoes(p, pins, e, c);
    LoopBegins(p, e, c);
    LoopReturns(p.k, pins, free, p1, e, c, 0);
    AfterLoop(p, e, c);
    var p2 := DupAll(p1, e, c, 0).value.0;
    StackPanics(p.k, pins, free, p2, e, c);
  }

  lemma StackPanics(k0: Kern, pins: seq<nat>, free: nat, p: Prog, e: nat, c: nat)
    requires Going(k0, pins, p, e, c) && Clear(p.b, e, c) && At(k0, free, p.k, e, c, STACK_TOP_PAGE)
    ensures Allowed(p, Zero(e, c, XSTACK_PAGE, XSTACK_PERM)) && Formed(p.k) && e < NENV && c < NENV
    ensures SysPageAlloc(p.k, e, p.k.envs[c].id, XSTACK_PAGE * PGSIZE, XSTACK_PERM).1.Panic?
            <==> |Used(k0, e, STACK_TOP_PAGE)| + 1 == free && XSTACK_PAGE / 1024 !in Used(k0, e, STACK_TOP_PAGE)
  {
    var k, used := p.k, Used(k0, e, STACK_TOP_PAGE);
    CountsBound(k0, k, pins, e, c);
    TargetIs(k, pins, e, c, true);
    NamedChild(k, pins, k0, free, e, c);
    assert UserPresent(XSTACK_PERM) && GoodVa(XSTACK_PAGE * PGSIZE) && XSTACK_PAGE * PGSIZE / PGSIZE == XSTACK_PAGE;
    HasTableIs(k, c, XSTACK_PAGE);
    assert Link(k.phys, k.dirs, Table(c, XSTACK_PAGE / 1024)).Some?
           <==> XSTACK_PAGE / 1024 in used && |Used(k0, e, XSTACK_PAGE / 1024 * 1024)| < free;
    FewerBefore(k0, e);
    hide CowInv, KInv, Headroom, SysPageAlloc, UserPresent, Envid2Env, Used, HasTable, BelowLimit, Link, PteOf;
    PageAllocReturns(k, pins, e, k.envs[c].id, XSTACK_PAGE * PGSIZE, XSTACK_PERM);
  }

  lemma FewerBefore(k: Kern, e: nat)
    ensures |Used(k, e, XSTACK_PAGE / 1024 * 1024)| <= |Used(k, e, STACK_TOP_PAGE)|
  {
    UsedGrows(k, e, XSTACK_PAGE / 1024 * 1024, STACK_TOP_PAGE);
  }

  lemma NamedChild(k: Kern, pins: seq<nat>, k0: Kern, free: nat, e: nat, c: nat)
    requires KInv(k, pins) && c in k.dirs && e in k.dirs && At(k0, free, k, e, c, STACK_TOP_PAGE)
    ensures Envid2Env(k.envs, e, k.envs[c].id, true) == Some(c)
  {}
}
