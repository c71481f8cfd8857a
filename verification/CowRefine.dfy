/** Copy-on-write refines eager copying: over every run of the user-level steps below, in any
    interleaving of environments, each page an environment can name reads and takes stores as
    in a machine where sharing a page copies it at once. */
module CowRefine {
  import opened Mmu
  import opened Pmap
  import opened Envs
  import opened Syscalls
  import opened CowFault

  /** What environments do. A duppage of a writable or copy-on-write page is two calls, ShareCow
      and MarkCow, one of a read-only page is ShareRo; a fault is handled by three calls with a copy
      word by word among them. Others may run in between, an environment in the middle of a
      duppage may store and fault, and one in its handler may store.
      `late` tells whether the page was mapped writable when its duppage began. */
  datatype Act =
    | Spawn(e: nat, c: nat)
    | ShareCow(e: nat, c: nat, v: nat, late: bool)
    | MarkCow(e: nat)
    | ShareRo(e: nat, c: nat, v: nat)
    | Zero(e: nat, t: nat, v: nat, perm: bv12)
    | Drop(e: nat, t: nat, v: nat)
    | Write(e: nat, v: nat, i: nat, w: Word)
    | FaultAlloc(e: nat, v: nat)
    | FaultCopy(e: nat)
    | FaultMap(e: nat)
    | FaultUnmap(e: nat)
    | Exit(e: nat)

  // An environment in the middle of duplicating page v to c.
  datatype Gap = Gap(c: nat, v: nat, late: bool)

  // An environment in the fault handler: PFTEMP is mapped and so many words of the page are copied
  // to it, or it is mapped at v too.
  datatype Stage = Copying(done: nat) | Mapped
  datatype Fault = Fault(v: nat, stage: Stage)

  datatype Busy = Busy(gaps: map<nat, Gap>, faults: map<nat, Fault>)

  datatype Prog = Prog(k: Kern, b: Busy)

  const COW_PERM: bv12 := PTE_COW | PTE_U | PTE_P
  const RO_PERM: bv12 := PTE_U | PTE_P

  predicate AnyPage(v: nat) { v < USER_PAGES && v != PFTEMP_PAGE }

  predicate InGap(b: Busy, e: nat, v: nat) { e in b.gaps && b.gaps[e].v == v }

  // The entry that a duppage of a writable page has given to the child, before it is closed.
  predicate Pending(b: Busy, d: nat, u: nat) { exists e :: e in b.gaps && b.gaps[e] == Gap(d, u, true) }

  predicate AtFault(b: Busy, e: nat, v: nat) { e in b.faults && b.faults[e].v == v }

  // An entry that a duppage or a fault handler is at.
  predicate Held(b: Busy, d: nat, u: nat) { InGap(b, d, u) || Pending(b, d, u) || AtFault(b, d, u) }

  // No pending entry is d's.
  predicate NotAwaited(b: Busy, d: nat) { forall e :: e in b.gaps && b.gaps[e].late ==> b.gaps[e].c != d }

  /** The assumptions on a run: actors and targets are alive, counts are below their limit, nobody
      uses PFTEMP but the handler; an environment in its handler goes on with it but for stores,
      to its stack or any page but the one it is at, and one in a duppage goes on with it but for
      stores and faults; nobody else changes the entries these are at; and a child does not use a
      page that is still being duplicated to it, which it cannot while it is not runnable. */
  predicate Allowed(p: Prog, a: Act) {
    && Formed(p.k) && a.e < NENV && a.e in p.k.dirs && BelowLimit(p.k.phys)
    && (a.e in p.b.faults ==>
          a.FaultCopy? || a.FaultMap? || a.FaultUnmap? || a.Exit? || (a.Write? && !AtFault(p.b, a.e, a.v)))
    && (a.e in p.b.gaps ==>
         a.MarkCow? || a.Write? || a.FaultAlloc? || a.FaultCopy? || a.FaultMap? || a.FaultUnmap? || a.Exit?)
    && match a
       case Spawn(_, c) => p.k.freeEnvs != [] && p.k.freeEnvs[0] < NENV && c == p.k.freeEnvs[0]
       case ShareCow(e, c, v, late) =>
         && MayShare(p, e, c, v)
         && (PteOf(p.k, e, v).Some? ==> late == Writable(PteOf(p.k, e, v).value))
       case MarkCow(e) => e in p.b.gaps && AnyPage(p.b.gaps[e].v)
       case ShareRo(e, c, v) => MayShare(p, e, c, v)
       case Zero(_, t, v, _) => AnyPage(v) && t < NENV && t in p.k.dirs && !Held(p.b, t, v)
       case Drop(_, t, v) => AnyPage(v) && t < NENV && t in p.k.dirs && !Held(p.b, t, v)
       case Write(e, v, i, _) => AnyPage(v) && i < 1024 && !Pending(p.b, e, v)
       case FaultAlloc(e, v) => AnyPage(v) && !Pending(p.b, e, v)
       case FaultCopy(e) => e in p.b.faults && p.b.faults[e].stage.Copying? && p.b.faults[e].stage.done < 1024
       case FaultMap(e) => e in p.b.faults && p.b.faults[e].stage == Copying(1024) && AnyPage(p.b.faults[e].v)
       case FaultUnmap(e) => e in p.b.faults && p.b.faults[e].stage == Mapped
       case Exit(e) => NotAwaited(p.b, e)
  }

  predicate MayShare(p: Prog, e: nat, c: nat, v: nat) {
    AnyPage(v) && c < NENV && c in p.k.dirs && c != e && !Held(p.b, c, v) && !Pending(p.b, e, v)
  }

  function SetStage(b: Busy, e: nat, stage: Stage): Busy
    requires e in b.faults
  {
    b.(faults := b.faults[e := b.faults[e].(stage := stage)])
  }

  // The step as the library and the kernel carry it out; None if a system call fails, the fault
  // handler panics, or a store would fault.
  function Do(p: Prog, a: Act): Option<Prog>
    requires Allowed(p, a)
  {
    var (k, b) := (p.k, p.b);
    match a
    case Spawn(e, _) =>
      var (k', r) := SysExofork(k, e);
      if r.code < 0 then None else Some(Prog(k', b))
    case ShareCow(e, c, v, late) =>
      var pte := PteOf(k, e, v);
      if pte.None? || !(Writable(pte.value) || Cow(pte.value)) then None
      else
        var (k', r) := SysPageMap(k, e, 0, v * PGSIZE, k.envs[c].id, v * PGSIZE, COW_PERM);
        if r == Ret(0) then Some(Prog(k', b.(gaps := b.gaps[e := Gap(c, v, late)]))) else None
    case MarkCow(e) =>
      var v := b.gaps[e].v;
      var (k', r) := SysPageMap(k, e, 0, v * PGSIZE, 0, v * PGSIZE, COW_PERM);
      if r == Ret(0) then Some(Prog(k', b.(gaps := b.gaps - {e}))) else None
    case ShareRo(e, c, v) =>
      var pte := PteOf(k, e, v);
      if pte.None? || Writable(pte.value) || Cow(pte.value) then None
      else
        var (k', r) := SysPageMap(k, e, 0, v * PGSIZE, k.envs[c].id, v * PGSIZE, RO_PERM);
        if r == Ret(0) then Some(Prog(k', b)) else None
    case Zero(e, t, v, perm) =>
      var (k', r) := SysPageAlloc(k, e, k.envs[t].id, v * PGSIZE, perm);
      if r == Ret(0) then Some(Prog(k', b)) else None
    case Drop(e, t, v) =>
      var (k', r) := SysPageUnmap(k, e, k.envs[t].id, v * PGSIZE);
      if r == Ret(0) then Some(Prog(k', b)) else None
    case Write(e, v, i, w) =>
      var pte := PteOf(k, e, v);
      if pte.Some? && Writable(pte.value) then Some(Prog(UserStore(k, e, v, i, w), b)) else None
    case FaultAlloc(e, v) =>
      var pte := PteOf(k, e, v);
      if pte.None? || Writable(pte.value) || !Cow(pte.value) then None
      else
        var (k', r) := SysPageAlloc(k, e, 0, PFTEMP_PAGE * PGSIZE, RW);
        if r == Ret(0) then Some(Prog(k', b.(faults := b.faults[e := Fault(v, Copying(0))]))) else None
    case FaultCopy(e) =>
      var i := b.faults[e].stage.done;
      Some(Prog(CopyWord(k, e, PFTEMP_PAGE, b.faults[e].v, i), SetStage(b, e, Copying(i + 1))))
    case FaultMap(e) =>
      var (k', r) := SysPageMap(k, e, 0, PFTEMP_PAGE * PGSIZE, 0, b.faults[e].v * PGSIZE, RW);
      if r == Ret(0) then Some(Prog(k', SetStage(b, e, Mapped))) else None
    case FaultUnmap(e) =>
      var (k', r) := SysPageUnmap(k, e, 0, PFTEMP_PAGE * PGSIZE);
      if r == Ret(0) then Some(Prog(k', b.(faults := b.faults - {e}))) else None
    case Exit(e) => Some(Prog(FreeEnv(k, e), Busy(b.gaps - {e}, b.faults - {e})))
  }

  // ---------- the reference: every page private from the start

  /** `open[e]` is the entry to which environment e has announced a copy. */
  datatype Eager = Eager(envs: set<nat>, pages: map<(nat, nat), VPage>, open: map<nat, (nat, nat)>)

  function See(m: Eager, e: nat, v: nat): Option<VPage> {
    if (e, v) in m.pages then Some(m.pages[(e, v)]) else None
  }

  function CopyPage(m: Eager, e: nat, c: nat, v: nat): Eager {
    if (e, v) in m.pages then m.(pages := m.pages[(c, v) := m.pages[(e, v)]]) else m
  }

  // An announced copy is made.
  function Close(m: Eager, e: nat): Eager {
    if e in m.open then CopyPage(m, e, m.open[e].0, m.open[e].1).(open := m.open - {e}) else m
  }

  /** A page is copied in one step: at the first call of its duppage if it was copy-on-write, and at
      the second if it was writable. */
  function EagerDo(m: Eager, a: Act): Eager {
    match a
    case Spawn(_, c) => m.(envs := m.envs + {c})
    case ShareCow(e, c, v, late) =>
      if late then m.(pages := m.pages - {(c, v)}, open := m.open[e := (c, v)]) else CopyPage(m, e, c, v)
    case MarkCow(e) => Close(m, e)
    case ShareRo(e, c, v) => CopyPage(m, e, c, v)
    case Zero(_, t, v, perm) =>
      m.(pages := m.pages[(t, v) := VPage(ZeroPage(), perm & PTE_W != 0 || perm & PTE_COW != 0)])
    case Drop(_, t, v) => m.(pages := m.pages - {(t, v)})
    case Write(e, v, i, w) =>
      if (e, v) in m.pages && m.pages[(e, v)].writable && i < 1024 then
        m.(pages := m.pages[(e, v) := VPage(m.pages[(e, v)].words[i := w], true)])
      else m
    case Exit(e) =>
      var m1 := Close(m, e);
      Eager(m1.envs - {e}, map s | s in m1.pages && s.0 != e :: m1.pages[s], m1.open)
    case _ => m
  }

  // ---------- the invariant

  // The other entry that may map the page of a writable entry (d, y).
  predicate Mate(b: Busy, d: nat, y: nat, d': nat, y': nat) {
    || (d in b.gaps && b.gaps[d] == Gap(d', y, true) && y' == y)
    || (d in b.faults && b.faults[d].stage == Mapped && d' == d
        && ((y == b.faults[d].v && y' == PFTEMP_PAGE) || (y == PFTEMP_PAGE && y' == b.faults[d].v)))
  }

  ghost predicate Alone(k: Kern, b: Busy, d: nat, y: nat) {
    forall d': nat, y': nat {:trigger PteOf(k, d', y')} ::
      PteOf(k, d', y').Some? && PteOf(k, d, y).Some? && PteOf(k, d', y').value.frame == PteOf(k, d, y).value.frame ==>
        (d' == d && y' == y) || Mate(b, d, y, d', y')
  }

  // A page mapped writable is mapped nowhere else, but for a duppage or a fault handler at it.
  ghost predicate Private(k: Kern, b: Busy) {
    forall d: nat, y: nat {:trigger Alone(k, b, d, y)} ::
      PteOf(k, d, y).Some? && Writable(PteOf(k, d, y).value) ==> Alone(k, b, d, y)
  }

  ghost predicate AllUser(k: Kern) {
    forall e, v {:trigger PteOf(k, e, v)} :: PteOf(k, e, v).Some? ==> User(PteOf(k, e, v).value)
  }

  // What a fault handler relies on at each stage.
  ghost predicate FaultOk(k: Kern, b: Busy, e: nat)
    requires e in b.faults
  {
    var v, stage := b.faults[e].v, b.faults[e].stage;
    var pte, temp := PteOf(k, e, v), PteOf(k, e, PFTEMP_PAGE);
    && AnyPage(v) && !Pending(b, e, v) && e in k.dirs
    && pte.Some? && temp.Some? && temp.value.flags == RW
    && (stage != Mapped ==> Cow(pte.value) && !Writable(pte.value) && pte.value.frame != temp.value.frame)
    && (stage.Copying? ==>
          && stage.done <= 1024
          && PageWords(k.phys, temp.value.frame)[..stage.done] == PageWords(k.phys, pte.value.frame)[..stage.done])
    && (stage == Mapped ==> pte.value == temp.value)
  }

  ghost predicate FaultsOk(k: Kern, b: Busy) {
    && (forall e {:trigger e in b.faults} :: e in b.faults ==> FaultOk(k, b, e))
    && (forall e {:trigger PteOf(k, e, PFTEMP_PAGE)} :: PteOf(k, e, PFTEMP_PAGE).Some? ==> e in b.faults)
  }

  // What a duppage relies on between its two calls.
  ghost predicate GapOk(k: Kern, b: Busy, e: nat)
    requires e in b.gaps
  {
    var g := b.gaps[e];
    var pte, own := PteOf(k, g.c, g.v), PteOf(k, e, g.v);
    && AnyPage(g.v) && !Pending(b, e, g.v) && own.Some? && (Writable(own.value) || Cow(own.value))
    && (g.late ==> g.c != e && Writable(own.value) && pte.Some? && pte.value == Word(own.value.frame, COW_PERM))
  }

  ghost predicate GapsOk(k: Kern, b: Busy) {
    forall e {:trigger e in b.gaps} :: e in b.gaps ==> GapOk(k, b, e)
  }

  ghost predicate Sound(k: Kern) { exists pins :: KInv(k, pins) }

  ghost predicate CowInv(p: Prog) {
    Sound(p.k) && Private(p.k, p.b) && AllUser(p.k) && FaultsOk(p.k, p.b) && GapsOk(p.k, p.b)
  }

  // What there is to see at an entry: nothing at PFTEMP, nor where a copy is only announced.
  function Shown(k: Kern, b: Busy, d: nat, u: nat): Option<VPage> {
    if u == PFTEMP_PAGE || Pending(b, d, u) then None else ViewAt(k, d, u)
  }

  function OpenOf(b: Busy): map<nat, (nat, nat)> { map e | e in b.gaps && b.gaps[e].late :: (b.gaps[e].c, b.gaps[e].v) }

  ghost predicate Shows(p: Prog, m: Eager) {
    && m.envs == p.k.dirs.Keys && m.open == OpenOf(p.b)
    && forall e: nat, v: nat {:trigger Shown(p.k, p.b, e, v)} :: See(m, e, v) == Shown(p.k, p.b, e, v)
  }

  // ---------- how one changed entry bears on it

  ghost predicate Maps(k: Kern, d: nat, y: nat, f: nat) { PteOf(k, d, y).Some? && PteOf(k, d, y).value.frame == f }

  ghost predicate MapsW(k: Kern, d: nat, y: nat, f: nat) { Maps(k, d, y, f) && Writable(PteOf(k, d, y).value) }

  // Entries in the relation of Mate stay in it, but for the entry (t, v).
  ghost predicate MatesKept(b: Busy, b': Busy, t: nat, v: nat) {
    forall d: nat, y: nat, d': nat, y': nat {:trigger Mate(b, d, y, d', y')} ::
      Mate(b, d, y, d', y') && (d != t || y != v) && (d' != t || y' != v) ==> Mate(b', d, y, d', y')
  }

  // One entry changed.
  lemma PutPrivate(k: Kern, k': Kern, b: Busy, b': Busy, t: nat, v: nat, w: Word)
    requires Private(k, b) && OthersSame(k, k', t, v) && PteOf(k', t, v) == Some(w) && MatesKept(b, b', t, v)
    requires forall d: nat, y: nat {:trigger MapsW(k, d, y, w.frame)} ::
               (d != t || y != v) && MapsW(k, d, y, w.frame) ==> Mate(b', d, y, t, v)
    requires Writable(w) ==>
               forall d: nat, y: nat {:trigger Maps(k, d, y, w.frame)} ::
                 (d != t || y != v) && Maps(k, d, y, w.frame) ==> Mate(b', t, v, d, y)
    ensures Private(k', b')
  {
    hide Mate;
    forall d: nat, y: nat | PteOf(k', d, y).Some? && Writable(PteOf(k', d, y).value) ensures Alone(k', b', d, y) {
      forall d': nat, y': nat | PteOf(k', d', y').Some? && PteOf(k', d', y').value.frame == PteOf(k', d, y).value.frame
        ensures (d' == d && y' == y) || Mate(b', d, y, d', y')
      {
        if d == t && y == v {
          if d' != t || y' != v { assert PteOf(k', d', y') == PteOf(k, d', y') && Maps(k, d', y', w.frame); }
        } else {
          assert PteOf(k', d, y) == PteOf(k, d, y) && Alone(k, b, d, y);
          if d' == t && y' == v {
            assert MapsW(k, d, y, w.frame);
          } else {
            assert PteOf(k', d', y') == PteOf(k, d', y');
          }
        }
      }
    }
  }

  // Entries only went away.
  lemma TakePrivate(k: Kern, k': Kern, b: Busy, b': Busy)
    requires Private(k, b)
    requires forall d: nat, u: nat {:trigger PteOf(k', d, u)} :: PteOf(k', d, u).Some? ==>
               PteOf(k', d, u) == PteOf(k, d, u)
    requires forall d: nat, y: nat, d': nat, y': nat {:trigger Mate(b, d, y, d', y')} ::
               Mate(b, d, y, d', y') && PteOf(k', d, y).Some? && PteOf(k', d', y').Some? ==> Mate(b', d, y, d', y')
    ensures Private(k', b')
  {
    hide Mate;
    forall d: nat, y: nat | PteOf(k', d, y).Some? && Writable(PteOf(k', d, y).value) ensures Alone(k', b', d, y) {
      assert Alone(k, b, d, y);
      forall d': nat, y': nat | PteOf(k', d', y').Some? && PteOf(k', d', y').value.frame == PteOf(k', d, y).value.frame
        ensures (d' == d && y' == y) || Mate(b', d, y, d', y') { assert PteOf(k', d', y') == PteOf(k, d', y'); }
    }
  }

  lemma PutUser(k: Kern, k': Kern, t: nat, v: nat)
    requires AllUser(k) && OthersSame(k, k', t, v) && (PteOf(k', t, v).Some? ==> User(PteOf(k', t, v).value))
    ensures AllUser(k')
  {
    forall e: nat, u: nat ensures PteOf(k', e, u).Some? ==> User(PteOf(k', e, u).value) {
      if e != t || u != v { assert PteOf(k', e, u) == PteOf(k, e, u); }
    }
  }

  // The changed entry is not one that the handler of e is at.
  lemma FaultKept(k: Kern, k': Kern, b: Busy, b': Busy, e: nat, t: nat, v: nat)
    requires e in b.faults && FaultOk(k, b, e) && e in b'.faults && b'.faults[e] == b.faults[e] && k'.dirs == k.dirs
    requires OthersSame(k, k', t, v) && (e != t || (v != b.faults[e].v && v != PFTEMP_PAGE))
             && !Pending(b', e, b.faults[e].v)
    ensures FaultOk(k', b', e)
  {
    assert PteOf(k', e, b.faults[e].v) == PteOf(k, e, b.faults[e].v)
           && PteOf(k', e, PFTEMP_PAGE) == PteOf(k, e, PFTEMP_PAGE);
  }

  // Nor one that the duppage of e is at.
  lemma GapKept(k: Kern, k': Kern, b: Busy, b': Busy, e: nat, t: nat, v: nat)
    requires e in b.gaps && GapOk(k, b, e) && e in b'.gaps && b'.gaps[e] == b.gaps[e]
    requires OthersSame(k, k', t, v) && (v != b.gaps[e].v || (e != t && (b.gaps[e].late ==> b.gaps[e].c != t)))
             && !Pending(b', e, b.gaps[e].v)
    ensures GapOk(k', b', e)
  {
    assert PteOf(k', e, b.gaps[e].v) == PteOf(k, e, b.gaps[e].v);
    if b.gaps[e].late { assert PteOf(k', b.gaps[e].c, b.gaps[e].v) == PteOf(k, b.gaps[e].c, b.gaps[e].v); }
  }

  // Everybody's handler and duppage goes on as before, if the changed entry is nobody's.
  lemma OthersGoOn(k: Kern, k': Kern, b: Busy, t: nat, v: nat)
    requires FaultsOk(k, b) && GapsOk(k, b) && OthersSame(k, k', t, v) && k'.dirs == k.dirs && v != PFTEMP_PAGE
             && !Held(b, t, v)
    ensures FaultsOk(k', b) && GapsOk(k', b)
  {
    hide FaultOk, GapOk, Pending;
    forall e | e in b.faults ensures FaultOk(k', b, e) {
      FaultFree(k, b, e);
      FaultKept(k, k', b, b, e, t, v);
    }
    forall e | PteOf(k', e, PFTEMP_PAGE).Some?
      ensures e in b.faults
    {
      assert PteOf(k', e, PFTEMP_PAGE) == PteOf(k, e, PFTEMP_PAGE);
    }
    forall e | e in b.gaps ensures GapOk(k', b, e) {
      GapFree(k, b, e);
      if b.gaps[e].late { GapPending(b, e); }
      GapKept(k, k', b, b, e, t, v);
    }
  }

  lemma FaultFree(k: Kern, b: Busy, e: nat)
    requires e in b.faults && FaultOk(k, b, e)
    ensures !Pending(b, e, b.faults[e].v) && AnyPage(b.faults[e].v)
  {}

  lemma GapFree(k: Kern, b: Busy, e: nat)
    requires e in b.gaps && GapOk(k, b, e)
    ensures !Pending(b, e, b.gaps[e].v) && AnyPage(b.gaps[e].v)
  {}

  lemma GapPending(b: Busy, e: nat)
    requires e in b.gaps && b.gaps[e].late
    ensures Pending(b, b.gaps[e].c, b.gaps[e].v)
  {}

  lemma ShowsPut(p: Prog, p': Prog, m: Eager, m': Eager, t: nat, v: nat)
    requires Shows(p, m) && OthersSame(p.k, p'.k, t, v) && p'.k.dirs == p.k.dirs && m'.envs == m.envs
             && m'.open == OpenOf(p'.b)
    requires forall d: nat, u: nat {:trigger Pending(p'.b, d, u)} :: d != t || u != v ==>
               Pending(p'.b, d, u) == Pending(p.b, d, u)
    requires forall d: nat, u: nat {:trigger See(m', d, u)} :: d != t || u != v ==> See(m', d, u) == See(m, d, u)
    requires See(m', t, v) == Shown(p'.k, p'.b, t, v)
    ensures Shows(p', m')
  {
    hide Pending;
    forall d: nat, u: nat ensures See(m', d, u) == Shown(p'.k, p'.b, d, u) {
      if d != t || u != v {
        assert PteOf(p'.k, d, u) == PteOf(p.k, d, u) && See(m, d, u) == Shown(p.k, p.b, d, u);
      }
    }
  }

  // ---------- one step of each kind

  lemma TargetIs(k: Kern, pins: seq<nat>, e: nat, t: nat, checkperm: bool)
    requires KInv(k, pins) && e in k.dirs && t in k.dirs
    ensures Formed(k) && e < NENV && t < NENV
    ensures Envid2Env(k.envs, e, k.envs[t].id, checkperm).Some? ==>
              Envid2Env(k.envs, e, k.envs[t].id, checkperm) == Some(t)
  {}

  // sys_page_map of the caller's own page v to the same address of t
  lemma MapOwnPage(k: Kern, pins: seq<nat>, e: nat, id: int, t: nat, v: nat, perm: bv12)
    requires KInv(k, pins) && e in k.dirs && v < USER_PAGES && BelowLimit(k.phys)
    requires Envid2Env(k.envs, e, id, true).Some? ==> Envid2Env(k.envs, e, id, true) == Some(t)
    requires SysPageMap(k, e, 0, v * PGSIZE, id, v * PGSIZE, perm).1 == Ret(0)
    ensures var k' := SysPageMap(k, e, 0, v * PGSIZE, id, v * PGSIZE, perm).0;
            && PteOf(k, e, v).Some? && KInv(k', pins) && k' == k.(phys := k'.phys) && OthersSame(k, k', t, v)
            && PteOf(k', t, v) == Some(Word(PteOf(k, e, v).value.frame, perm | PTE_P))
            && PageWords(k'.phys, PteOf(k, e, v).value.frame) == Contents(k, e, v)
  {
    assert v * PGSIZE / PGSIZE == v;
    forall d: nat ensures CanShare(k, d, v) {}
    assert Formed(k) && e < NENV;
    hide KInv, SysPageMap, BelowLimit, CanShare;
    PageMapStep(k, pins, e, 0, v * PGSIZE, id, v * PGSIZE, perm);
    assert Envid2Env(k.envs, e, 0, true) == Some(e);
    PutIsOthersSame(k, SysPageMap(k, e, 0, v * PGSIZE, id, v * PGSIZE, perm).0, t, v,
      Word(PteOf(k, e, v).value.frame, perm | PTE_P));
  }

  // A page of e that is not mapped writable is mapped writable by nobody, and one that is, by
  // nobody else, as long as e is not in its handler and no copy to it is pending.
  lemma NoOtherWriter(k: Kern, b: Busy, e: nat, v: nat, d: nat, y: nat)
    requires Private(k, b) && PteOf(k, e, v).Some? && !Pending(b, e, v) && e !in b.faults
    requires MapsW(k, d, y, PteOf(k, e, v).value.frame)
    ensures d == e && y == v
  {
    assert Alone(k, b, d, y);
  }

  lemma ShareWord()
    ensures forall f: Frame ::
              Word(f, COW_PERM | PTE_P) == Word(f, COW_PERM) && Cow(Word(f, COW_PERM)) && User(Word(f, COW_PERM))
                && !Writable(Word(f, COW_PERM))
    ensures forall f: Frame ::
              Word(f, RO_PERM | PTE_P) == Word(f, RO_PERM) && !Cow(Word(f, RO_PERM)) && User(Word(f, RO_PERM))
                && !Writable(Word(f, RO_PERM))
  {}

  // What a sharing call leaves, apart from what it means.
  ghost predicate Shared(k: Kern, k': Kern, e: nat, c: nat, v: nat, flags: bv12) {
    && Sound(k') && k' == k.(phys := k'.phys) && OthersSame(k, k', c, v) && PteOf(k, e, v).Some?
    && PteOf(k', c, v) == Some(Word(PteOf(k, e, v).value.frame, flags))
    && PageWords(k'.phys, PteOf(k, e, v).value.frame) == Contents(k, e, v)
  }

  lemma ShareCall(p: Prog, a: Act, c: nat, v: nat)
    requires Sound(p.k) && Allowed(p, a) && Do(p, a).Some?
    requires match a case ShareCow(_, c', v', _) => c == c' && v == v' case ShareRo(_, c', v') => c == c' && v == v'
               case MarkCow(e) => c == e && v == p.b.gaps[e].v case _ => false
    ensures Shared(p.k, Do(p, a).value.k, a.e, c, v, if a.ShareRo? then RO_PERM else COW_PERM)
    ensures Do(p, a).value.b == match a
              case ShareCow(e, _, _, late) => p.b.(gaps := p.b.gaps[e := Gap(c, v, late)])
              case MarkCow(e) => p.b.(gaps := p.b.gaps - {e})
              case _ => p.b
  {
    var pins :| KInv(p.k, pins);
    ShareWord();
    TargetIs(p.k, pins, a.e, c, true);
    hide KInv;
    var id, perm := if a.MarkCow? then 0 else p.k.envs[c].id, if a.ShareRo? then RO_PERM else COW_PERM;
    MapOwnPage(p.k, pins, a.e, id, c, v, perm);
  }

  lemma ShareRoStep(p: Prog, m: Eager, a: Act)
    requires CowInv(p) && Shows(p, m) && Allowed(p, a) && a.ShareRo? && Do(p, a).Some?
    ensures CowInv(Do(p, a).value) && Shows(Do(p, a).value, EagerDo(m, a))
  {
    var k, b, e, c, v := p.k, p.b, a.e, a.c, a.v;
    var p' := Do(p, a).value;
    ShareCall(p, a, c, v);
    ShareWord();
    assert !Writable(PteOf(k, e, v).value) && !Cow(PteOf(k, e, v).value);
    hide Do, Allowed, Pending, Mate, FaultOk, GapOk, SysPageMap;
    forall d: nat, y: nat | MapsW(k, d, y, PteOf(k, e, v).value.frame)
      ensures false
    {
      NoOtherWriter(k, b, e, v, d, y);
    }
    PutPrivate(k, p'.k, b, b, c, v, Word(PteOf(k, e, v).value.frame, RO_PERM));
    PutUser(k, p'.k, c, v);
    OthersGoOn(k, p'.k, b, c, v);
    assert See(m, e, v) == Shown(k, b, e, v);
    ShowsPut(p, p', m, EagerDo(m, a), c, v);
  }

  /** The first call of a duppage, for a page that is copy-on-write already: from now on the child
      has its copy. */
  lemma ShareEarlyStep(p: Prog, m: Eager, a: Act)
    requires CowInv(p) && Shows(p, m) && Allowed(p, a) && a.ShareCow? && !a.late && Do(p, a).Some?
    ensures CowInv(Do(p, a).value) && Shows(Do(p, a).value, EagerDo(m, a))
  {
    var k, b, e, c, v := p.k, p.b, a.e, a.c, a.v;
    var p' := Do(p, a).value;
    ShareCall(p, a, c, v);
    ShareWord();
    assert !Writable(PteOf(k, e, v).value) && Cow(PteOf(k, e, v).value) && e !in b.gaps;
    EarlyPending(b, e, c, v);
    hide Do, Allowed, Pending, Mate, FaultOk, GapOk, SysPageMap;
    forall d: nat, y: nat | MapsW(k, d, y, PteOf(k, e, v).value.frame)
      ensures false
    {
      NoOtherWriter(k, b, e, v, d, y);
    }
    PutPrivate(k, p'.k, b, p'.b, c, v, Word(PteOf(k, e, v).value.frame, COW_PERM));
    PutUser(k, p'.k, c, v);
    OthersGoOn(k, p'.k, b, c, v);
    GoesOn(k, p'.k, b, p'.b, e, c, v);
    assert See(m, e, v) == Shown(k, b, e, v);
    ShowsPut(p, p', m, EagerDo(m, a), c, v);
  }

  // A gap that is not late changes nobody's relations.
  lemma EarlyPending(b: Busy, e: nat, c: nat, v: nat)
    requires e !in b.gaps
    ensures var b' := b.(gaps := b.gaps[e := Gap(c, v, false)]);
            && (forall d: nat, u: nat :: Pending(b', d, u) == Pending(b, d, u)) && OpenOf(b') == OpenOf(b)
            && (forall d: nat, y: nat, d': nat, y': nat :: Mate(b, d, y, d', y') ==> Mate(b', d, y, d', y'))
  {
    var b' := b.(gaps := b.gaps[e := Gap(c, v, false)]);
    forall d: nat, u: nat ensures Pending(b', d, u) == Pending(b, d, u) {
      if Pending(b, d, u) {
        var x :| x in b.gaps && b.gaps[x] == Gap(d, u, true);
        assert x in b'.gaps && b'.gaps[x] == Gap(d, u, true);
      }
    }
  }

  lemma GoesOn(k: Kern, k': Kern, b: Busy, b': Busy, e: nat, c: nat, v: nat)
    requires FaultsOk(k', b) && GapsOk(k', b) && b' == b.(gaps := b.gaps[e := Gap(c, v, false)]) && e !in b.gaps
    requires forall d: nat, u: nat :: Pending(b', d, u) == Pending(b, d, u)
    requires AnyPage(v) && !Pending(b, e, v) && PteOf(k', e, v).Some? && Cow(PteOf(k', e, v).value)
    ensures FaultsOk(k', b') && GapsOk(k', b')
  {
    hide Pending;
    forall d | d in b'.faults ensures FaultOk(k', b', d) { assert FaultOk(k', b, d); }
    forall d | d in b'.gaps ensures GapOk(k', b', d) { if d != e { assert GapOk(k', b, d); } }
  }

  lemma LatePending(b: Busy, e: nat, c: nat, v: nat)
    requires e !in b.gaps
    ensures var b' := b.(gaps := b.gaps[e := Gap(c, v, true)]);
            && (forall d: nat, u: nat :: Pending(b', d, u) <==> Pending(b, d, u) || (d == c && u == v))
            && OpenOf(b') == OpenOf(b)[e := (c, v)]
            && (forall d: nat, y: nat, d': nat, y': nat :: Mate(b, d, y, d', y') ==> Mate(b', d, y, d', y'))
            && Mate(b', e, v, c, v)
  {
    var b' := b.(gaps := b.gaps[e := Gap(c, v, true)]);
    forall d: nat, u: nat ensures Pending(b', d, u) <==> Pending(b, d, u) || (d == c && u == v) {
      if Pending(b, d, u) {
        var x :| x in b.gaps && b.gaps[x] == Gap(d, u, true);
        assert x in b'.gaps && b'.gaps[x] == Gap(d, u, true);
      }
      assert b'.gaps[e] == Gap(c, v, true);
    }
  }

  /** The first call of a duppage, for a page that is writable: the child's entry is pending. */
  lemma ShareLateStep(p: Prog, m: Eager, a: Act)
    requires CowInv(p) && Shows(p, m) && Allowed(p, a) && a.ShareCow? && a.late && Do(p, a).Some?
    ensures CowInv(Do(p, a).value) && Shows(Do(p, a).value, EagerDo(m, a))
  {
    var k, b, e, c, v := p.k, p.b, a.e, a.c, a.v;
    var p' := Do(p, a).value;
    ShareCall(p, a, c, v);
    ShareWord();
    assert Writable(PteOf(k, e, v).value) && e !in b.gaps;
    LatePending(b, e, c, v);
    hide Do, Allowed, Pending, Mate, FaultOk, GapOk, SysPageMap;
    forall d: nat, y: nat | MapsW(k, d, y, PteOf(k, e, v).value.frame)
      ensures d == e && y == v
    {
      NoOtherWriter(k, b, e, v, d, y);
    }
    PutPrivate(k, p'.k, b, p'.b, c, v, Word(PteOf(k, e, v).value.frame, COW_PERM));
    PutUser(k, p'.k, c, v);
    LateGoesOn(k, p'.k, b, p'.b, e, c, v);
    ShowsPut(p, p', m, EagerDo(m, a), c, v);
  }

  lemma LateGoesOn(k: Kern, k': Kern, b: Busy, b': Busy, e: nat, c: nat, v: nat)
    requires FaultsOk(k, b) && GapsOk(k, b) && b' == b.(gaps := b.gaps[e := Gap(c, v, true)]) && e !in b.gaps
             && k'.dirs == k.dirs
    requires forall d: nat, u: nat :: Pending(b', d, u) <==> Pending(b, d, u) || (d == c && u == v)
    requires AnyPage(v) && !Pending(b, e, v) && !Held(b, c, v) && c != e && Shared(k, k', e, c, v, COW_PERM)
             && Writable(PteOf(k, e, v).value)
    ensures FaultsOk(k', b') && GapsOk(k', b')
  {
    hide Pending;
    forall d | d in b'.faults ensures FaultOk(k', b', d) {
      FaultFree(k, b, d);
      FaultKept(k, k', b, b', d, c, v);
    }
    forall d | PteOf(k', d, PFTEMP_PAGE).Some?
      ensures d in b'.faults
    {
      assert PteOf(k', d, PFTEMP_PAGE) == PteOf(k, d, PFTEMP_PAGE);
    }
    forall d | d in b'.gaps ensures GapOk(k', b', d) {
      if d != e {
        GapFree(k, b, d);
        if b.gaps[d].late { GapPending(b, d); }
        GapKept(k, k', b, b', d, c, v);
      } else {
        assert PteOf(k', e, v) == PteOf(k, e, v);
      }
    }
  }

  // Two duppages of writable pages do not share a pending entry.
  lemma PendingOnce(k: Kern, b: Busy, e: nat, d: nat)
    requires Private(k, b) && GapsOk(k, b) && e in b.gaps && d in b.gaps && b.gaps[e].late && b.gaps[d] == b.gaps[e]
    ensures d == e
  {
    ShareWord();
    assert GapOk(k, b, e) && GapOk(k, b, d);
    assert Alone(k, b, e, b.gaps[e].v);
    assert PteOf(k, d, b.gaps[e].v).Some?;
  }

  // What is pending once the duppage of e is closed.
  lemma ClosedPending(k: Kern, b: Busy, e: nat)
    requires Private(k, b) && GapsOk(k, b) && e in b.gaps
    ensures var b', g := b.(gaps := b.gaps - {e}), b.gaps[e];
            && (forall d: nat, u: nat :: Pending(b', d, u) <==> Pending(b, d, u) && !(g.late && d == g.c && u == g.v))
            && OpenOf(b') == OpenOf(b) - {e} && MatesKept(b, b', e, g.v)
            && (e in OpenOf(b) <==> g.late) && (g.late ==> OpenOf(b)[e] == (g.c, g.v))
  {
    var b', g := b.(gaps := b.gaps - {e}), b.gaps[e];
    forall d: nat, u: nat ensures Pending(b', d, u) <==> Pending(b, d, u) && !(g.late && d == g.c && u == g.v) {
      if Pending(b, d, u) {
        var x :| x in b.gaps && b.gaps[x] == Gap(d, u, true);
        if x != e {
          assert x in b'.gaps && b'.gaps[x] == Gap(d, u, true);
          if g.late && d == g.c && u == g.v { PendingOnce(k, b, e, x); }
        }
      }
      if Pending(b', d, u) {
        var x :| x in b'.gaps && b'.gaps[x] == Gap(d, u, true);
        assert x in b.gaps && b.gaps[x] == Gap(d, u, true);
        if g.late && d == g.c && u == g.v { PendingOnce(k, b, e, x); }
      }
    }
  }

  /** The second call of a duppage. */
  lemma MarkCowStep(p: Prog, m: Eager, a: Act)
    requires CowInv(p) && Shows(p, m) && Allowed(p, a) && a.MarkCow? && Do(p, a).Some?
    ensures CowInv(Do(p, a).value) && Shows(Do(p, a).value, EagerDo(m, a))
  {
    var k, b, e, v := p.k, p.b, a.e, p.b.gaps[a.e].v;
    var p' := Do(p, a).value;
    ShareCall(p, a, e, v);
    ShareWord();
    assert e in b.gaps && e !in b.faults;
    GapFree(k, b, e);
    ClosedPending(k, b, e);
    hide Do, Allowed, Pending, Mate, SysPageMap;
    forall d: nat, y: nat | MapsW(k, d, y, PteOf(k, e, v).value.frame)
      ensures d == e && y == v
    {
      NoOtherWriter(k, b, e, v, d, y);
    }
    PutPrivate(k, p'.k, b, p'.b, e, v, Word(PteOf(k, e, v).value.frame, COW_PERM));
    PutUser(k, p'.k, e, v);
    ClosedGoesOn(k, p'.k, b, p'.b, e);
    ClosedShows(p, p', m, e);
  }

  lemma ClosedGoesOn(k: Kern, k': Kern, b: Busy, b': Busy, e: nat)
    requires FaultsOk(k, b) && GapsOk(k, b) && e in b.gaps && e !in b.faults && b' == b.(gaps := b.gaps - {e})
             && k'.dirs == k.dirs
    requires forall d: nat, u: nat :: Pending(b', d, u) ==> Pending(b, d, u)
    requires OthersSame(k, k', e, b.gaps[e].v)
    ensures FaultsOk(k', b') && GapsOk(k', b')
  {
    hide Pending;
    var v := b.gaps[e].v;
    GapFree(k, b, e);
    forall d | d in b'.faults ensures FaultOk(k', b', d) {
      FaultFree(k, b, d);
      FaultKept(k, k', b, b', d, e, v);
    }
    forall d | PteOf(k', d, PFTEMP_PAGE).Some?
      ensures d in b'.faults
    {
      assert PteOf(k', d, PFTEMP_PAGE) == PteOf(k, d, PFTEMP_PAGE);
    }
    forall d | d in b'.gaps ensures GapOk(k', b', d) {
      GapFree(k, b, d);
      if b.gaps[d].late { GapPending(b, d); }
      GapKept(k, k', b, b', d, e, v);
    }
  }

  lemma ClosedShows(p: Prog, p': Prog, m: Eager, e: nat)
    requires Shows(p, m) && e in p.b.gaps && GapOk(p.k, p.b, e) && p'.b == p.b.(gaps := p.b.gaps - {e})
             && p'.k.dirs == p.k.dirs
    requires Shared(p.k, p'.k, e, e, p.b.gaps[e].v, COW_PERM)
    requires forall d: nat, u: nat :: Pending(p'.b, d, u) <==>
               Pending(p.b, d, u) && !(p.b.gaps[e].late && d == p.b.gaps[e].c && u == p.b.gaps[e].v)
    requires OpenOf(p'.b) == OpenOf(p.b) - {e}
    requires (e in OpenOf(p.b) <==> p.b.gaps[e].late)
             && (p.b.gaps[e].late ==> OpenOf(p.b)[e] == (p.b.gaps[e].c, p.b.gaps[e].v))
    ensures Shows(p', Close(m, e))
  {
    hide Pending, OpenOf, Sound;
    ShareWord();
    var k, k', v, c := p.k, p'.k, p.b.gaps[e].v, p.b.gaps[e].c;
    var m' := Close(m, e);
    assert See(m, e, v) == Shown(k, p.b, e, v);
    forall d: nat, u: nat ensures See(m', d, u) == Shown(k', p'.b, d, u) {
      assert See(m, d, u) == Shown(k, p.b, d, u);
      if d != e || u != v { assert PteOf(k', d, u) == PteOf(k, d, u); }
    }
  }

  lemma PermBits(f: Frame, perm: bv12)
    requires UserPresent(perm)
    ensures User(Word(f, perm | PTE_P))
    ensures Writable(Word(f, perm | PTE_P)) <==> perm & PTE_W != 0
    ensures Cow(Word(f, perm | PTE_P)) <==> perm & PTE_COW != 0
  {}

  // One entry changed to a page nobody maps.
  lemma PutFresh(k: Kern, k': Kern, b: Busy, b': Busy, t: nat, v: nat, w: Word)
    requires Private(k, b) && AllUser(k) && OthersSame(k, k', t, v) && PteOf(k', t, v) == Some(w)
             && MatesKept(b, b', t, v)
    requires NotMapped(k, w.frame) && User(w)
    ensures Private(k', b') && AllUser(k')
  {
    hide Mate;
    forall d: nat, y: nat ensures !Maps(k, d, y, w.frame) {}
    PutPrivate(k, k', b, b', t, v, w);
    PutUser(k, k', t, v);
  }

  lemma ZeroIs(p: Prog, pins: seq<nat>, a: Act)
    requires KInv(p.k, pins) && Allowed(p, a) && a.Zero? && Do(p, a).Some?
    ensures Formed(p.k) && a.e < NENV && a.e in p.k.dirs && a.t < NENV && a.t in p.k.dirs && AnyPage(a.v)
            && !Held(p.b, a.t, a.v)
    ensures var (k', r) := SysPageAlloc(p.k, a.e, p.k.envs[a.t].id, a.v * PGSIZE, a.perm);
              r == Ret(0) && Do(p, a) == Some(Prog(k', p.b))
    ensures Envid2Env(p.k.envs, a.e, p.k.envs[a.t].id, true).Some? ==>
              Envid2Env(p.k.envs, a.e, p.k.envs[a.t].id, true) == Some(a.t)
  {
    TargetIs(p.k, pins, a.e, a.t, true);
    hide KInv, SysPageAlloc, Pending;
  }

  // What sys_page_alloc leaves.
  ghost predicate ZeroGiven(k: Kern, k': Kern, t: nat, v: nat, perm: bv12, f: Frame) {
    && Sound(k') && k' == k.(phys := k'.phys) && OthersSame(k, k', t, v) && UserPresent(perm)
    && PteOf(k', t, v) == Some(Word(f, perm | PTE_P)) && PageWords(k'.phys, f) == ZeroPage() && NotMapped(k, f)
  }

  lemma ZeroCall(p: Prog, a: Act) returns (f: Frame)
    requires Sound(p.k) && Allowed(p, a) && a.Zero? && Do(p, a).Some?
    ensures ZeroGiven(p.k, Do(p, a).value.k, a.t, a.v, a.perm, f) && Do(p, a).value.b == p.b && AnyPage(a.v)
            && !Held(p.b, a.t, a.v)
  {
    hide Do, Allowed, KInv, SysPageAlloc, Envid2Env, OthersSame, NotMapped, Held;
    var pins :| KInv(p.k, pins);
    ZeroIs(p, pins, a);
    FreshPageAt(p.k, pins, a.e, p.k.envs[a.t].id, a.t, a.v, a.perm);
    f := p.k.phys.free[0];
  }

  lemma ZeroStep(p: Prog, m: Eager, a: Act)
    requires CowInv(p) && Shows(p, m) && Allowed(p, a) && a.Zero? && Do(p, a).Some?
    ensures CowInv(Do(p, a).value) && Shows(Do(p, a).value, EagerDo(m, a))
  {
    hide Do, Allowed, Private, AllUser, FaultsOk, GapsOk, OthersSame, NotMapped, Pending, Mate, Sound, Shows,
      EagerDo, UserPresent;
    var k, b, t, v := p.k, p.b, a.t, a.v;
    var p' := Do(p, a).value;
    var f := ZeroCall(p, a);
    PermBits(f, a.perm);
    PutFresh(k, p'.k, b, b, t, v, Word(f, a.perm | PTE_P));
    OthersGoOn(k, p'.k, b, t, v);
    assert !Pending(b, t, v);
    ZeroShows(p, p', m, a, f);
  }

  lemma ZeroShows(p: Prog, p': Prog, m: Eager, a: Act, f: Frame)
    requires Shows(p, m) && a.Zero? && p'.b == p.b && p'.k.dirs == p.k.dirs && AnyPage(a.v)
             && !Pending(p.b, a.t, a.v) && UserPresent(a.perm)
    requires OthersSame(p.k, p'.k, a.t, a.v) && PteOf(p'.k, a.t, a.v) == Some(Word(f, a.perm | PTE_P))
             && PageWords(p'.k.phys, f) == ZeroPage()
    ensures Shows(p', EagerDo(m, a))
  {
    PermBits(f, a.perm);
    hide Pending, OthersSame, UserPresent;
    ShowsPut(p, p', m, EagerDo(m, a), a.t, a.v);
  }

  lemma DropStep(p: Prog, m: Eager, a: Act)
    requires CowInv(p) && Shows(p, m) && Allowed(p, a) && a.Drop? && Do(p, a).Some?
    ensures CowInv(Do(p, a).value) && Shows(Do(p, a).value, EagerDo(m, a))
  {
    var k, b, e, t, v := p.k, p.b, a.e, a.t, a.v;
    var pins :| KInv(k, pins);
    TargetIs(k, pins, e, t, false);
    var p' := Do(p, a).value;
    hide KInv, SysPageUnmap, Envid2Env;
    UnmapStep(k, pins, e, k.envs[t].id, v);
    hide Do, Allowed, FaultsOk, GapsOk, Pending, Mate;
    forall d: nat, u: nat | PteOf(p'.k, d, u).Some?
      ensures PteOf(p'.k, d, u) == PteOf(k, d, u)
    {
      assert d != t || u != v;
    }
    TakePrivate(k, p'.k, b, b);
    PutUser(k, p'.k, t, v);
    OthersGoOn(k, p'.k, b, t, v);
    ShowsPut(p, p', m, EagerDo(m, a), t, v);
  }

  lemma SpawnIs(p: Prog, a: Act)
    requires Allowed(p, a) && a.Spawn? && Do(p, a).Some?
    ensures Formed(p.k) && a.e in p.k.dirs && a.e < NENV && p.k.freeEnvs != [] && p.k.freeEnvs[0] < NENV
            && a.c == p.k.freeEnvs[0]
    ensures var (k', r) := SysExofork(p.k, a.e); r.Ret? && r.code >= 0 && Do(p, a) == Some(Prog(k', p.b))
  {}

  lemma SpawnAllowed(p: Prog, e: nat, c: nat)
    requires Allowed(p, Spawn(e, c))
    ensures Formed(p.k) && e in p.k.dirs && e < NENV && p.k.freeEnvs != [] && p.k.freeEnvs[0] < NENV
            && c == p.k.freeEnvs[0]
  {}

  // Every entry reads what it read, and no environment went.
  ghost predicate AllSame(k: Kern, k': Kern) {
    && k.dirs.Keys <= k'.dirs.Keys
    && forall d: nat, u: nat {:trigger PteOf(k', d, u)} ::
         && PteOf(k', d, u) == PteOf(k, d, u)
         && (PteOf(k, d, u).Some? ==> PageWords(k'.phys, PteOf(k, d, u).value.frame) == Contents(k, d, u))
  }

  lemma SameAgain(k: Kern, k': Kern, b: Busy)
    requires AllSame(k, k') && Private(k, b) && AllUser(k) && FaultsOk(k, b) && GapsOk(k, b)
    ensures Private(k', b) && AllUser(k') && FaultsOk(k', b) && GapsOk(k', b)
  {
    hide Pending, Mate;
    TakePrivate(k, k', b, b);
    forall e: nat, u: nat
      ensures PteOf(k', e, u).Some? ==> User(PteOf(k', e, u).value)
    {
      assert PteOf(k', e, u) == PteOf(k, e, u);
    }
    forall d | d in b.faults
      ensures FaultOk(k', b, d)
    {
      assert FaultOk(k, b, d) && PteOf(k', d, b.faults[d].v) == PteOf(k, d, b.faults[d].v);
    }
    forall d | PteOf(k', d, PFTEMP_PAGE).Some?
      ensures d in b.faults
    {
      assert PteOf(k', d, PFTEMP_PAGE) == PteOf(k, d, PFTEMP_PAGE);
    }
    forall d | d in b.gaps ensures GapOk(k', b, d) {
      assert GapOk(k, b, d) && PteOf(k', d, b.gaps[d].v) == PteOf(k, d, b.gaps[d].v);
      assert PteOf(k', b.gaps[d].c, b.gaps[d].v) == PteOf(k, b.gaps[d].c, b.gaps[d].v);
    }
  }

  lemma SpawnStep(p: Prog, m: Eager, a: Act)
    requires CowInv(p) && Shows(p, m) && Allowed(p, a) && a.Spawn? && Do(p, a).Some?
    ensures CowInv(Do(p, a).value) && Shows(Do(p, a).value, EagerDo(m, a))
  {
    hide KInv, SysExofork, Private, AllUser, FaultsOk, GapsOk, PageWords, Do, Allowed, Pending, Mate;
    SpawnIs(p, a);
    var k, e := p.k, a.e;
    var k' := SysExofork(k, e).0;
    var pins :| KInv(k, pins);
    ExoforkStep(k, pins, e);
    assert AllSame(k, k');
    SameAgain(k, k', p.b);
    forall d: nat, u: nat ensures See(EagerDo(m, a), d, u) == Shown(k', p.b, d, u) {
      assert See(m, d, u) == Shown(k, p.b, d, u) && PteOf(k', d, u) == PteOf(k, d, u);
    }
  }

  // ---------- exit

  // What is pending once e is gone.
  lemma ExitPending(k: Kern, b: Busy, e: nat)
    requires Private(k, b) && GapsOk(k, b)
    ensures var b' := Busy(b.gaps - {e}, b.faults - {e});
            && (forall d: nat, u: nat :: Pending(b', d, u) <==>
                 Pending(b, d, u) && !(e in b.gaps && b.gaps[e] == Gap(d, u, true)))
            && OpenOf(b') == OpenOf(b) - {e} && (e in OpenOf(b) <==> e in b.gaps && b.gaps[e].late)
            && (e in OpenOf(b) ==> OpenOf(b)[e] == (b.gaps[e].c, b.gaps[e].v))
            && (forall d: nat, y: nat, d': nat, y': nat :: d != e && Mate(b, d, y, d', y') ==> Mate(b', d, y, d', y'))
  {
    var b', b1 := Busy(b.gaps - {e}, b.faults - {e}), b.(gaps := b.gaps - {e});
    hide Mate;
    if e in b.gaps { ClosedPending(k, b, e); } else { assert b.gaps - {e} == b.gaps; }
    forall d: nat, u: nat ensures Pending(b', d, u) == Pending(b1, d, u) {}
    forall d: nat, y: nat, d': nat, y': nat | d != e && Mate(b, d, y, d', y')
      ensures Mate(b', d, y, d', y')
    {
      ExitMates(b, e, d, y, d', y');
    }
  }

  lemma ExitMates(b: Busy, e: nat, d: nat, y: nat, d': nat, y': nat)
    requires d != e && Mate(b, d, y, d', y')
    ensures Mate(Busy(b.gaps - {e}, b.faults - {e}), d, y, d', y')
  {}

  // e is gone, and everybody else maps and reads what they did.
  ghost predicate Gone(k: Kern, k': Kern, e: nat) {
    && k'.dirs == k.dirs - {e}
    && forall d: nat, u: nat {:trigger PteOf(k', d, u)} ::
         && PteOf(k', d, u) == (if d == e then None else PteOf(k, d, u))
         && (d != e && PteOf(k, d, u).Some? ==> PageWords(k'.phys, PteOf(k, d, u).value.frame) == Contents(k, d, u))
  }

  lemma ExitGoesOn(k: Kern, k': Kern, b: Busy, b': Busy, e: nat)
    requires Gone(k, k', e) && Private(k, b) && AllUser(k) && FaultsOk(k, b) && GapsOk(k, b)
    requires b' == Busy(b.gaps - {e}, b.faults - {e}) && NotAwaited(b, e)
    requires forall d: nat, u: nat :: Pending(b', d, u) ==> Pending(b, d, u)
    requires forall d: nat, y: nat, d': nat, y': nat :: d != e && Mate(b, d, y, d', y') ==> Mate(b', d, y, d', y')
    ensures Private(k', b') && AllUser(k') && FaultsOk(k', b') && GapsOk(k', b')
  {
    hide Pending, Mate;
    TakePrivate(k, k', b, b');
    forall d: nat, u: nat
      ensures PteOf(k', d, u).Some? ==> User(PteOf(k', d, u).value)
    {
      assert PteOf(k', d, u).Some? ==> PteOf(k', d, u) == PteOf(k, d, u);
    }
    forall d | d in b'.faults ensures FaultOk(k', b', d) {
      assert FaultOk(k, b, d) && PteOf(k', d, b.faults[d].v) == PteOf(k, d, b.faults[d].v)
             && PteOf(k', d, PFTEMP_PAGE) == PteOf(k, d, PFTEMP_PAGE);
    }
    forall d | PteOf(k', d, PFTEMP_PAGE).Some?
      ensures d in b'.faults
    {
      assert PteOf(k', d, PFTEMP_PAGE) == PteOf(k, d, PFTEMP_PAGE);
    }
    forall d | d in b'.gaps ensures GapOk(k', b', d) {
      assert GapOk(k, b, d) && PteOf(k', d, b.gaps[d].v) == PteOf(k, d, b.gaps[d].v);
      assert b.gaps[d].late ==> PteOf(k', b.gaps[d].c, b.gaps[d].v) == PteOf(k, b.gaps[d].c, b.gaps[d].v);
    }
  }

  lemma ExitShows(p: Prog, p': Prog, m: Eager, e: nat)
    requires Shows(p, m) && Gone(p.k, p'.k, e) && GapsOk(p.k, p.b) && NotAwaited(p.b, e)
    requires forall d: nat, u: nat :: Pending(p'.b, d, u) <==>
               Pending(p.b, d, u) && !(e in p.b.gaps && p.b.gaps[e] == Gap(d, u, true))
    requires OpenOf(p'.b) == OpenOf(p.b) - {e} && (e in OpenOf(p.b) <==> e in p.b.gaps && p.b.gaps[e].late)
    requires e in OpenOf(p.b) ==> OpenOf(p.b)[e] == (p.b.gaps[e].c, p.b.gaps[e].v)
    ensures Shows(p', EagerDo(m, Exit(e)))
  {
    hide Pending, OpenOf;
    var k, k', m1, m' := p.k, p'.k, Close(m, e), EagerDo(m, Exit(e));
    if e in m.open {
      assert GapOk(k, p.b, e);
      ShareWord();
      assert See(m, e, p.b.gaps[e].v) == Shown(k, p.b, e, p.b.gaps[e].v);
    }
    forall d: nat, u: nat ensures See(m', d, u) == Shown(k', p'.b, d, u) {
      assert See(m, d, u) == Shown(k, p.b, d, u);
      assert PteOf(k', d, u) == if d == e then None else PteOf(k, d, u);
      assert See(m', d, u) == if d == e then None else See(m1, d, u);
    }
  }

  lemma ExitGone(k: Kern, e: nat)
    requires Sound(k) && e in k.dirs && Formed(k) && e < NENV
    ensures Sound(FreeEnv(k, e)) && Gone(k, FreeEnv(k, e), e)
  {
    hide KInv, FreeEnv;
    var pins :| KInv(k, pins);
    FreeEnvStep(k, pins, e);
  }

  lemma ExitStep(p: Prog, m: Eager, a: Act)
    requires CowInv(p) && Shows(p, m) && Allowed(p, a) && a.Exit? && Do(p, a).Some?
    ensures CowInv(Do(p, a).value) && Shows(Do(p, a).value, EagerDo(m, a))
  {
    hide FreeEnv, Private, FaultsOk, GapsOk, AllUser, Pending, Mate, NotAwaited, EagerDo, Shows, Gone, Sound;
    var k, b, e := p.k, p.b, a.e;
    var p' := Prog(FreeEnv(k, e), Busy(b.gaps - {e}, b.faults - {e}));
    ExitGone(k, e);
    ExitPending(k, b, e);
    ExitGoesOn(k, p'.k, b, p'.b, e);
    ExitShows(p, p', m, e);
  }

  // ---------- stores

  // The entries that name the page of a writable entry of e, if no handler is at it.
  lemma FrameOf(k: Kern, b: Busy, e: nat, v: nat, d: nat, u: nat)
    requires Private(k, b) && PteOf(k, e, v).Some? && MapsW(k, e, v, PteOf(k, e, v).value.frame) && AnyPage(v)
             && !AtFault(b, e, v)
    requires Maps(k, d, u, PteOf(k, e, v).value.frame)
    ensures (d == e && u == v) || (Pending(b, d, u) && u == v)
  {
    assert Alone(k, b, e, v);
  }

  // A store changes one page.
  ghost predicate Stored(k: Kern, k': Kern, f: nat) {
    && k' == k.(phys := k'.phys)
    && (forall d: nat, u: nat {:trigger PteOf(k', d, u)} :: PteOf(k', d, u) == PteOf(k, d, u))
    && (forall q: nat {:trigger PageWords(k'.phys, q)} :: q != f ==> PageWords(k'.phys, q) == PageWords(k.phys, q))
  }

  lemma StoreGoesOn(k: Kern, k': Kern, b: Busy, e: nat, v: nat)
    requires Private(k, b) && AllUser(k) && FaultsOk(k, b) && GapsOk(k, b) && AnyPage(v) && !AtFault(b, e, v)
    requires PteOf(k, e, v).Some? && Writable(PteOf(k, e, v).value) && Stored(k, k', PteOf(k, e, v).value.frame)
    ensures Private(k', b) && AllUser(k') && FaultsOk(k', b) && GapsOk(k', b)
  {
    hide Pending, Mate;
    var f := PteOf(k, e, v).value.frame;
    TakePrivate(k, k', b, b);
    forall d: nat, u: nat
      ensures PteOf(k', d, u).Some? ==> User(PteOf(k', d, u).value)
    {
      assert PteOf(k', d, u) == PteOf(k, d, u);
    }
    forall d | d in b.faults ensures FaultOk(k', b, d) {
      assert FaultOk(k, b, d) && PteOf(k', d, b.faults[d].v) == PteOf(k, d, b.faults[d].v);
      if Maps(k, d, b.faults[d].v, f) { FrameOf(k, b, e, v, d, b.faults[d].v); }
      if Maps(k, d, PFTEMP_PAGE, f) { FrameOf(k, b, e, v, d, PFTEMP_PAGE); }
    }
    forall d | PteOf(k', d, PFTEMP_PAGE).Some?
      ensures d in b.faults
    {
      assert PteOf(k', d, PFTEMP_PAGE) == PteOf(k, d, PFTEMP_PAGE);
    }
    forall d | d in b.gaps ensures GapOk(k', b, d) {
      assert GapOk(k, b, d) && PteOf(k', d, b.gaps[d].v) == PteOf(k, d, b.gaps[d].v);
      assert PteOf(k', b.gaps[d].c, b.gaps[d].v) == PteOf(k, b.gaps[d].c, b.gaps[d].v);
    }
  }

  lemma WriteShows(p: Prog, p': Prog, m: Eager, a: Act)
    requires Shows(p, m) && a.Write? && Private(p.k, p.b) && AnyPage(a.v) && !AtFault(p.b, a.e, a.v)
             && !Pending(p.b, a.e, a.v) && a.i < 1024
    requires PteOf(p.k, a.e, a.v).Some? && Writable(PteOf(p.k, a.e, a.v).value)
             && Stored(p.k, p'.k, PteOf(p.k, a.e, a.v).value.frame) && p'.b == p.b
    requires PageWords(p'.k.phys, PteOf(p.k, a.e, a.v).value.frame) == Contents(p.k, a.e, a.v)[a.i := a.w]
    ensures Shows(p', EagerDo(m, a))
  {
    hide Pending;
    var k, k', e, v, m' := p.k, p'.k, a.e, a.v, EagerDo(m, a);
    assert See(m, e, v) == Shown(k, p.b, e, v);
    forall d: nat, u: nat ensures See(m', d, u) == Shown(k', p.b, d, u) {
      assert See(m, d, u) == Shown(k, p.b, d, u) && PteOf(k', d, u) == PteOf(k, d, u);
      if Maps(k, d, u, PteOf(k, e, v).value.frame) { FrameOf(k, p.b, e, v, d, u); }
    }
  }

  lemma WriteStep(p: Prog, m: Eager, a: Act)
    requires CowInv(p) && Shows(p, m) && Allowed(p, a) && a.Write? && Do(p, a).Some?
    ensures CowInv(Do(p, a).value) && Shows(Do(p, a).value, EagerDo(m, a))
  {
    var k, b, e, v := p.k, p.b, a.e, a.v;
    var pins :| KInv(k, pins);
    var p' := Do(p, a).value;
    assert User(PteOf(k, e, v).value);
    hide KInv, UserStore, Pending;
    UserStoreStep(k, pins, e, v, a.i, a.w);
    LinksToEntries(k, p'.k);
    assert Stored(k, p'.k, PteOf(k, e, v).value.frame);
    hide Do, Allowed, Private, AllUser, FaultsOk, GapsOk, Mate, EagerDo, Shows;
    StoreGoesOn(k, p'.k, b, e, v);
    WriteShows(p, p', m, a);
  }

  // ---------- the fault handler

  // The handler of e goes to another stage, and nobody's relations change but its own.
  lemma StagePending(b: Busy, b': Busy)
    requires b'.gaps == b.gaps
    ensures (forall d: nat, u: nat :: Pending(b', d, u) == Pending(b, d, u)) && OpenOf(b') == OpenOf(b)
  {
    forall d: nat, u: nat ensures Pending(b', d, u) == Pending(b, d, u) {}
  }

  lemma TempWord(f: Frame)
    ensures Word(f, RW | PTE_P) == Word(f, RW) && User(Word(f, RW)) && Writable(Word(f, RW))
  {}

  // What the first call leaves.
  ghost predicate TempGiven(k: Kern, k': Kern, e: nat, f: Frame) {
    && Sound(k') && k' == k.(phys := k'.phys) && OthersSame(k, k', e, PFTEMP_PAGE)
    && PteOf(k', e, PFTEMP_PAGE) == Some(Word(f, RW)) && NotMapped(k, f)
  }

  lemma AllocCall(p: Prog, a: Act) returns (f: Frame)
    requires Sound(p.k) && Allowed(p, a) && a.FaultAlloc? && Do(p, a).Some?
    ensures TempGiven(p.k, Do(p, a).value.k, a.e, f)
            && Do(p, a).value.b == p.b.(faults := p.b.faults[a.e := Fault(a.v, Copying(0))])
    ensures PteOf(p.k, a.e, a.v).Some? && Cow(PteOf(p.k, a.e, a.v).value) && !Writable(PteOf(p.k, a.e, a.v).value)
    ensures AnyPage(a.v) && !Pending(p.b, a.e, a.v) && a.e !in p.b.faults && a.e in p.k.dirs
  {
    var pins :| KInv(p.k, pins);
    KernFormed(p.k, pins, a.e);
    hide KInv, SysPageAlloc, Envid2Env, Pending;
    FreshPageAt(p.k, pins, a.e, 0, a.e, PFTEMP_PAGE, RW);
    f := p.k.phys.free[0];
    TempWord(f);
  }

  lemma FaultAllocStep(p: Prog, m: Eager, a: Act)
    requires CowInv(p) && Shows(p, m) && Allowed(p, a) && a.FaultAlloc? && Do(p, a).Some?
    ensures CowInv(Do(p, a).value) && Shows(Do(p, a).value, EagerDo(m, a))
  {
    hide Do, Allowed, Private, AllUser, GapsOk, FaultsOk, Pending, Mate, OpenOf, OthersSame, NotMapped, Sound, Shows;
    var k, b, e, v := p.k, p.b, a.e, a.v;
    var p' := Do(p, a).value;
    var f := AllocCall(p, a);
    TempWord(f);
    StagePending(b, p'.b);
    TakenMates(b, e, v);
    PutFresh(k, p'.k, b, p'.b, e, PFTEMP_PAGE, Word(f, RW));
    AllocGoesOn(k, p'.k, b, p'.b, e, v, f);
    TempShows(p, p', m, e);
  }

  lemma TakenMates(b: Busy, e: nat, v: nat)
    requires e !in b.faults
    ensures MatesKept(b, b.(faults := b.faults[e := Fault(v, Copying(0))]), e, PFTEMP_PAGE)
  {}

  // What is at PFTEMP is not shown.
  lemma TempShows(p: Prog, p': Prog, m: Eager, e: nat)
    requires Shows(p, m) && OthersSame(p.k, p'.k, e, PFTEMP_PAGE) && p'.k.dirs == p.k.dirs
             && OpenOf(p'.b) == OpenOf(p.b)
    requires forall d: nat, u: nat :: Pending(p'.b, d, u) == Pending(p.b, d, u)
    ensures Shows(p', m)
  {
    hide Pending, OpenOf;
    assert See(m, e, PFTEMP_PAGE) == Shown(p.k, p.b, e, PFTEMP_PAGE);
    ShowsPut(p, p', m, m, e, PFTEMP_PAGE);
  }

  lemma AllocGoesOn(k: Kern, k': Kern, b: Busy, b': Busy, e: nat, v: nat, f: Frame)
    requires FaultsOk(k, b) && GapsOk(k, b) && TempGiven(k, k', e, f)
             && b' == b.(faults := b.faults[e := Fault(v, Copying(0))])
    requires AnyPage(v) && !Pending(b, e, v) && e !in b.faults && e in k.dirs
    requires PteOf(k, e, v).Some? && Cow(PteOf(k, e, v).value) && !Writable(PteOf(k, e, v).value)
    requires forall d: nat, u: nat :: Pending(b', d, u) == Pending(b, d, u)
    ensures FaultsOk(k', b') && GapsOk(k', b')
  {
    hide Pending, Sound;
    forall d | d in b'.faults ensures FaultOk(k', b', d) {
      if d == e {
        assert PteOf(k', e, v) == PteOf(k, e, v);
      } else {
        FaultFree(k, b, d);
        FaultKept(k, k', b, b', d, e, PFTEMP_PAGE);
      }
    }
    forall d | PteOf(k', d, PFTEMP_PAGE).Some?
      ensures d in b'.faults
    {
      assert d != e ==> PteOf(k', d, PFTEMP_PAGE) == PteOf(k, d, PFTEMP_PAGE);
    }
    forall d | d in b'.gaps ensures GapOk(k', b', d) {
      GapFree(k, b, d);
      GapKept(k, k', b, b', d, e, PFTEMP_PAGE);
    }
  }

  // Nothing but PFTEMP maps the page that a handler fills.
  lemma TempAlone(k: Kern, b: Busy, e: nat, d: nat, u: nat)
    requires Private(k, b) && GapsOk(k, b) && e in b.faults && FaultOk(k, b, e) && b.faults[e].stage != Mapped
    requires Maps(k, d, u, PteOf(k, e, PFTEMP_PAGE).value.frame)
    ensures d == e && u == PFTEMP_PAGE
  {
    TempWord(PteOf(k, e, PFTEMP_PAGE).value.frame);
    assert Alone(k, b, e, PFTEMP_PAGE);
    if e in b.gaps { GapFree(k, b, e); }
  }

  // One word further.
  ghost predicate OneMore(k: Kern, k': Kern, e: nat, v: nat, i: nat)
    requires PteOf(k, e, v).Some? && PteOf(k, e, PFTEMP_PAGE).Some? && i < 1024
  {
    var f, g := PteOf(k, e, PFTEMP_PAGE).value.frame, PteOf(k, e, v).value.frame;
    && Stored(k, k', f) && PageWords(k'.phys, g) == PageWords(k.phys, g)
    && PageWords(k'.phys, f)[..i + 1] == PageWords(k.phys, g)[..i + 1]
  }

  lemma WordCopied(k: Kern, b: Busy, e: nat)
    requires Sound(k) && e in b.faults && FaultOk(k, b, e) && b.faults[e].stage.Copying?
             && b.faults[e].stage.done < 1024
    ensures var k' := CopyWord(k, e, PFTEMP_PAGE, b.faults[e].v, b.faults[e].stage.done);
            Sound(k') && OneMore(k, k', e, b.faults[e].v, b.faults[e].stage.done)
  {
    var pins :| KInv(k, pins);
    var v, i := b.faults[e].v, b.faults[e].stage.done;
    var f, g := PteOf(k, e, PFTEMP_PAGE).value.frame, PteOf(k, e, v).value.frame;
    TempWord(f);
    hide KInv, UserStore, Pending;
    var k' := CopyWord(k, e, PFTEMP_PAGE, v, i);
    assert k' == UserStore(k, e, PFTEMP_PAGE, i, Contents(k, e, v)[i]);
    UserStoreStep(k, pins, e, PFTEMP_PAGE, i, Contents(k, e, v)[i]);
    LinksToEntries(k, k');
    assert PageWords(k'.phys, f) == PageWords(k.phys, f)[i := PageWords(k.phys, g)[i]];
  }

  lemma CopyCall(p: Prog, a: Act)
    requires Sound(p.k) && AllUser(p.k) && FaultsOk(p.k, p.b) && Allowed(p, a) && a.FaultCopy?
    ensures a.e in p.b.faults && FaultOk(p.k, p.b, a.e) && PteOf(p.k, a.e, PFTEMP_PAGE).Some?
    ensures p.b.faults[a.e].stage.Copying? && p.b.faults[a.e].stage.done < 1024
    ensures var i := p.b.faults[a.e].stage.done;
            Do(p, a) == Some(Prog(CopyWord(p.k, a.e, PFTEMP_PAGE, p.b.faults[a.e].v, i),
              SetStage(p.b, a.e, Copying(i + 1))))
  {
    hide Sound, AllUser, CopyWord, Pending;
    assert FaultOk(p.k, p.b, a.e);
  }

  lemma FaultCopyStep(p: Prog, m: Eager, a: Act)
    requires CowInv(p) && Shows(p, m) && Allowed(p, a) && a.FaultCopy? && Do(p, a).Some?
    ensures CowInv(Do(p, a).value) && Shows(Do(p, a).value, EagerDo(m, a))
  {
    hide Do, Allowed, Private, AllUser, GapsOk, FaultsOk, FaultOk, Pending, OpenOf, Sound;
    hide CopyWord;
    CopyCall(p, a);
    WordCopied(p.k, p.b, a.e);
    var k, b, e := p.k, p.b, a.e;
    var p', f := Do(p, a).value, PteOf(k, e, PFTEMP_PAGE).value.frame;
    StagePending(b, p'.b);
    CopyGoesOn(k, p'.k, b, p'.b, e);
    forall d: nat, u: nat ensures See(m, d, u) == Shown(p'.k, p'.b, d, u) {
      assert See(m, d, u) == Shown(k, b, d, u) && PteOf(p'.k, d, u) == PteOf(k, d, u);
      if Maps(k, d, u, f) { TempAlone(k, b, e, d, u); }
    }
  }

  lemma CopyGoesOn(k: Kern, k': Kern, b: Busy, b': Busy, e: nat)
    requires Private(k, b) && AllUser(k) && FaultsOk(k, b) && GapsOk(k, b) && e in b.faults && FaultOk(k, b, e)
    requires b.faults[e].stage.Copying? && b.faults[e].stage.done < 1024
             && b' == SetStage(b, e, Copying(b.faults[e].stage.done + 1))
    requires OneMore(k, k', e, b.faults[e].v, b.faults[e].stage.done)
    requires forall d: nat, u: nat :: Pending(b', d, u) == Pending(b, d, u)
    ensures Private(k', b') && AllUser(k') && FaultsOk(k', b') && GapsOk(k', b')
  {
    hide Pending;
    var f := PteOf(k, e, PFTEMP_PAGE).value.frame;
    TakePrivate(k, k', b, b');
    hide Mate, Private, Alone;
    forall d: nat, u: nat
      ensures PteOf(k', d, u).Some? ==> User(PteOf(k', d, u).value)
    {
      assert PteOf(k', d, u) == PteOf(k, d, u);
    }
    forall d | d in b'.faults ensures FaultOk(k', b', d) {
      assert FaultOk(k, b, e) && FaultOk(k, b, d) && PteOf(k', d, b.faults[d].v) == PteOf(k, d, b.faults[d].v)
             && PteOf(k', d, PFTEMP_PAGE) == PteOf(k, d, PFTEMP_PAGE);
      if Maps(k, d, b.faults[d].v, f) { TempAlone(k, b, e, d, b.faults[d].v); }
      if Maps(k, d, PFTEMP_PAGE, f) { TempAlone(k, b, e, d, PFTEMP_PAGE); }
    }
    forall d | PteOf(k', d, PFTEMP_PAGE).Some?
      ensures d in b'.faults
    {
      assert PteOf(k', d, PFTEMP_PAGE) == PteOf(k, d, PFTEMP_PAGE);
    }
    forall d | d in b'.gaps ensures GapOk(k', b', d) {
      assert GapOk(k, b, d) && PteOf(k', d, b.gaps[d].v) == PteOf(k, d, b.gaps[d].v);
      assert PteOf(k', b.gaps[d].c, b.gaps[d].v) == PteOf(k, b.gaps[d].c, b.gaps[d].v);
    }
  }

  // The second call maps the filled page at v too.
  ghost predicate TwiceMapped(k: Kern, k': Kern, e: nat, v: nat, f: Frame) {
    && Sound(k') && k' == k.(phys := k'.phys) && OthersSame(k, k', e, v)
    && PteOf(k, e, PFTEMP_PAGE) == Some(Word(f, RW)) && PteOf(k', e, v) == Some(Word(f, RW))
    && PageWords(k'.phys, f) == PageWords(k.phys, f)
  }

  lemma TempShareable(k: Kern, b: Busy, e: nat)
    requires FaultsOk(k, b) && e in b.faults && BelowLimit(k.phys)
    ensures FaultOk(k, b, e) && CanShare(k, e, PFTEMP_PAGE)
  {}

  lemma MapCall(p: Prog, a: Act)
    requires Sound(p.k) && FaultsOk(p.k, p.b) && Allowed(p, a) && a.FaultMap? && Do(p, a).Some?
    ensures a.e in p.b.faults && FaultOk(p.k, p.b, a.e) && p.b.faults[a.e].stage == Copying(1024)
            && PteOf(p.k, a.e, PFTEMP_PAGE).Some?
    ensures TwiceMapped(p.k, Do(p, a).value.k, a.e, p.b.faults[a.e].v, PteOf(p.k, a.e, PFTEMP_PAGE).value.frame)
    ensures Do(p, a).value.b == SetStage(p.b, a.e, Mapped)
  {
    hide KInv, SysPageMap, Pending, CanShare, FaultsOk, OthersSame;
    var k, e, v := p.k, a.e, p.b.faults[a.e].v;
    var pins :| KInv(k, pins);
    TempShareable(k, p.b, e);
    TempWord(PteOf(k, e, PFTEMP_PAGE).value.frame);
    MoveStep(k, pins, e, PFTEMP_PAGE, v, RW);
  }

  lemma FaultMapStep(p: Prog, m: Eager, a: Act)
    requires CowInv(p) && Shows(p, m) && Allowed(p, a) && a.FaultMap? && Do(p, a).Some?
    ensures CowInv(Do(p, a).value) && Shows(Do(p, a).value, EagerDo(m, a))
  {
    hide Do, Allowed, Private, AllUser, GapsOk, FaultsOk, Pending, Mate, OpenOf, Sound, SysPageMap;
    MapCall(p, a);
    var k, b, e, v := p.k, p.b, a.e, p.b.faults[a.e].v;
    var p', f := Do(p, a).value, PteOf(k, e, PFTEMP_PAGE).value.frame;
    TempWord(f);
    var g := PteOf(k, e, v).value.frame;
    assert PageWords(k.phys, f) == PageWords(k.phys, f)[..1024] == PageWords(k.phys, g)[..1024] == PageWords(k.phys, g);
    StagePending(b, p'.b);
    MappedMates(b, e);
    forall d: nat, y: nat | Maps(k, d, y, f) ensures d == e && y == PFTEMP_PAGE { TempAlone(k, b, e, d, y); }
    PutPrivate(k, p'.k, b, p'.b, e, v, Word(f, RW));
    PutUser(k, p'.k, e, v);
    MapGoesOn(k, p'.k, b, p'.b, e);
    assert See(m, e, v) == Shown(k, b, e, v);
    ShowsPut(p, p', m, m, e, v);
  }

  lemma MappedMates(b: Busy, e: nat)
    requires e in b.faults && b.faults[e].stage == Copying(1024)
    ensures var b', v := SetStage(b, e, Mapped), b.faults[e].v;
            Mate(b', e, v, e, PFTEMP_PAGE) && Mate(b', e, PFTEMP_PAGE, e, v) && MatesKept(b, b', e, v)
  {}

  lemma MapGoesOn(k: Kern, k': Kern, b: Busy, b': Busy, e: nat)
    requires FaultsOk(k, b) && GapsOk(k, b) && e in b.faults && b.faults[e].stage == Copying(1024)
             && b' == SetStage(b, e, Mapped) && k'.dirs == k.dirs
    requires PteOf(k, e, PFTEMP_PAGE).Some?
             && TwiceMapped(k, k', e, b.faults[e].v, PteOf(k, e, PFTEMP_PAGE).value.frame)
    requires forall d: nat, u: nat :: Pending(b', d, u) == Pending(b, d, u)
    ensures FaultsOk(k', b') && GapsOk(k', b')
  {
    hide Pending, Sound;
    var v, f := b.faults[e].v, PteOf(k, e, PFTEMP_PAGE).value.frame;
    TempWord(f);
    assert FaultOk(k, b, e);
    forall d | d in b'.faults ensures FaultOk(k', b', d) {
      if d == e {
        assert PteOf(k', e, PFTEMP_PAGE) == PteOf(k, e, PFTEMP_PAGE);
      } else {
        FaultFree(k, b, d);
        FaultKept(k, k', b, b', d, e, v);
      }
    }
    forall d | PteOf(k', d, PFTEMP_PAGE).Some?
      ensures d in b'.faults
    {
      assert PteOf(k', d, PFTEMP_PAGE) == PteOf(k, d, PFTEMP_PAGE);
    }
    forall d | d in b'.gaps ensures GapOk(k', b', d) {
      GapFree(k, b, d);
      if b.gaps[d].late { GapPending(b, d); }
      if d == e && b.gaps[d].v == v { assert GapOk(k, b, d); } else { GapKept(k, k', b, b', d, e, v); }
    }
  }

  ghost predicate TempTaken(k: Kern, k': Kern, e: nat) {
    Sound(k') && k' == k.(phys := k'.phys) && OthersSame(k, k', e, PFTEMP_PAGE) && PteOf(k', e, PFTEMP_PAGE) == None
  }

  lemma UnmapCall(p: Prog, a: Act)
    requires Sound(p.k) && Allowed(p, a) && a.FaultUnmap? && Do(p, a).Some?
    ensures a.e in p.b.faults && TempTaken(p.k, Do(p, a).value.k, a.e)
            && Do(p, a).value.b == p.b.(faults := p.b.faults - {a.e})
    ensures p.b.faults[a.e].stage == Mapped
  {
    var pins :| KInv(p.k, pins);
    KernFormed(p.k, pins, a.e);
    hide KInv, SysPageUnmap, Pending;
    UnmapStep(p.k, pins, a.e, 0, PFTEMP_PAGE);
    hide Envid2Env;
  }

  lemma FaultUnmapStep(p: Prog, m: Eager, a: Act)
    requires CowInv(p) && Shows(p, m) && Allowed(p, a) && a.FaultUnmap? && Do(p, a).Some?
    ensures CowInv(Do(p, a).value) && Shows(Do(p, a).value, EagerDo(m, a))
  {
    hide Do, Allowed, Private, AllUser, GapsOk, FaultsOk, Pending, Mate, OpenOf, Sound, SysPageUnmap;
    UnmapCall(p, a);
    var k, b, e := p.k, p.b, a.e;
    var p' := Do(p, a).value;
    StagePending(b, p'.b);
    forall d: nat, u: nat | PteOf(p'.k, d, u).Some?
      ensures PteOf(p'.k, d, u) == PteOf(k, d, u)
    {
      assert d != e || u != PFTEMP_PAGE;
    }
    forall d: nat, y: nat, d': nat, y': nat | Mate(b, d, y, d', y') && PteOf(p'.k, d, y).Some?
      && PteOf(p'.k, d', y').Some?
      ensures Mate(p'.b, d, y, d', y') { UnmapMates(b, e, d, y, d', y'); }
    TakePrivate(k, p'.k, b, p'.b);
    PutUser(k, p'.k, e, PFTEMP_PAGE);
    UnmapGoesOn(k, p'.k, b, p'.b, e);
    TempShows(p, p', m, e);
  }

  lemma UnmapMates(b: Busy, e: nat, d: nat, y: nat, d': nat, y': nat)
    requires Mate(b, d, y, d', y') && !(d == e && y == PFTEMP_PAGE) && !(d' == e && y' == PFTEMP_PAGE)
    ensures Mate(b.(faults := b.faults - {e}), d, y, d', y')
  {}

  lemma UnmapGoesOn(k: Kern, k': Kern, b: Busy, b': Busy, e: nat)
    requires FaultsOk(k, b) && GapsOk(k, b) && TempTaken(k, k', e) && b' == b.(faults := b.faults - {e})
    requires forall d: nat, u: nat :: Pending(b', d, u) == Pending(b, d, u)
    ensures FaultsOk(k', b') && GapsOk(k', b')
  {
    hide Pending, Sound;
    forall d | d in b'.faults ensures FaultOk(k', b', d) {
      FaultFree(k, b, d);
      FaultKept(k, k', b, b', d, e, PFTEMP_PAGE);
    }
    forall d | PteOf(k', d, PFTEMP_PAGE).Some?
      ensures d in b'.faults
    {
      assert PteOf(k', d, PFTEMP_PAGE) == PteOf(k, d, PFTEMP_PAGE);
    }
    forall d | d in b'.gaps ensures GapOk(k', b', d) {
      GapFree(k, b, d);
      GapKept(k, k', b, b', d, e, PFTEMP_PAGE);
    }
  }

  // ---------- whole runs

  /** Each step keeps the sharing invariant and is matched by the eager step. */
  lemma ActStep(p: Prog, m: Eager, a: Act)
    requires CowInv(p) && Shows(p, m) && Allowed(p, a) && Do(p, a).Some?
    ensures CowInv(Do(p, a).value) && Shows(Do(p, a).value, EagerDo(m, a))
  {
    hide CowInv, Shows, Do, EagerDo, Allowed;
    match a
    case Spawn(_, _) => SpawnStep(p, m, a);
    case ShareCow(_, _, _, late) => if late { ShareLateStep(p, m, a); } else { ShareEarlyStep(p, m, a); }
    case MarkCow(_) => MarkCowStep(p, m, a);
    case ShareRo(_, _, _) => ShareRoStep(p, m, a);
    case Zero(_, _, _, _) => ZeroStep(p, m, a);
    case Drop(_, _, _) => DropStep(p, m, a);
    case Write(_, _, _, _) => WriteStep(p, m, a);
    case FaultAlloc(_, _) => FaultAllocStep(p, m, a);
    case FaultCopy(_) => FaultCopyStep(p, m, a);
    case FaultMap(_) => FaultMapStep(p, m, a);
    case FaultUnmap(_) => FaultUnmapStep(p, m, a);
    case Exit(_) => ExitStep(p, m, a);
  }

  // Every step of the run is allowed where it happens, and none fails.
  ghost predicate RunsTo(p: Prog, acts: seq<Act>, p': Prog)
    decreases |acts|
  {
    if acts == [] then p' == p
    else Allowed(p, acts[0]) && Do(p, acts[0]).Some? && RunsTo(Do(p, acts[0]).value, acts[1..], p')
  }

  function EagerRun(m: Eager, acts: seq<Act>): Eager
    decreases |acts|
  {
    if acts == [] then m else EagerRun(EagerDo(m, acts[0]), acts[1..])
  }

  lemma {:induction false} RunShows(p: Prog, m: Eager, acts: seq<Act>, p': Prog)
    requires CowInv(p) && Shows(p, m) && RunsTo(p, acts, p')
    ensures CowInv(p') && Shows(p', EagerRun(m, acts))
    decreases |acts|
  {
    hide CowInv, Shows, Do, EagerDo, Allowed;
    if acts != [] {
      ActStep(p, m, acts[0]);
      RunShows(Do(p, acts[0]).value, EagerDo(m, acts[0]), acts[1..], p');
    }
  }

  /** The eager machine that a state looks like to its environments. */
  ghost function EagerOf(p: Prog): Eager {
    Eager(p.k.dirs.Keys,
          map e: nat, v: nat | e in p.k.dirs && v < USER_PAGES && Shown(p.k, p.b, e, v).Some? ::
            (e, v) := Shown(p.k, p.b, e, v).value,
          OpenOf(p.b))
  }

  lemma ShowsIsEagerOf(p: Prog, m: Eager)
    ensures Shows(p, m) <==> m == EagerOf(p)
  {
    hide Pending, OpenOf;
    var n := EagerOf(p);
    forall e: nat, v: nat ensures See(n, e, v) == Shown(p.k, p.b, e, v) {
      if Shown(p.k, p.b, e, v).Some? { assert (e, v) in n.pages; }
    }
    if Shows(p, m) {
      forall s: (nat, nat) ensures s in m.pages <==> s in n.pages
        ensures s in m.pages ==> m.pages[s] == n.pages[s]
      {
        assert See(m, s.0, s.1) == Shown(p.k, p.b, s.0, s.1) == See(n, s.0, s.1);
      }
      assert m.pages == n.pages;
    }
  }

  /** The refinement theorem: whatever the environments do, and however their steps, the halves
      of their duppages and the steps of their fault handlers interleave, what each of them can
      see of its memory is what the eager machine shows that starts from the same view and takes
      the same steps. */
  lemma CowRefinesEager(p: Prog, acts: seq<Act>, p': Prog)
    requires CowInv(p) && RunsTo(p, acts, p')
    ensures CowInv(p') && EagerOf(p') == EagerRun(EagerOf(p), acts)
  {
    hide CowInv, Shows, Do, EagerDo, Allowed, EagerOf, EagerRun;
    ShowsIsEagerOf(p, EagerOf(p));
    RunShows(p, EagerOf(p), acts, p');
    ShowsIsEagerOf(p', EagerRun(EagerOf(p), acts));
  }

  // Nobody maps a page that another entry maps writable.
  ghost predicate Unshared(k: Kern) {
    forall d: nat, y: nat, d': nat, y': nat {:trigger PteOf(k, d, y), PteOf(k, d', y')} ::
      PteOf(k, d', y').Some? && MapsW(k, d, y, PteOf(k, d', y').value.frame) ==> d' == d && y' == y
  }

  const IDLE: Busy := Busy(map[], map[])

  /** With no duppage or handler under way, runs can start exactly from a kernel in its invariant
      that maps nothing at PFTEMP, only pages the user may use, and none twice that is mapped
      writable; the eager machine then starts from what the page tables show. */
  lemma CowStart(k: Kern)
    ensures CowInv(Prog(k, IDLE)) <==>
              Sound(k) && AllUser(k) && Unshared(k) && forall e {:trigger PteOf(k, e, PFTEMP_PAGE)} ::
                PteOf(k, e, PFTEMP_PAGE) == None
    ensures CowInv(Prog(k, IDLE)) ==> forall e: nat, v: nat :: See(EagerOf(Prog(k, IDLE)), e, v) == ViewAt(k, e, v)
  {
    hide Sound, AllUser;
    if CowInv(Prog(k, IDLE)) {
      forall d: nat, y: nat, d': nat, y': nat | PteOf(k, d', y').Some? && MapsW(k, d, y, PteOf(k, d', y').value.frame)
        ensures d' == d && y' == y { assert Alone(k, IDLE, d, y); }
      ShowsIsEagerOf(Prog(k, IDLE), EagerOf(Prog(k, IDLE)));
      hide Sound, Private;
      forall e: nat, v: nat ensures See(EagerOf(Prog(k, IDLE)), e, v) == ViewAt(k, e, v) {
        assert See(EagerOf(Prog(k, IDLE)), e, v) == Shown(k, IDLE, e, v);
      }
    }
  }
}
