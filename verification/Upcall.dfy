/** Page-fault upcalls (page_fault_handler of kern/trap.c and lib/pfentry.S): a fault that strikes
    anywhere, also inside the upcall itself and to any depth, is invisible once handled. */
module Upcall {
  import opened Mmu

  const X_TOP := UXSTACKTOP
  const X_BASE := UXSTACKTOP - PGSIZE
  const WORD := 0x1_0000_0000

  // ---------- byte memory and the words in it

  type Octet = b: nat | b < 256

  type Mem = nat -> Octet

  function Byte(v: nat, i: nat): Octet {
    if i == 0 then v % 256 else if i == 1 then v / 256 % 256 else if i == 2 then v / 65536 % 256 else v / 16777216 % 256
  }

  function Store(m: Mem, a: nat, v: nat): Mem {
    (x: nat) => if a <= x < a + 4 then Byte(v, x - a) else m(x)
  }

  function Load(m: Mem, a: nat): (v: nat)
    ensures v < WORD
  {
    m(a) + 256 * m(a + 1) + 65536 * m(a + 2) + 16777216 * m(a + 3)
  }

  function StoreAll(m: Mem, a: nat, ws: seq<nat>): Mem
    decreases |ws|
  {
    if ws == [] then m else StoreAll(Store(m, a, ws[0]), a + 4, ws[1..])
  }

  predicate Same(m: Mem, m': Mem, lo: nat, hi: nat) {
    forall x: nat :: lo <= x < hi ==> m'(x) == m(x)
  }

  lemma LoadStored(m: Mem, a: nat, v: nat)
    requires v < WORD
    ensures Load(Store(m, a, v), a) == v
  {
    var m' := Store(m, a, v);
    assert forall i: nat :: i < 4 ==> m'(a + i) == Byte(v, i);
    assert m'(a) == m'(a + 0) == Byte(v, 0) && m'(a + 1) == Byte(v, 1) && m'(a + 2) == Byte(v, 2)
           && m'(a + 3) == Byte(v, 3);
    Digits(v);
  }

  lemma Digits(v: nat)
    requires v < WORD
    ensures v % 256 + 256 * (v / 256 % 256) + 65536 * (v / 65536 % 256) + 16777216 * (v / 16777216) == v
  {
    assert v / 65536 == v / 256 / 256 && v / 16777216 == v / 65536 / 256;
  }

  lemma LoadSame(m: Mem, m': Mem, lo: nat, hi: nat, a: nat)
    requires Same(m, m', lo, hi) && lo <= a && a + 4 <= hi
    ensures Load(m', a) == Load(m, a)
  {}

  lemma {:induction false} StoreAllOutside(m: Mem, a: nat, ws: seq<nat>, x: nat)
    requires x < a || x >= a + 4 * |ws|
    ensures StoreAll(m, a, ws)(x) == m(x)
    decreases |ws|
  {
    if ws != [] { StoreAllOutside(Store(m, a, ws[0]), a + 4, ws[1..], x); }
  }

  lemma {:induction false} LoadStoredAll(m: Mem, a: nat, ws: seq<nat>, i: nat)
    requires i < |ws| && forall k :: 0 <= k < |ws| ==> ws[k] < WORD
    ensures Load(StoreAll(m, a, ws), a + 4 * i) == ws[i]
    decreases |ws|
  {
    hide Load, Store, Same;
    var m1 := Store(m, a, ws[0]);
    if i == 0 {
      LoadStored(m, a, ws[0]);
      RestSame(m1, a, ws[1..]);
      LoadSame(m1, StoreAll(m, a, ws), a, a + 4, a);
    } else {
      LoadStoredAll(m1, a + 4, ws[1..], i - 1);
      assert ws[1..][i - 1] == ws[i] && a + 4 + 4 * (i - 1) == a + 4 * i;
    }
  }

  lemma RestSame(m: Mem, a: nat, ws: seq<nat>)
    ensures Same(m, StoreAll(m, a + 4, ws), a, a + 4)
  {
    forall x: nat | a <= x < a + 4 ensures StoreAll(m, a + 4, ws)(x) == m(x) { StoreAllOutside(m, a + 4, ws, x); }
  }

  // ---------- the processor

  datatype Regs = Regs(edi: nat, esi: nat, ebp: nat, ebx: nat, edx: nat, ecx: nat, eax: nat)

  datatype State = State(regs: Regs, esp: nat, eip: nat, eflags: nat, mem: Mem)

  predicate RegsOk(r: Regs) {
    r.edi < WORD && r.esi < WORD && r.ebp < WORD && r.ebx < WORD && r.edx < WORD && r.ecx < WORD && r.eax < WORD
  }

  predicate Valid(s: State) { RegsOk(s.regs) && s.esp < WORD && s.eip < WORD && s.eflags < WORD }

  /** One fault and its handling: what the processor reports, how the C handler leaves the
      registers, the flags and memory, the flags that arithmetic instructions leave, and the
      faults that strike before each instruction of the upcall completes, in order. */
  datatype Run = Run(va: nat, err: nat, oesp: nat, regs: Regs, eflags: nat, mem: Mem, flags: seq<nat>,
                     faults: seq<Runs>)

  datatype Runs = Runs(list: seq<Run>)

  // Where the upcall is, and what the pointer to the C handler holds.
  datatype Code = Code(upcall: nat, handler: nat)

  const LENGTH := 15

  predicate Fits(run: Run) {
    && run.va < WORD && run.err < WORD && run.oesp < WORD && RegsOk(run.regs) && run.eflags < WORD
    && |run.flags| == LENGTH && |run.faults| == LENGTH && forall k :: 0 <= k < LENGTH ==> run.flags[k] < WORD
  }

  predicate OnX(a: nat) { X_BASE <= a < X_TOP }

  // ---------- the kernel's half

  function FrameBase(esp: nat): int { if OnX(esp) then esp - 56 else X_TOP - 52 }

  function FrameWords(s: State, run: Run): seq<nat> {
    [run.va, run.err, s.regs.edi, s.regs.esi, s.regs.ebp, run.oesp, s.regs.ebx, s.regs.edx, s.regs.ecx, s.regs.eax,
     s.eip, s.eflags, s.esp]
  }

  /** page_fault_handler: push a UTrapframe and enter the upcall. user_mem_assert looks at the
      first byte of the frame only; if that lies in the guard page the environment is destroyed. */
  function Push(s: State, run: Run, code: Code): Option<State> {
    var base := FrameBase(s.esp);
    if base < X_BASE then None
    else Some(State(s.regs, base, code.upcall, s.eflags, StoreAll(s.mem, base, FrameWords(s, run))))
  }

  // ---------- the upcall

  // A store by user code at a goes through: the whole word lies below UTOP, off the guard page.
  predicate UserWord(a: int) { 0 <= a && a + 4 <= X_TOP && (a + 4 <= X_BASE - PGSIZE || a >= X_BASE) }

  // popal: %esp is skipped
  function PopRegs(m: Mem, a: nat): Regs {
    Regs(Load(m, a), Load(m, a + 4), Load(m, a + 8), Load(m, a + 16), Load(m, a + 20), Load(m, a + 24), Load(m, a + 28))
  }

  // subl $4 on a 32-bit register
  function Minus4(v: nat): nat { if v >= 4 then v - 4 else v + WORD - 4 }

  // Instruction k, completing; the call stands for the whole of the C handler. None if it can
  // never complete.
  function Exec(s: State, k: nat, run: Run, code: Code): Option<State>
    requires Fits(run) && k < LENGTH
  {
    var next := s.(eip := code.upcall + k + 1);
    match k
    case 0 =>
      if !UserWord(s.esp - 4) then None else Some(next.(esp := s.esp - 4, mem := Store(s.mem, s.esp - 4, s.esp)))
    case 1 => Some(next.(regs := s.regs.(eax := code.handler)))
    case 2 => if !UserWord(s.esp - 4) then None else Some(next.(regs := run.regs, eflags := run.eflags, mem := run.mem))
    case 3 => Some(next.(esp := s.esp + 4, eflags := run.flags[3]))
    case 4 => Some(next.(regs := s.regs.(eax := Load(s.mem, s.esp + 0x30))))
    case 5 => Some(next.(regs := s.regs.(eax := Minus4(s.regs.eax)), eflags := run.flags[5]))
    case 6 => Some(next.(mem := Store(s.mem, s.esp + 0x30, s.regs.eax)))
    case 7 => Some(next.(regs := s.regs.(ebx := Load(s.mem, s.esp + 0x28))))
    case 8 => if !UserWord(s.regs.eax) then None else Some(next.(mem := Store(s.mem, s.regs.eax, s.regs.ebx)))
    case 9 => Some(next.(esp := s.esp + 8, eflags := run.flags[9]))
    case 10 => Some(next.(esp := s.esp + 32, regs := PopRegs(s.mem, s.esp)))
    case 11 => Some(next.(esp := s.esp + 4, eflags := run.flags[11]))
    case 12 => Some(next.(esp := s.esp + 4, eflags := Load(s.mem, s.esp)))
    case 13 => Some(next.(esp := Load(s.mem, s.esp)))
    case _ => Some(s.(eip := Load(s.mem, s.esp), esp := s.esp + 4))
  }

  // What must survive a fault before instruction k of the upcall for a fault that struck at esp:
  // what the interrupted code must find again, the rest of the frame, and, once it has been
  // stored, the return address below esp.
  ghost predicate Needed(keep: nat -> bool, esp: nat, now: nat, k: nat, x: nat) {
    || keep(x)
    || (k < 14 && now <= x < FrameBase(esp) + 52)
    || (k >= 9 && esp - 4 <= x < esp)
  }

  ghost function NeededAt(keep: nat -> bool, esp: nat, now: nat, k: nat): nat -> bool {
    (x: nat) => Needed(keep, esp, now, k, x)
  }

  // The C handler leaves alone what the interrupted code keeps and the saved frame.
  ghost predicate HandlerOk(m: Mem, run: Run, keep: nat -> bool, base: int) {
    forall x: nat :: keep(x) || base <= x < base + 52 ==> run.mem(x) == m(x)
  }

  /** A fault at state s, handled as `run` tells: the state in which the interrupted code goes
      on. None if the environment is destroyed on the way, or if some handler, here or in a
      nested fault, writes over what it must leave alone. */
  ghost function Fault(s: State, run: Run, code: Code, keep: nat -> bool): Option<State>
    decreases run, 100, 0
  {
    if !Fits(run) || s.esp < 4 || Push(s, run, code).None? then None
    else From(Push(s, run, code).value, 0, run, code, keep, s.esp)
  }

  // The upcall from instruction k on.
  ghost function From(s: State, k: nat, run: Run, code: Code, keep: nat -> bool, esp: nat): Option<State>
    requires Fits(run) && k <= LENGTH
    decreases run, 2 * (LENGTH - k) + 1, 0
  {
    if k == LENGTH then Some(s)
    else
      var s1 := Faults(s, k, 0, run, code, keep, esp);
      if s1.None? || (k == 2 && !HandlerOk(s1.value.mem, run, keep, FrameBase(esp))) then None
      else
        var s2 := Exec(s1.value, k, run, code);
        if s2.None? then None else From(s2.value, k + 1, run, code, keep, esp)
  }

  // The faults before instruction k, from the j-th on.
  ghost function Faults(s: State, k: nat, j: nat, run: Run, code: Code, keep: nat -> bool, esp: nat): Option<State>
    requires Fits(run) && k < LENGTH
    decreases run, 2 * (LENGTH - k), |run.faults[k].list| - j
  {
    if j >= |run.faults[k].list| then Some(s)
    else
      var s1 := Fault(s, run.faults[k].list[j], code, NeededAt(keep, esp, s.esp, k));
      if s1.None? then None else Faults(s1.value, k, j + 1, run, code, keep, esp)
  }

  // ---------- what holds before each instruction

  // The words of memory that the rest of the upcall relies on, from instruction k on, for a
  // fault at s0.
  ghost predicate WordsAt(k: nat, m: Mem, s0: State) {
    var base := FrameBase(s0.esp);
    && base >= X_BASE
    && (k <= 10 ==> PopRegs(m, base + 8) == s0.regs)
    && (k <= 7 ==> Load(m, base + 40) == s0.eip)
    && (k <= 12 ==> Load(m, base + 44) == s0.eflags)
    && (k <= 13 ==> Load(m, base + 48) == if k <= 6 then s0.esp else s0.esp - 4)
    && (k >= 9 && s0.esp >= 4 ==> Load(m, s0.esp - 4) == s0.eip)
  }

  function EspAt(k: nat, esp: nat): int {
    var base := FrameBase(esp);
    if k == 0 then base else if k <= 3 then base - 4 else if k <= 9 then base else if k == 10 then base + 8
    else if k == 11 then base + 40 else if k == 12 then base + 44 else if k == 13 then base + 48 else esp - 4
  }

  predicate RegsAt(k: nat, s: State, s0: State) {
    && Valid(s)
    && (k == 5 ==> s.regs.eax == s0.esp)
    && (6 <= k <= 8 ==> s.regs.eax == s0.esp - 4)
    && (k == 8 ==> s.regs.ebx == s0.eip)
    && (k >= 11 ==> s.regs == s0.regs)
    && (k >= 13 ==> s.eflags == s0.eflags)
  }

  ghost predicate Kept(keep: nat -> bool, m: Mem, m': Mem) {
    forall x: nat :: keep(x) ==> m'(x) == m(x)
  }

  // A fault at s finds its way back unless this holds: at UXSTACKTOP the return address takes the
  // place of the saved stack pointer, and is the right one at one address only.
  predicate Lost(s: State) { s.esp == X_TOP && s.eip != X_TOP - 4 }

  ghost predicate Mid(k: nat, s: State, s0: State, keep: nat -> bool, code: Code) {
    && Valid(s0) && s0.esp >= 4 && (Lost(s0) ==> k <= 8) && code.upcall + LENGTH < WORD && code.handler < WORD
    && s.esp == EspAt(k, s0.esp) && s.eip == code.upcall + k
    && (1 <= k <= 3 ==> FrameBase(s0.esp) - 4 >= X_BASE)
    && (k >= 9 ==> UserWord(s0.esp - 4))
    && WordsAt(k, s.mem, s0) && RegsAt(k, s, s0) && Kept(keep, s0.mem, s.mem)
  }

  // What the interrupted code may count on: anything at or above its stack pointer, on the stack
  // that it points into, or above it outside the exception stack.
  ghost predicate Keepable(keep: nat -> bool, esp: nat) {
    forall x: nat :: keep(x) ==> if OnX(esp) then !(X_BASE <= x < esp) else x >= esp && !OnX(x)
  }

  // Storing a word that is not kept.
  lemma KeptStore(keep: nat -> bool, m: Mem, m': Mem, a: nat, v: nat)
    requires Kept(keep, m, m') && forall x: nat :: a <= x < a + 4 ==> !keep(x)
    ensures Kept(keep, m, Store(m', a, v))
  {}

  // The word below the stack pointer, and the frame, belong to nobody.
  lemma FrameUnkept(keep: nat -> bool, esp: nat, x: nat)
    requires Keepable(keep, esp) && esp >= 4 && FrameBase(esp) >= X_BASE
    requires (FrameBase(esp) - 4 <= x < FrameBase(esp) + 52 && X_BASE <= x) || (esp - 4 <= x < esp && UserWord(esp - 4))
    ensures !keep(x)
  {}

  // The i-th word of the frame, at its address.
  lemma FrameWord(s: State, run: Run, base: nat, i: nat, a: nat, v: nat)
    requires Valid(s) && Fits(run) && i < 13 && a == base + 4 * i && FrameWords(s, run)[i] == v
    ensures Load(StoreAll(s.mem, base, FrameWords(s, run)), a) == v
  {
    LoadStoredAll(s.mem, base, FrameWords(s, run), i);
  }

  lemma PushRegs(s: State, run: Run, base: nat)
    requires Valid(s) && Fits(run)
    ensures var m := StoreAll(s.mem, base, FrameWords(s, run));
            PopRegs(m, base + 8) == s.regs
  {
    hide StoreAll, Load;
    FrameWord(s, run, base, 2, base + 8, s.regs.edi);
    FrameWord(s, run, base, 3, base + 12, s.regs.esi);
    FrameWord(s, run, base, 4, base + 16, s.regs.ebp);
    FrameWord(s, run, base, 6, base + 24, s.regs.ebx);
    FrameWord(s, run, base, 7, base + 28, s.regs.edx);
    FrameWord(s, run, base, 8, base + 32, s.regs.ecx);
    FrameWord(s, run, base, 9, base + 36, s.regs.eax);
  }

  lemma PushRest(s: State, run: Run, base: nat)
    requires Valid(s) && Fits(run)
    ensures var m := StoreAll(s.mem, base, FrameWords(s, run));
            Load(m, base + 40) == s.eip && Load(m, base + 44) == s.eflags && Load(m, base + 48) == s.esp
  {
    hide StoreAll, Load;
    FrameWord(s, run, base, 10, base + 40, s.eip);
    FrameWord(s, run, base, 11, base + 44, s.eflags);
    FrameWord(s, run, base, 12, base + 48, s.esp);
  }

  lemma WordsAre(m: Mem, s: State, base: int)
    requires base == FrameBase(s.esp) && base >= X_BASE
    requires PopRegs(m, base + 8) == s.regs
    requires Load(m, base + 40) == s.eip && Load(m, base + 44) == s.eflags && Load(m, base + 48) == s.esp
    ensures WordsAt(0, m, s)
  {
    hide Load, PopRegs;
  }

  lemma PushWords(s: State, run: Run, code: Code)
    requires Valid(s) && Fits(run) && Push(s, run, code).Some?
    ensures WordsAt(0, Push(s, run, code).value.mem, s)
  {
    var base: nat := FrameBase(s.esp);
    hide StoreAll, Load, Valid, Fits, FrameWords, WordsAt, PopRegs;
    PushRegs(s, run, base);
    PushRest(s, run, base);
    WordsAre(StoreAll(s.mem, base, FrameWords(s, run)), s, base);
  }

  lemma PushKept(s: State, run: Run, code: Code, keep: nat -> bool)
    requires s.esp >= 4 && Keepable(keep, s.esp) && Push(s, run, code).Some?
    ensures Kept(keep, s.mem, Push(s, run, code).value.mem)
  {
    var base: nat, ws := FrameBase(s.esp), FrameWords(s, run);
    assert |ws| == 13 && base >= X_BASE && Push(s, run, code).value.mem == StoreAll(s.mem, base, ws);
    hide FrameWords, FrameBase, Push, StoreAll, Keepable, OnX;
    forall x: nat | keep(x) ensures StoreAll(s.mem, base, ws)(x) == s.mem(x) {
      assert x < base || x >= base + 52 by { if base <= x < base + 52 { FrameUnkept(keep, s.esp, x); } }
      StoreAllOutside(s.mem, base, ws, x);
    }
  }

  lemma PushMid(s: State, run: Run, code: Code, keep: nat -> bool)
    requires Valid(s) && Fits(run) && s.esp >= 4 && Keepable(keep, s.esp) && Push(s, run, code).Some?
    requires code.upcall + LENGTH < WORD && code.handler < WORD
    ensures Mid(0, Push(s, run, code).value, s, keep, code)
  {
    PushWords(s, run, code);
    PushKept(s, run, code, keep);
    hide WordsAt, Kept, StoreAll, FrameWords, Keepable, Fits;
  }

  // ---------- one instruction at a time

  lemma PopSame(m: Mem, m': Mem, lo: nat, hi: nat, a: nat)
    requires Same(m, m', lo, hi) && lo <= a && a + 32 <= hi
    ensures PopRegs(m', a) == PopRegs(m, a)
  {}

  lemma StoreSame(m: Mem, a: nat, v: nat, lo: nat, hi: nat)
    requires hi <= a || lo >= a + 4
    ensures Same(m, Store(m, a, v), lo, hi)
  {}

  lemma WordsSame(k: nat, m: Mem, m': Mem, s0: State)
    requires WordsAt(k, m, s0) && k <= 8 && Same(m, m', FrameBase(s0.esp), FrameBase(s0.esp) + 52)
    ensures WordsAt(k, m', s0)
  {
    hide Same, Load, FrameBase, PopRegs;
    var base: nat := FrameBase(s0.esp);
    PopSame(m, m', base, base + 52, base + 8);
    LoadSame(m, m', base, base + 52, base + 40);
    LoadSame(m, m', base, base + 52, base + 44);
    LoadSame(m, m', base, base + 52, base + 48);
  }

  // Later instructions need less, as long as the adjusted stack pointer and the return address
  // are in place when they have to be.
  lemma WordsLater(k: nat, m: Mem, s0: State)
    requires WordsAt(k, m, s0) && k < LENGTH && k != 6 && k != 8
    ensures WordsAt(k + 1, m, s0)
  {
    hide Load, FrameBase, PopRegs;
  }

  // What one instruction does, with memory apart.
  lemma KeptSame(keep: nat -> bool, m0: Mem, m: Mem, m': Mem)
    requires Kept(keep, m0, m) && Kept(keep, m, m')
    ensures Kept(keep, m0, m')
  {}

  lemma BaseFacts(k: nat, s: State, s0: State, keep: nat -> bool, code: Code)
    requires Mid(k, s, s0, keep, code)
    ensures X_BASE <= FrameBase(s0.esp) <= X_TOP - 52 && s.esp == EspAt(k, s0.esp) && s0.esp >= 4
            && (Lost(s0) ==> k <= 8) && s0.esp < WORD
    ensures WordsAt(k, s.mem, s0) && Kept(keep, s0.mem, s.mem) && RegsAt(k, s, s0)
    ensures Valid(s0) && code.upcall + LENGTH < WORD && code.handler < WORD
  {
    hide Load, Kept, PopRegs;
  }

  // A word stored below the frame, or in place of it.
  lemma StoreBelow(k: nat, s: State, s0: State, keep: nat -> bool, code: Code, a: nat, v: nat)
    requires Mid(k, s, s0, keep, code) && k <= 8 && Keepable(keep, s0.esp)
    requires (a >= X_BASE && a + 4 == FrameBase(s0.esp)) || (a == s0.esp - 4 && UserWord(a) && s0.esp != X_TOP)
    ensures Kept(keep, s0.mem, Store(s.mem, a, v)) && WordsAt(k, Store(s.mem, a, v), s0)
  {
    hide Load, Store, PopRegs, WordsAt, Kept, RegsAt, Keepable, Mid;
    BaseFacts(k, s, s0, keep, code);
    var base: nat := FrameBase(s0.esp);
    forall x: nat | a <= x < a + 4 ensures !keep(x) { FrameUnkept(keep, s0.esp, x); }
    KeptStore(keep, s0.mem, s.mem, a, v);
    assert a + 4 <= base || a >= base + 52;
    StoreSame(s.mem, a, v, base, base + 52);
    WordsSame(k, s.mem, Store(s.mem, a, v), s0);
  }

  // movl %eax, 0x30(%esp): the frame's stack pointer is adjusted
  lemma StoreEsp(s: State, s0: State, keep: nat -> bool, code: Code)
    requires Mid(6, s, s0, keep, code) && Keepable(keep, s0.esp)
    ensures var m := Store(s.mem, s.esp + 0x30, s.regs.eax); Kept(keep, s0.mem, m) && WordsAt(7, m, s0)
  {
    hide Load, Store, PopRegs, Kept, Keepable, Mid;
    BaseFacts(6, s, s0, keep, code);
    var base: nat, v := FrameBase(s0.esp), s.regs.eax;
    var a := base + 48;
    forall x: nat | a <= x < a + 4 ensures !keep(x) { FrameUnkept(keep, s0.esp, x); }
    hide FrameBase;
    KeptStore(keep, s0.mem, s.mem, a, v);
    LoadStored(s.mem, a, v);
    StoreSame(s.mem, a, v, base, a);
    PopSame(s.mem, Store(s.mem, a, v), base, a, base + 8);
    LoadSame(s.mem, Store(s.mem, a, v), base, a, base + 40);
    LoadSame(s.mem, Store(s.mem, a, v), base, a, base + 44);
  }

  // movl %ebx, (%eax): the return address goes below the trap-time stack pointer
  lemma StoreReturn(s: State, s0: State, keep: nat -> bool, code: Code)
    requires Mid(8, s, s0, keep, code) && Keepable(keep, s0.esp) && UserWord(s.regs.eax) && !Lost(s0)
    ensures var m := Store(s.mem, s.regs.eax, s.regs.ebx); Kept(keep, s0.mem, m) && WordsAt(9, m, s0)
  {
    hide Load, Store, PopRegs, Kept, Keepable, Mid, FrameBase, UserWord;
    BaseFacts(8, s, s0, keep, code);
    LoadStored(s.mem, s.regs.eax, s.regs.ebx);
    if s0.esp == X_TOP {
      StoreTop(s, s0, keep, code);
    } else {
      StoreBelow(8, s, s0, keep, code, s.regs.eax, s.regs.ebx);
    }
  }

  // At UXSTACKTOP it replaces the saved stack pointer, which it is equal to.
  lemma StoreTop(s: State, s0: State, keep: nat -> bool, code: Code)
    requires Mid(8, s, s0, keep, code) && Keepable(keep, s0.esp) && s0.esp == X_TOP && s0.eip == X_TOP - 4
    ensures var m := Store(s.mem, s.regs.eax, s.regs.ebx); Kept(keep, s0.mem, m) && WordsAt(9, m, s0)
  {
    hide Load, Store, PopRegs, Kept, Keepable, Mid;
    BaseFacts(8, s, s0, keep, code);
    var a, m := X_TOP - 4, Store(s.mem, s.regs.eax, s.regs.ebx);
    forall x: nat | a <= x < a + 4 ensures !keep(x) { FrameUnkept(keep, s0.esp, x); }
    KeptStore(keep, s0.mem, s.mem, a, s.regs.ebx);
    StoreSame(s.mem, a, s.regs.ebx, X_TOP - 52, a);
    PopSame(s.mem, m, X_TOP - 52, a, X_TOP - 44);
    LoadSame(s.mem, m, X_TOP - 52, a, X_TOP - 8);
    LoadStored(s.mem, a, s.regs.ebx);
  }

  lemma NextMid(k: nat, s: State, s': State, s0: State, keep: nat -> bool, code: Code)
    requires Mid(k, s, s0, keep, code) && k < 14 && (Lost(s0) ==> k < 8)
    requires s'.eip == code.upcall + k + 1 && s'.esp == EspAt(k + 1, s0.esp) && RegsAt(k + 1, s', s0)
    requires WordsAt(k + 1, s'.mem, s0) && Kept(keep, s0.mem, s'.mem)
    requires (k == 0 ==> FrameBase(s0.esp) - 4 >= X_BASE) && (k == 8 ==> UserWord(s0.esp - 4))
    ensures Mid(k + 1, s', s0, keep, code)
  {
    hide WordsAt, RegsAt, Kept, EspAt, FrameBase, UserWord;
  }

  // An instruction that writes no memory.
  lemma NoStore(k: nat, s: State, s': State, s0: State, keep: nat -> bool, code: Code)
    requires Mid(k, s, s0, keep, code) && k < 14 && k != 0 && k != 6 && k != 8
    requires s'.mem == s.mem && s'.eip == code.upcall + k + 1 && s'.esp == EspAt(k + 1, s0.esp) && RegsAt(k + 1, s', s0)
    ensures Mid(k + 1, s', s0, keep, code)
  {
    hide WordsAt, RegsAt, Kept, EspAt, FrameBase, UserWord, Mid;
    BaseFacts(k, s, s0, keep, code);
    WordsLater(k, s.mem, s0);
    NextMid(k, s, s', s0, keep, code);
  }

  // pushl %esp; movl _pgfault_handler, %eax
  lemma Steps01(k: nat, s: State, s0: State, run: Run, code: Code, keep: nat -> bool)
    requires k <= 1 && Mid(k, s, s0, keep, code) && Keepable(keep, s0.esp) && Fits(run) && code.handler < WORD
             && Exec(s, k, run, code).Some?
    ensures Mid(k + 1, Exec(s, k, run, code).value, s0, keep, code)
  {
    hide WordsAt, Kept, Mid, Keepable, Load, Store, PopRegs, Fits, FrameBase;
    BaseFacts(k, s, s0, keep, code);
    if k == 0 {
      var a: nat := s.esp - 4;
      StoreBelow(0, s, s0, keep, code, a, s.esp);
      WordsLater(0, Store(s.mem, a, s.esp), s0);
      NextMid(0, s, Exec(s, 0, run, code).value, s0, keep, code);
    } else {
      NoStore(1, s, Exec(s, 1, run, code).value, s0, keep, code);
    }
  }

  // call *%eax
  lemma Step2(s: State, s0: State, run: Run, code: Code, keep: nat -> bool)
    requires Mid(2, s, s0, keep, code) && Fits(run) && HandlerOk(s.mem, run, keep, FrameBase(s0.esp))
             && Exec(s, 2, run, code).Some?
    ensures Mid(3, Exec(s, 2, run, code).value, s0, keep, code)
  {
    hide WordsAt, Kept, Mid, Load, Store, PopRegs, HandlerOk, Same, FrameBase, UserWord;
    BaseFacts(2, s, s0, keep, code);
    HandlerSame(s.mem, run, keep, FrameBase(s0.esp));
    WordsSame(2, s.mem, run.mem, s0);
    WordsLater(2, run.mem, s0);
    KeptSame(keep, s0.mem, s.mem, run.mem);
    NextMid(2, s, Exec(s, 2, run, code).value, s0, keep, code);
  }

  lemma HandlerSame(m: Mem, run: Run, keep: nat -> bool, base: int)
    requires HandlerOk(m, run, keep, base) && base >= 0
    ensures Kept(keep, m, run.mem) && Same(m, run.mem, base, base + 52)
  {}

  // addl $4, %esp; movl 0x30(%esp), %eax; subl $4, %eax
  lemma Steps345(k: nat, s: State, s0: State, run: Run, code: Code, keep: nat -> bool)
    requires 3 <= k <= 5 && Mid(k, s, s0, keep, code) && Fits(run) && Exec(s, k, run, code).Some?
    ensures Mid(k + 1, Exec(s, k, run, code).value, s0, keep, code)
  {
    hide Kept, Mid, Load, Store, PopRegs, FrameBase;
    BaseFacts(k, s, s0, keep, code);
    NoStore(k, s, Exec(s, k, run, code).value, s0, keep, code);
  }

  // movl %eax, 0x30(%esp); movl 0x28(%esp), %ebx; movl %ebx, (%eax)
  lemma Steps678(k: nat, s: State, s0: State, run: Run, code: Code, keep: nat -> bool)
    requires 6 <= k <= 8 && Mid(k, s, s0, keep, code) && (Lost(s0) ==> k < 8) && Keepable(keep, s0.esp) && Fits(run)
             && Exec(s, k, run, code).Some?
    ensures Mid(k + 1, Exec(s, k, run, code).value, s0, keep, code)
  {
    hide Kept, Mid, Load, Store, PopRegs, FrameBase, Keepable, UserWord;
    BaseFacts(k, s, s0, keep, code);
    if k == 7 {
      NoStore(7, s, Exec(s, 7, run, code).value, s0, keep, code);
    } else {
      hide WordsAt;
      if k == 6 { StoreEsp(s, s0, keep, code); } else { StoreReturn(s, s0, keep, code); }
      NextMid(k, s, Exec(s, k, run, code).value, s0, keep, code);
    }
  }

  // addl $8, %esp; popal; addl $4, %esp; popfl; popl %esp
  lemma Steps9To13(k: nat, s: State, s0: State, run: Run, code: Code, keep: nat -> bool)
    requires 9 <= k <= 13 && Mid(k, s, s0, keep, code) && Fits(run) && Exec(s, k, run, code).Some?
    ensures Mid(k + 1, Exec(s, k, run, code).value, s0, keep, code)
  {
    hide Kept, Mid, Load, Store, PopRegs, FrameBase, UserWord;
    BaseFacts(k, s, s0, keep, code);
    NoStore(k, s, Exec(s, k, run, code).value, s0, keep, code);
  }

  // What the interrupted code finds again.
  ghost predicate Restored(s: State, s0: State, keep: nat -> bool) {
    s.regs == s0.regs && s.esp == s0.esp && s.eip == s0.eip && s.eflags == s0.eflags && Kept(keep, s0.mem, s.mem)
  }

  // ret
  lemma Step14(s: State, s0: State, run: Run, code: Code, keep: nat -> bool)
    requires Mid(14, s, s0, keep, code) && Fits(run) && Exec(s, 14, run, code).Some?
    ensures Restored(Exec(s, 14, run, code).value, s0, keep)
  {
    hide Kept, Load, Mid, FrameBase;
    BaseFacts(14, s, s0, keep, code);
  }

  lemma MidStep(k: nat, s: State, s0: State, run: Run, code: Code, keep: nat -> bool)
    requires k < 14 && Mid(k, s, s0, keep, code) && (Lost(s0) ==> k < 8) && Keepable(keep, s0.esp) && Fits(run)
    requires (k == 2 ==> HandlerOk(s.mem, run, keep, FrameBase(s0.esp))) && Exec(s, k, run, code).Some?
    ensures Mid(k + 1, Exec(s, k, run, code).value, s0, keep, code)
  {
    hide Mid, Keepable, Fits, HandlerOk, Exec, FrameBase, WordsAt, Kept, RegsAt, EspAt, Valid;
    BaseFacts(k, s, s0, keep, code);
    if k <= 1 { Steps01(k, s, s0, run, code, keep); }
    else if k == 2 { Step2(s, s0, run, code, keep); }
    else if k <= 5 { Steps345(k, s, s0, run, code, keep); }
    else if k <= 8 { Steps678(k, s, s0, run, code, keep); }
    else { Steps9To13(k, s, s0, run, code, keep); }
  }

  // ---------- nested faults

  // A nested fault that restores what it must leaves the upcall where it was.
  lemma MidRestored(k: nat, s: State, s': State, s0: State, keep: nat -> bool, code: Code)
    requires Mid(k, s, s0, keep, code) && k < LENGTH
    requires Restored(s', s, NeededAt(keep, s0.esp, s.esp, k))
    ensures Mid(k, s', s0, keep, code)
  {
    hide Load, PopRegs, UserWord, Kept, WordsAt, Needed;
    NeededSame(k, s, s', s0, keep, code);
  }

  lemma NeededSame(k: nat, s: State, s': State, s0: State, keep: nat -> bool, code: Code)
    requires Mid(k, s, s0, keep, code) && k < LENGTH
    requires Kept(NeededAt(keep, s0.esp, s.esp, k), s.mem, s'.mem)
    ensures Kept(keep, s0.mem, s'.mem) && WordsAt(k, s'.mem, s0)
  {
    hide Load, PopRegs, RegsAt, UserWord, Mid;
    BaseFacts(k, s, s0, keep, code);
    var base: nat, m, m' := FrameBase(s0.esp), s.mem, s'.mem;
    var now: nat := s.esp;
    forall x: nat | Needed(keep, s0.esp, now, k, x) ensures m'(x) == m(x) {
      assert NeededAt(keep, s0.esp, s.esp, k)(x);
    }
    assert k >= 9 ==> Same(m, m', s0.esp - 4, s0.esp);
    if k < 14 {
      assert Same(m, m', now, base + 52);
      hide Same, FrameBase;
      if k <= 10 { PopSame(m, m', now, base + 52, base + 8); }
      if k <= 7 { LoadSame(m, m', now, base + 52, base + 40); }
      if k <= 12 { LoadSame(m, m', now, base + 52, base + 44); }
      if k <= 13 { LoadSame(m, m', now, base + 52, base + 48); }
    }
    if k >= 9 {
      LoadSame(m, m', s0.esp - 4, s0.esp, s0.esp - 4);
    }
  }

  // What a nested fault must leave alone, it can.
  lemma NeededKeepable(k: nat, s: State, s0: State, keep: nat -> bool, code: Code)
    requires Mid(k, s, s0, keep, code) && k < LENGTH && Keepable(keep, s0.esp)
    ensures Keepable(NeededAt(keep, s0.esp, s.esp, k), s.esp) && s.esp != X_TOP && Valid(s)
  {
    hide Load, PopRegs, WordsAt, Kept;
    BaseFacts(k, s, s0, keep, code);
    var need := NeededAt(keep, s0.esp, s.esp, k);
    forall x: nat | need(x) ensures if OnX(s.esp) then !(X_BASE <= x < s.esp) else x >= s.esp && !OnX(x) {
      assert Needed(keep, s0.esp, s.esp, k, x);
    }
  }

  // ---------- the theorem

  /** Invisibility: however deeply faults nest, and wherever in the upcall they strike, the
      interrupted code goes on with every register, the flags, the stack pointer, its own address
      and all of memory that it may count on as they were. */
  lemma {:induction false} FaultInvisible(s: State, run: Run, code: Code, keep: nat -> bool)
    requires Valid(s) && !Lost(s) && Keepable(keep, s.esp) && code.upcall + LENGTH < WORD && code.handler < WORD
    requires Fault(s, run, code, keep).Some?
    ensures Restored(Fault(s, run, code, keep).value, s, keep)
    decreases run, 100, 0
  {
    hide Mid, Keepable, Restored, Valid, Fits, Push;
    PushMid(s, run, code, keep);
    FromInvisible(Push(s, run, code).value, 0, s, run, code, keep);
  }

  lemma {:induction false} FromInvisible(s: State, k: nat, s0: State, run: Run, code: Code, keep: nat -> bool)
    requires Fits(run) && k < LENGTH && Mid(k, s, s0, keep, code) && !Lost(s0) && Keepable(keep, s0.esp)
    requires From(s, k, run, code, keep, s0.esp).Some?
    ensures Restored(From(s, k, run, code, keep, s0.esp).value, s0, keep)
    decreases run, 2 * (LENGTH - k) + 1, 0
  {
    hide Mid, Keepable, Exec, Restored, Fits, HandlerOk;
    FaultsInvisible(s, k, 0, s0, run, code, keep);
    var s1 := Faults(s, k, 0, run, code, keep, s0.esp).value;
    if k == 14 {
      Step14(s1, s0, run, code, keep);
    } else {
      MidStep(k, s1, s0, run, code, keep);
      FromInvisible(Exec(s1, k, run, code).value, k + 1, s0, run, code, keep);
    }
  }

  lemma {:induction false} FaultsInvisible(s: State, k: nat, j: nat, s0: State, run: Run, code: Code, keep: nat -> bool)
    requires Fits(run) && k < LENGTH && Mid(k, s, s0, keep, code) && Keepable(keep, s0.esp)
    requires Faults(s, k, j, run, code, keep, s0.esp).Some?
    ensures Mid(k, Faults(s, k, j, run, code, keep, s0.esp).value, s0, keep, code)
    decreases run, 2 * (LENGTH - k), |run.faults[k].list| - j
  {
    if j < |run.faults[k].list| {
      hide Mid, Keepable, Exec, Restored, HandlerOk, Needed, NeededAt, WordsAt, RegsAt, Kept, EspAt, FrameBase,
        Valid, Push, From;
      BaseFacts(k, s, s0, keep, code);
      NeededKeepable(k, s, s0, keep, code);
      var need := NeededAt(keep, s0.esp, s.esp, k);
      FaultInvisible(s, run.faults[k].list[j], code, need);
      var s1 := Fault(s, run.faults[k].list[j], code, need).value;
      MidRestored(k, s, s1, s0, keep, code);
      FaultsInvisible(s1, k, j + 1, s0, run, code, keep);
    }
  }

  // ---------- the one stack pointer that is lost

  ghost function Nothing(): nat -> bool { (x: nat) => false }

  // A handler that leaves more alone leaves less alone, too.
  lemma {:induction false} FaultWeaker(s: State, run: Run, code: Code, keep: nat -> bool, less: nat -> bool)
    requires Fault(s, run, code, keep).Some? && forall x: nat :: less(x) ==> keep(x)
    ensures Fault(s, run, code, less) == Fault(s, run, code, keep)
    decreases run, 100, 0
  {
    hide Fits, Push;
    FromWeaker(Push(s, run, code).value, 0, run, code, keep, less, s.esp);
  }

  lemma {:induction false} FromWeaker(s: State, k: nat, run: Run, code: Code, keep: nat -> bool, less: nat -> bool,
                                      esp: nat)
    requires Fits(run) && k <= LENGTH && From(s, k, run, code, keep, esp).Some? && forall x: nat :: less(x) ==> keep(x)
    ensures From(s, k, run, code, less, esp) == From(s, k, run, code, keep, esp)
    decreases run, 2 * (LENGTH - k) + 1, 0
  {
    hide Fits, Exec, FrameBase;
    if k < LENGTH {
      FaultsWeaker(s, k, 0, run, code, keep, less, esp);
      var s1 := Faults(s, k, 0, run, code, keep, esp).value;
      FromWeaker(Exec(s1, k, run, code).value, k + 1, run, code, keep, less, esp);
    }
  }

  lemma {:induction false} FaultsWeaker(s: State, k: nat, j: nat, run: Run, code: Code, keep: nat -> bool,
                                        less: nat -> bool, esp: nat)
    requires Fits(run) && k < LENGTH && Faults(s, k, j, run, code, keep, esp).Some? && forall x: nat :: less(x) ==>
               keep(x)
    ensures Faults(s, k, j, run, code, less, esp) == Faults(s, k, j, run, code, keep, esp)
    decreases run, 2 * (LENGTH - k), |run.faults[k].list| - j
  {
    hide FrameBase;
    if j < |run.faults[k].list| {
      var need := NeededAt(keep, esp, s.esp, k);
      FaultWeaker(s, run.faults[k].list[j], code, need, NeededAt(less, esp, s.esp, k));
      FaultsWeaker(Fault(s, run.faults[k].list[j], code, need).value, k, j + 1, run, code, keep, less, esp);
    }
  }

  // The upcall lies below the exception stack.
  predicate Placed(code: Code) { code.upcall + 2 * LENGTH < X_BASE && code.handler < WORD }

  /** For a fault at the very top of the exception stack, from the store of the return address on:
      the word that holds the saved stack pointer now holds the return address. */
  ghost predicate TopMid(k: nat, s: State, s0: State, code: Code) {
    && 9 <= k <= 14 && Valid(s0) && s0.esp == X_TOP && Placed(code)
    && Valid(s) && s.eip == code.upcall + k && s.esp == (if k == 14 then s0.eip else EspAt(k, X_TOP))
    && (k <= 10 ==> PopRegs(s.mem, X_TOP - 44) == s0.regs)
    && (k <= 12 ==> Load(s.mem, X_TOP - 8) == s0.eflags)
    && (k <= 13 ==> Load(s.mem, X_TOP - 4) == s0.eip)
  }

  // movl %ebx, (%eax)
  lemma TopStore(s: State, s0: State, run: Run, code: Code)
    requires Mid(8, s, s0, Nothing(), code) && s0.esp == X_TOP && Placed(code) && Fits(run)
             && Exec(s, 8, run, code).Some?
    ensures TopMid(9, Exec(s, 8, run, code).value, s0, code)
  {
    hide Load, Store, PopRegs, Kept;
    var a, m := X_TOP - 4, Store(s.mem, X_TOP - 4, s0.eip);
    StoreSame(s.mem, a, s0.eip, X_TOP - 52, a);
    PopSame(s.mem, m, X_TOP - 52, a, X_TOP - 44);
    LoadSame(s.mem, m, X_TOP - 52, a, X_TOP - 8);
    LoadStored(s.mem, a, s0.eip);
  }

  lemma TopStep(k: nat, s: State, s0: State, run: Run, code: Code)
    requires TopMid(k, s, s0, code) && k < 14 && Fits(run)
    ensures Exec(s, k, run, code).Some? && TopMid(k + 1, Exec(s, k, run, code).value, s0, code)
  {
    hide Load, PopRegs;
  }

  lemma {:induction false} TopFaults(s: State, k: nat, j: nat, s0: State, run: Run, code: Code)
    requires Fits(run) && TopMid(k, s, s0, code) && k < 14 && Faults(s, k, j, run, code, Nothing(), X_TOP).Some?
    ensures TopMid(k, Faults(s, k, j, run, code, Nothing(), X_TOP).value, s0, code)
    decreases run, 2 * (LENGTH - k), |run.faults[k].list| - j
  {
    if j < |run.faults[k].list| {
      hide Load, PopRegs, Push, From, Kept;
      var need := NeededAt(Nothing(), X_TOP, s.esp, k);
      FaultInvisible(s, run.faults[k].list[j], code, need);
      var s1 := Fault(s, run.faults[k].list[j], code, need).value;
      TopSame(k, s, s1, s0, code);
      TopFaults(s1, k, j + 1, s0, run, code);
    }
  }

  lemma TopSame(k: nat, s: State, s': State, s0: State, code: Code)
    requires TopMid(k, s, s0, code) && k < 14 && Restored(s', s, NeededAt(Nothing(), X_TOP, s.esp, k))
    ensures TopMid(k, s', s0, code)
  {
    hide Load, PopRegs;
    forall x: nat | s.esp <= x < X_TOP ensures s'.mem(x) == s.mem(x) { assert NeededAt(Nothing(), X_TOP, s.esp, k)(x); }
    if k <= 10 { PopSame(s.mem, s'.mem, s.esp, X_TOP, X_TOP - 44); }
    if k <= 12 { LoadSame(s.mem, s'.mem, s.esp, X_TOP, X_TOP - 8); }
    LoadSame(s.mem, s'.mem, s.esp, X_TOP, X_TOP - 4);
  }

  // Where the stack pointer of the interrupted code ends up.
  predicate TopEsp(esp: nat, s0: State, code: Code) {
    if s0.eip != X_TOP then esp == s0.eip + 4 else esp == X_TOP + 4 || esp == code.upcall + 22
  }

  // Faults before the last instruction strike with esp where the trapped code was.
  lemma {:induction false} TopLast(s: State, j: nat, s0: State, run: Run, code: Code)
    requires Fits(run) && Valid(s0) && Placed(code) && Valid(s) && Faults(s, 14, j, run, code, Nothing(), X_TOP).Some?
    requires (s.eip == code.upcall + 14 && s.esp == s0.eip) || (s.esp == code.upcall + 18 && s0.eip == X_TOP)
    ensures var t := Faults(s, 14, j, run, code, Nothing(), X_TOP).value; Valid(t) && TopEsp(t.esp + 4, s0, code)
    decreases run, 2, |run.faults[14].list| - j
  {
    if j < |run.faults[14].list| {
      hide Load, Push, From, Kept, Fits, Keepable, Restored;
      var r := run.faults[14].list[j];
      FaultWeaker(s, r, code, NeededAt(Nothing(), X_TOP, s.esp, 14), Nothing());
      var t := Fault(s, r, code, Nothing()).value;
      if s.esp == X_TOP {
        TopLoses(s, r, code);
      } else {
        NothingKept(s.esp);
        FaultInvisible(s, r, code, Nothing());
        SameAfter(s, t);
      }
      TopLast(t, j + 1, s0, run, code);
    }
  }

  lemma NothingKept(esp: nat)
    ensures Keepable(Nothing(), esp)
  {}

  lemma SameAfter(s: State, t: State)
    requires Restored(t, s, Nothing()) && Valid(s)
    ensures Valid(t) && t.esp == s.esp && t.eip == s.eip
  {}

  lemma {:induction false} TopFrom(s: State, k: nat, s0: State, run: Run, code: Code)
    requires Fits(run) && k < LENGTH && Valid(s0) && s0.esp == X_TOP && Placed(code)
    requires if k <= 8 then Mid(k, s, s0, Nothing(), code) else TopMid(k, s, s0, code)
    requires From(s, k, run, code, Nothing(), X_TOP).Some?
    ensures var t := From(s, k, run, code, Nothing(), X_TOP).value;
              TopEsp(t.esp, s0, code) && (t.esp < WORD ==> Valid(t))
    decreases run, 2 * (LENGTH - k) + 1, 0
  {
    hide Mid, Keepable, Exec, Restored, Fits, HandlerOk, TopMid, Load, FrameBase, Valid;
    NothingKept(X_TOP);
    var s1 := Faults(s, k, 0, run, code, Nothing(), X_TOP).value;
    if k == 14 {
      TopStart(s, s0, code);
      TopLast(s, 0, s0, run, code);
      Return(s1, run, code);
    } else {
      var s2 := Exec(s1, k, run, code).value;
      if k <= 8 {
        FaultsInvisible(s, k, 0, s0, run, code, Nothing());
        if k < 8 { MidStep(k, s1, s0, run, code, Nothing()); } else { TopStore(s1, s0, run, code); }
      } else {
        TopFaults(s, k, 0, s0, run, code);
        TopStep(k, s1, s0, run, code);
      }
      TopFrom(s2, k + 1, s0, run, code);
    }
  }

  lemma TopStart(s: State, s0: State, code: Code)
    requires TopMid(14, s, s0, code)
    ensures Valid(s) && s.eip == code.upcall + 14 && s.esp == s0.eip
  {}

  lemma Return(s: State, run: Run, code: Code)
    requires Fits(run) && Valid(s)
    ensures Exec(s, 14, run, code).Some?
            && From(Exec(s, 14, run, code).value, 15, run, code, Nothing(), X_TOP) == Exec(s, 14, run, code)
    ensures var t := Exec(s, 14, run, code).value; t.esp == s.esp + 4 && (t.esp < WORD ==> Valid(t))
  {}

  /** A trap with the stack pointer at UXSTACKTOP: the return address takes the place of the saved
      stack pointer, and the interrupted code goes on with its stack pointer just past its own
      program counter. */
  lemma {:induction false} TopLoses(s: State, run: Run, code: Code)
    requires Valid(s) && s.esp == X_TOP && Placed(code) && Fault(s, run, code, Nothing()).Some?
    ensures var t := Fault(s, run, code, Nothing()).value; TopEsp(t.esp, s, code) && (t.esp < WORD ==> Valid(t))
    decreases run, 100, 0
  {
    hide Mid, Keepable, Valid, Fits, Push, From;
    NothingKept(X_TOP);
    PushMid(s, run, code, Nothing());
    TopFrom(Push(s, run, code).value, 0, s, run, code);
  }

  // A handler that changes nothing, and no nested fault.
  function QuietRun(regs: Regs, mem: Mem): Run {
    Run(0, 0, 0, regs, 0, mem, seq(LENGTH, i => 0), seq(LENGTH, i => Runs([])))
  }

  // Memory as the handler finds it.
  function AtCall(s: State, code: Code): Mem {
    Store(StoreAll(s.mem, X_TOP - 52, FrameWords(s, QuietRun(s.regs, s.mem))), X_TOP - 56, X_TOP - 52)
  }

  ghost predicate Quiet(run: Run, m: Mem) {
    Fits(run) && run.mem == m && forall k :: 0 <= k < LENGTH ==> run.faults[k].list == []
  }

  lemma {:induction false} GoesOn(s: State, k: nat, s0: State, run: Run, code: Code)
    requires k < LENGTH && Valid(s0) && s0.esp == X_TOP && Placed(code) && Quiet(run, AtCall(s0, code))
    requires if k <= 8 then Mid(k, s, s0, Nothing(), code) else TopMid(k, s, s0, code)
    requires k == 0 ==> Store(s.mem, X_TOP - 56, X_TOP - 52) == AtCall(s0, code)
    requires 1 <= k <= 2 ==> s.mem == AtCall(s0, code)
    ensures From(s, k, run, code, Nothing(), X_TOP).Some?
    decreases LENGTH - k
  {
    hide Mid, Keepable, Exec, HandlerOk, TopMid, Load, Store, Valid, Fits, AtCall, FrameBase, Placed, Nothing;
    Goes(s, k, s0, run, code);
    NothingKept(X_TOP);
    assert Faults(s, k, 0, run, code, Nothing(), X_TOP) == Some(s);
    var s1 := Exec(s, k, run, code).value;
    if k == 14 {
      assert From(s1, 15, run, code, Nothing(), X_TOP) == Some(s1);
    } else {
      if k < 8 {
        MidStep(k, s, s0, run, code, Nothing());
      } else if k == 8 {
        TopStore(s, s0, run, code);
      } else {
        TopStep(k, s, s0, run, code);
      }
      GoesOn(s1, k + 1, s0, run, code);
    }
  }

  lemma Goes(s: State, k: nat, s0: State, run: Run, code: Code)
    requires k < LENGTH && Valid(s0) && s0.esp == X_TOP
             && (if k <= 8 then Mid(k, s, s0, Nothing(), code) else TopMid(k, s, s0, code))
    requires Fits(run) && run.mem == AtCall(s0, code)
    requires k == 0 ==> Store(s.mem, X_TOP - 56, X_TOP - 52) == AtCall(s0, code)
    requires 1 <= k <= 2 ==> s.mem == AtCall(s0, code)
    ensures Exec(s, k, run, code).Some?
    ensures k == 2 ==> HandlerOk(s.mem, run, Nothing(), FrameBase(X_TOP))
    ensures k <= 1 ==> Exec(s, k, run, code).value.mem == AtCall(s0, code)
  {
    hide WordsAt, Kept, AtCall, Load, Store, PopRegs;
  }

  /** Such a fault can happen: with a handler that changes nothing it runs to its end. */
  lemma TopHappens(s: State, code: Code)
    requires Valid(s) && s.esp == X_TOP && Placed(code)
    ensures Fault(s, QuietRun(s.regs, AtCall(s, code)), code, Nothing()).Some?
  {
    var run := QuietRun(s.regs, AtCall(s, code));
    assert Fits(run) && FrameWords(s, run) == FrameWords(s, QuietRun(s.regs, s.mem));
    NothingKept(X_TOP);
    PushMid(s, run, code, Nothing());
    hide Mid, Keepable, Store, StoreAll, FrameWords;
    GoesOn(Push(s, run, code).value, 0, s, run, code);
  }

  /** Exactly when a fault is invisible: if the stack pointer was not at UXSTACKTOP, or the code was
      at the one address that the upcall stores there anyway. */
  lemma FaultExact(s: State, run: Run, code: Code, keep: nat -> bool)
    requires Valid(s) && Keepable(keep, s.esp) && Placed(code) && Fault(s, run, code, keep).Some?
    ensures Restored(Fault(s, run, code, keep).value, s, keep) <==> s.esp != X_TOP || s.eip == X_TOP - 4
  {
    hide Fault, Keepable;
    if Lost(s) {
      FaultWeaker(s, run, code, keep, Nothing());
      TopLoses(s, run, code);
    } else {
      FaultInvisible(s, run, code, keep);
    }
  }

  // ---------- where the frames lie

  /** The kernel tests one byte only, yet a frame it accepts lies wholly in the exception stack
      page; and the word that the upcall will need below the trap-time stack pointer is clear of
      the frame except for one stack pointer, the very top of the exception stack. */
  lemma FrameInside(s: State, run: Run, code: Code)
    requires s.esp >= 4
    ensures Push(s, run, code).Some? <==> !OnX(s.esp) || s.esp >= X_BASE + 56
    ensures Push(s, run, code).Some? ==> X_BASE <= FrameBase(s.esp) && FrameBase(s.esp) + 52 <= X_TOP
    ensures Push(s, run, code).Some? && UserWord(s.esp - 4) ==>
              ((s.esp - 4 < FrameBase(s.esp) + 52 && FrameBase(s.esp) < s.esp) <==> s.esp == X_TOP)
  {}

  // A chain of faults, each at or below the frame of the one before, all accepted by the kernel;
  // bases[i] is where the i-th frame starts and esps[i] where the next fault finds esp.
  ghost predicate Nested(bases: seq<int>, esps: seq<nat>) {
    && |bases| == |esps| + 1 && bases[0] == X_TOP - 52
    && (forall i :: 0 <= i < |esps| ==> OnX(esps[i]) && esps[i] <= bases[i] && bases[i + 1] == FrameBase(esps[i]))
    && (forall i :: 0 <= i < |bases| ==> bases[i] >= X_BASE)
  }

  lemma {:induction false} FramesDescend(bases: seq<int>, esps: seq<nat>, n: nat)
    requires Nested(bases, esps) && n < |bases|
    ensures bases[n] <= X_TOP - 52 - 56 * n
  {
    if n > 0 { FramesDescend(bases, esps, n - 1); }
  }

  const MOST_FRAMES := 73

  /** The nesting bound: at most 73 frames fit before the kernel refuses one. */
  lemma NestingBound(bases: seq<int>, esps: seq<nat>)
    requires Nested(bases, esps)
    ensures |bases| <= MOST_FRAMES
    ensures forall i :: 0 <= i < |bases| ==> X_BASE <= bases[i] && bases[i] + 52 <= X_TOP
  {
    FramesDescend(bases, esps, |bases| - 1);
    forall i | 0 <= i < |bases| ensures bases[i] + 52 <= X_TOP { FramesDescend(bases, esps, i); }
  }

  function TightBases(n: nat): seq<int> { seq(n, i => X_TOP - 52 - 56 * i) }

  function TightEsps(n: nat): seq<nat>
    requires n <= 72
  {
    seq(n, i requires 0 <= i < n => X_TOP - 52 - 56 * i)
  }

  /** And 73 do fit: faulting each time right at the bottom of the frame. */
  lemma NestingBoundIsTight()
    ensures Nested(TightBases(MOST_FRAMES), TightEsps(MOST_FRAMES - 1))
  {
    var bases, esps := TightBases(MOST_FRAMES), TightEsps(MOST_FRAMES - 1);
    forall i | 0 <= i < |esps| ensures OnX(esps[i]) && esps[i] <= bases[i] && bases[i + 1] == FrameBase(esps[i]) {}
  }

  // ---------- how deep faults can nest

  ghost predicate DepthAtMost(run: Run, n: nat) {
    n >= 1 && forall k :: 0 <= k < |run.faults| ==> ShallowList(run.faults[k].list, n - 1)
  }

  ghost predicate ShallowList(list: seq<Run>, n: nat) {
    forall j :: 0 <= j < |list| ==> DepthAtMost(list[j], n)
  }

  // Every fault strikes while esp is at or below the frame that is being unwound.
  ghost predicate Early(run: Run) {
    forall k, j :: 0 <= k < |run.faults| && 0 <= j < |run.faults[k].list| ==> k <= 9 && Early(run.faults[k].list[j])
  }

  // How many frames fit below esp: of 56 bytes each if they do not overlap, and, as the last
  // instructions run with esp 4 bytes below where it was, one every 4 bytes if they may.
  function Room(esp: nat, early: bool): nat {
    if early then (if OnX(esp) then (esp - X_BASE) / 56 else MOST_FRAMES)
    else if OnX(esp) then (if esp >= X_BASE + 52 then (esp - X_BASE - 52) / 4 else 0)
    else esp / 4 + 1011
  }

  lemma LessRoom(k: nat, esp: nat, early: bool)
    requires k < LENGTH && esp >= 4 && FrameBase(esp) >= X_BASE && (early ==> k <= 9) && EspAt(k, esp) >= 4
    requires (1 <= k <= 3 ==> FrameBase(esp) - 4 >= X_BASE) && (k >= 9 ==> UserWord(esp - 4))
    ensures Room(esp, early) >= 1 && Room(EspAt(k, esp), early) <= Room(esp, early) - 1
  {}

  /** The depth of a handled fault: at most 73 if no fault strikes above the frame being unwound,
      and otherwise still at most one for every 4 bytes of stack. */
  lemma {:induction false} DepthBound(s: State, run: Run, code: Code, keep: nat -> bool, early: bool)
    requires Valid(s) && !Lost(s) && Keepable(keep, s.esp) && code.upcall + LENGTH < WORD && code.handler < WORD
    requires Fault(s, run, code, keep).Some? && (early ==> Early(run))
    ensures DepthAtMost(run, Room(s.esp, early))
    decreases run, 100, 0
  {
    hide Mid, Keepable, Valid, Push, Room, FrameBase, EspAt, UserWord;
    PushMid(s, run, code, keep);
    BaseFacts(0, Push(s, run, code).value, s, keep, code);
    HasRoom(s.esp, early);
    DepthFrom(Push(s, run, code).value, 0, s, run, code, keep, early);
  }

  lemma HasRoom(esp: nat, early: bool)
    requires esp >= 4 && FrameBase(esp) >= X_BASE
    ensures Room(esp, early) >= 1
  {}

  lemma {:induction false} DepthFrom(s: State, k: nat, s0: State, run: Run, code: Code, keep: nat -> bool, early: bool)
    requires Fits(run) && k < LENGTH && Mid(k, s, s0, keep, code) && !Lost(s0) && Keepable(keep, s0.esp)
    requires From(s, k, run, code, keep, s0.esp).Some? && (early ==> Early(run)) && Room(s0.esp, early) >= 1
    ensures forall i :: k <= i < LENGTH ==> ShallowList(run.faults[i].list, Room(s0.esp, early) - 1)
    decreases run, 2 * (LENGTH - k) + 1, 0
  {
    hide Mid, Keepable, Exec, Restored, HandlerOk, Room, FrameBase, EspAt, UserWord;
    FaultsInvisible(s, k, 0, s0, run, code, keep);
    DepthFaults(s, k, 0, s0, run, code, keep, early);
    var s1 := Faults(s, k, 0, run, code, keep, s0.esp).value;
    if k < 14 {
      MidStep(k, s1, s0, run, code, keep);
      DepthFrom(Exec(s1, k, run, code).value, k + 1, s0, run, code, keep, early);
    }
  }

  lemma {:induction false} DepthFaults(s: State, k: nat, j: nat, s0: State, run: Run, code: Code, keep: nat -> bool,
                                       early: bool)
    requires Fits(run) && k < LENGTH && Mid(k, s, s0, keep, code) && Keepable(keep, s0.esp)
    requires Faults(s, k, j, run, code, keep, s0.esp).Some? && (early ==> Early(run)) && Room(s0.esp, early) >= 1
    ensures forall i :: j <= i < |run.faults[k].list| ==> DepthAtMost(run.faults[k].list[i], Room(s0.esp, early) - 1)
    decreases run, 2 * (LENGTH - k), |run.faults[k].list| - j
  {
    hide Mid, Keepable, Fault, Early, DepthAtMost, Room, NeededAt;
    if j < |run.faults[k].list| {
      OneDeeper(s, k, j, s0, run, code, keep, early);
      var s1 := Fault(s, run.faults[k].list[j], code, NeededAt(keep, s0.esp, s.esp, k)).value;
      NestedMid(s, k, j, s0, run, code, keep);
      DepthFaults(s1, k, j + 1, s0, run, code, keep, early);
    }
  }

  // One nested fault, and where it leaves the upcall.
  lemma {:induction false} OneDeeper(s: State, k: nat, j: nat, s0: State, run: Run, code: Code, keep: nat -> bool,
                                     early: bool)
    requires Fits(run) && k < LENGTH && Mid(k, s, s0, keep, code) && Keepable(keep, s0.esp) && j < |run.faults[k].list|
    requires Fault(s, run.faults[k].list[j], code, NeededAt(keep, s0.esp, s.esp, k)).Some?
    requires (early ==> Early(run)) && Room(s0.esp, early) >= 1
    ensures DepthAtMost(run.faults[k].list[j], Room(s0.esp, early) - 1)
    decreases run, 2 * (LENGTH - k), 0
  {
    hide Mid, Keepable, NeededAt, WordsAt, RegsAt, Kept, Valid, Push, From, Room, FrameBase, EspAt, UserWord, Early,
      DepthAtMost;
    var need, r := NeededAt(keep, s0.esp, s.esp, k), run.faults[k].list[j];
    BaseFacts(k, s, s0, keep, code);
    if early { EarlyAt(run, k, j); }
    NeededKeepable(k, s, s0, keep, code);
    MidUserWord(k, s, s0, keep, code);
    LessRoom(k, s0.esp, early);
    DepthBound(s, r, code, need, early);
    Deeper(r, Room(s.esp, early), Room(s0.esp, early) - 1);
  }

  lemma NestedMid(s: State, k: nat, j: nat, s0: State, run: Run, code: Code, keep: nat -> bool)
    requires Fits(run) && k < LENGTH && Mid(k, s, s0, keep, code) && Keepable(keep, s0.esp) && j < |run.faults[k].list|
    requires Fault(s, run.faults[k].list[j], code, NeededAt(keep, s0.esp, s.esp, k)).Some?
    ensures Mid(k, Fault(s, run.faults[k].list[j], code, NeededAt(keep, s0.esp, s.esp, k)).value, s0, keep, code)
  {
    hide Mid, Keepable, Restored, NeededAt, WordsAt, RegsAt, Kept, Valid, Fault, FrameBase, EspAt;
    BaseFacts(k, s, s0, keep, code);
    NeededKeepable(k, s, s0, keep, code);
    FaultInvisible(s, run.faults[k].list[j], code, NeededAt(keep, s0.esp, s.esp, k));
    MidRestored(k, s, Fault(s, run.faults[k].list[j], code, NeededAt(keep, s0.esp, s.esp, k)).value, s0, keep, code);
  }

  lemma MidUserWord(k: nat, s: State, s0: State, keep: nat -> bool, code: Code)
    requires Mid(k, s, s0, keep, code)
    ensures (1 <= k <= 3 ==> FrameBase(s0.esp) - 4 >= X_BASE) && (k >= 9 ==> UserWord(s0.esp - 4))
  {}

  lemma EarlyAt(run: Run, k: nat, j: nat)
    requires Early(run) && k < |run.faults| && j < |run.faults[k].list|
    ensures k <= 9 && Early(run.faults[k].list[j])
  {}

  lemma {:induction false} Deeper(run: Run, m: nat, n: nat)
    requires DepthAtMost(run, m) && m <= n
    ensures DepthAtMost(run, n)
    decreases run
  {
    forall k | 0 <= k < |run.faults| ensures ShallowList(run.faults[k].list, n - 1) {
      assert ShallowList(run.faults[k].list, m - 1);
      forall j | 0 <= j < |run.faults[k].list| ensures DepthAtMost(run.faults[k].list[j], n - 1) {
        Deeper(run.faults[k].list[j], m - 1, n - 1);
      }
    }
  }

  // The same where the way back is lost: the last instruction then runs with esp anywhere.
  function Deepest(eip: nat, early: bool): nat {
    if early then MOST_FRAMES else WORD / 4 + (if eip == X_TOP then 1012 else 1011)
  }

  lemma AllRoom(esp: nat, early: bool)
    requires esp < WORD
    ensures Room(esp, early) <= Deepest(0, early)
    ensures OnX(esp) && esp <= (if early then X_TOP - 52 else X_TOP - 4) ==> Room(esp, early) <= Deepest(0, early) - 1
    ensures !early ==> Room(esp, early) <= Deepest(0, early) - 1
  {}

  // A fault nested at s, whatever it is to leave alone.
  lemma DepthAnywhere(s: State, run: Run, code: Code, keep: nat -> bool, early: bool)
    requires Valid(s) && !Lost(s) && Placed(code) && Fault(s, run, code, keep).Some? && (early ==> Early(run))
    ensures DepthAtMost(run, Room(s.esp, early))
  {
    hide Valid, Fault, Keepable, Room, DepthAtMost;
    NothingKept(s.esp);
    FaultWeaker(s, run, code, keep, Nothing());
    DepthBound(s, run, code, Nothing(), early);
  }

  lemma {:induction false} TopDepthFaults(s: State, k: nat, j: nat, s0: State, run: Run, code: Code, early: bool)
    requires Fits(run) && TopMid(k, s, s0, code) && k < 14 && Faults(s, k, j, run, code, Nothing(), X_TOP).Some?
    requires early ==> Early(run)
    ensures forall i :: j <= i < |run.faults[k].list| ==> DepthAtMost(run.faults[k].list[i], Deepest(s0.eip, early) - 1)
    decreases |run.faults[k].list| - j
  {
    hide Load, PopRegs, Push, From, Kept, Fault, Room, DepthAtMost, Early, Deepest;
    if j < |run.faults[k].list| {
      var r, need := run.faults[k].list[j], NeededAt(Nothing(), X_TOP, s.esp, k);
      if early { EarlyAt(run, k, j); }
      DepthAnywhere(s, r, code, need, early);
      AllRoom(s.esp, early);
      MoreAtTop(s0.eip, early);
      Deeper(r, Room(s.esp, early), Deepest(s0.eip, early) - 1);
      FaultInvisible(s, r, code, need);
      TopSame(k, s, Fault(s, r, code, need).value, s0, code);
      TopDepthFaults(Fault(s, r, code, need).value, k, j + 1, s0, run, code, early);
    }
  }

  lemma MoreAtTop(eip: nat, early: bool)
    ensures Deepest(0, early) <= Deepest(eip, early)
  {}

  lemma {:induction false} TopDepthLast(s: State, j: nat, s0: State, run: Run, code: Code)
    requires Fits(run) && Valid(s0) && Placed(code) && Valid(s) && Faults(s, 14, j, run, code, Nothing(), X_TOP).Some?
    requires (s.eip == code.upcall + 14 && s.esp == s0.eip) || (s.esp == code.upcall + 18 && s0.eip == X_TOP)
    ensures forall i :: j <= i < |run.faults[14].list| ==>
              DepthAtMost(run.faults[14].list[i], Deepest(s0.eip, false) - 1)
    decreases run, 2, |run.faults[14].list| - j
  {
    FaultLists(run);
    hide Load, Push, From, Kept, Fits, Keepable, Restored, Room, DepthAtMost;
    if j < |run.faults[14].list| {
      var r, need := run.faults[14].list[j], NeededAt(Nothing(), X_TOP, s.esp, 14);
      var t := Fault(s, r, code, need).value;
      FaultWeaker(s, r, code, need, Nothing());
      if s.esp == X_TOP {
        DepthAtTop(s, r, code, need, false);
        Deeper(r, Deepest(s.eip, false), Deepest(s0.eip, false) - 1);
        TopLoses(s, r, code);
      } else {
        DepthAnywhere(s, r, code, need, false);
        AllRoom(s.esp, false);
        Deeper(r, Room(s.esp, false), Deepest(s0.eip, false) - 1);
        NothingKept(s.esp);
        FaultInvisible(s, r, code, Nothing());
        SameAfter(s, t);
      }
      TopDepthLast(t, j + 1, s0, run, code);
    }
  }

  lemma {:induction false} TopDepthFrom(s: State, k: nat, s0: State, run: Run, code: Code, early: bool)
    requires Fits(run) && k < LENGTH && Valid(s0) && s0.esp == X_TOP && Placed(code)
    requires if k <= 8 then Mid(k, s, s0, Nothing(), code) else TopMid(k, s, s0, code)
    requires From(s, k, run, code, Nothing(), X_TOP).Some? && (early ==> Early(run))
    ensures forall i :: k <= i < LENGTH ==> ShallowList(run.faults[i].list, Deepest(s0.eip, early) - 1)
    decreases run, 2 * (LENGTH - k) + 1, 0
  {
    hide Mid, Keepable, Exec, Restored, Fits, HandlerOk, TopMid, Load, FrameBase, Valid, DepthAtMost, Room, Deepest,
      Early;
    FaultLists(run);
    TopRoom(s0.eip, early);
    NothingKept(X_TOP);
    var s1 := Faults(s, k, 0, run, code, Nothing(), X_TOP).value;
    if k == 14 {
      TopStart(s, s0, code);
      if early { EarlyLast(run, Deepest(s0.eip, early) - 1); } else { TopDepthLast(s, 0, s0, run, code); }
    } else {
      var s2 := Exec(s1, k, run, code).value;
      if k <= 8 {
        DepthFaults(s, k, 0, s0, run, code, Nothing(), early);
        DeeperList(run.faults[k].list, Room(X_TOP, early) - 1, Deepest(s0.eip, early) - 1);
        FaultsInvisible(s, k, 0, s0, run, code, Nothing());
        if k < 8 { MidStep(k, s1, s0, run, code, Nothing()); } else { TopStore(s1, s0, run, code); }
      } else {
        TopDepthFaults(s, k, 0, s0, run, code, early);
        TopFaults(s, k, 0, s0, run, code);
        TopStep(k, s1, s0, run, code);
      }
      TopDepthFrom(s2, k + 1, s0, run, code, early);
    }
  }

  lemma FaultLists(run: Run)
    requires Fits(run)
    ensures |run.faults| == LENGTH
  {}

  lemma TopRoom(eip: nat, early: bool)
    ensures 1 <= Room(X_TOP, early) <= Deepest(eip, early)
  {}

  lemma EarlyLast(run: Run, n: nat)
    requires Early(run) && |run.faults| == LENGTH
    ensures ShallowList(run.faults[14].list, n)
  {
    if run.faults[14].list != [] { EarlyAt(run, 14, 0); }
  }

  lemma DeeperList(list: seq<Run>, m: nat, n: nat)
    requires ShallowList(list, m) && m <= n
    ensures ShallowList(list, n)
  {
    forall j | 0 <= j < |list| ensures DepthAtMost(list[j], n) { Deeper(list[j], m, n); }
  }

  /** The depth of a handled fault at UXSTACKTOP: at most 73 if no fault strikes above the frame
      being unwound, and otherwise still bounded by the size of the address space. */
  lemma {:induction false} DepthAtTop(s: State, run: Run, code: Code, keep: nat -> bool, early: bool)
    requires Valid(s) && s.esp == X_TOP && Placed(code) && Fault(s, run, code, keep).Some? && (early ==> Early(run))
    ensures DepthAtMost(run, Deepest(s.eip, early))
    decreases run, 100, 0
  {
    hide Mid, Keepable, Valid, Fits, Push, From, Early;
    NothingKept(X_TOP);
    FaultWeaker(s, run, code, keep, Nothing());
    PushMid(s, run, code, Nothing());
    FaultLists(run);
    TopRoom(s.eip, early);
    TopDepthFrom(Push(s, run, code).value, 0, s, run, code, early);
  }
}
