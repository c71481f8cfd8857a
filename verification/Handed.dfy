/** What the handler of page faults is given (page_fault_handler of kern/trap.c, struct UTrapframe of
    inc/trap.h, and the first instructions of lib/pfentry.S). */
module Handed {
  import opened Mmu
  import opened Upcall

  /** The frame of a fault at s0, field by field, in the order of struct UTrapframe. */
  ghost predicate Frame(m: Mem, base: nat, s0: State, run: Run) {
    && Load(m, base) == run.va          // utf_fault_va
    && Load(m, base + 4) == run.err     // utf_err
    && Load(m, base + 8) == s0.regs.edi // utf_regs, as pushal leaves them
    && Load(m, base + 12) == s0.regs.esi
    && Load(m, base + 16) == s0.regs.ebp
    && Load(m, base + 20) == run.oesp
    && Load(m, base + 24) == s0.regs.ebx
    && Load(m, base + 28) == s0.regs.edx
    && Load(m, base + 32) == s0.regs.ecx
    && Load(m, base + 36) == s0.regs.eax
    && Load(m, base + 40) == s0.eip     // utf_eip
    && Load(m, base + 44) == s0.eflags  // utf_eflags
    && Load(m, base + 48) == s0.esp     // utf_esp
  }

  lemma FrameSame(m: Mem, m': Mem, base: nat, s0: State, run: Run)
    requires Frame(m, base, s0, run) && Same(m, m', base, base + 52)
    ensures Frame(m', base, s0, run)
  {
    hide Load;
    LoadSame(m, m', base, base + 52, base);
    LoadSame(m, m', base, base + 52, base + 4);
    LoadSame(m, m', base, base + 52, base + 8);
    LoadSame(m, m', base, base + 52, base + 12);
    LoadSame(m, m', base, base + 52, base + 16);
    LoadSame(m, m', base, base + 52, base + 20);
    LoadSame(m, m', base, base + 52, base + 24);
    LoadSame(m, m', base, base + 52, base + 28);
    LoadSame(m, m', base, base + 52, base + 32);
    LoadSame(m, m', base, base + 52, base + 36);
    LoadSame(m, m', base, base + 52, base + 40);
    LoadSame(m, m', base, base + 52, base + 44);
    LoadSame(m, m', base, base + 52, base + 48);
  }

  lemma PushFrame(s: State, run: Run, code: Code)
    requires Valid(s) && Fits(run) && Push(s, run, code).Some?
    ensures FrameBase(s.esp) >= X_BASE && Frame(Push(s, run, code).value.mem, FrameBase(s.esp), s, run)
    ensures Push(s, run, code).value.regs == s.regs && Push(s, run, code).value.eflags == s.eflags
  {
    var base: nat, ws := FrameBase(s.esp), FrameWords(s, run);
    var m := Push(s, run, code).value.mem;
    assert m == StoreAll(s.mem, base, ws) && |ws| == 13;
    hide StoreAll, Load, FrameBase, Push;
    forall i: nat | i < 13 ensures Load(m, base + 4 * i) == ws[i] { FrameWord(s, run, base, i, base + 4 * i, ws[i]); }
    WordsAreFrame(m, base, s, run);
  }

  lemma WordsAreFrame(m: Mem, base: nat, s: State, run: Run)
    requires forall i: nat :: i < 13 ==> Load(m, base + 4 * i) == FrameWords(s, run)[i]
    ensures Frame(m, base, s, run)
  {
    hide Load;
    var ws := FrameWords(s, run);
    assert Load(m, base + 4 * 0) == ws[0] && Load(m, base + 4 * 1) == ws[1] && Load(m, base + 4 * 2) == ws[2];
    assert Load(m, base + 4 * 3) == ws[3] && Load(m, base + 4 * 4) == ws[4] && Load(m, base + 4 * 5) == ws[5];
    assert Load(m, base + 4 * 6) == ws[6] && Load(m, base + 4 * 7) == ws[7] && Load(m, base + 4 * 8) == ws[8];
    assert Load(m, base + 4 * 9) == ws[9] && Load(m, base + 4 * 10) == ws[10] && Load(m, base + 4 * 11) == ws[11];
    assert Load(m, base + 4 * 12) == ws[12];
  }

  /** Before instruction k of the upcall, up to the call: the frame, its address as the argument,
      and the handler in eax. */
  ghost predicate Ready(k: nat, s: State, s0: State, run: Run, code: Code) {
    var base := FrameBase(s0.esp);
    && base >= X_BASE && k <= 2 && Frame(s.mem, base, s0, run)
    && (k >= 1 ==> base - 4 >= X_BASE && Load(s.mem, base - 4) == base)
    && s.regs == (if k == 2 then s0.regs.(eax := code.handler) else s0.regs) && s.eflags == s0.eflags
  }

  lemma ReadyNext(k: nat, s: State, s0: State, run: Run, code: Code, keep: nat -> bool)
    requires k < 2 && Fits(run) && Mid(k, s, s0, keep, code) && Ready(k, s, s0, run, code)
             && Exec(s, k, run, code).Some?
    ensures Ready(k + 1, Exec(s, k, run, code).value, s0, run, code)
  {
    hide Load, Store, Frame, WordsAt, Kept, Valid, RegsAt;
    BaseFacts(k, s, s0, keep, code);
    if k == 0 {
      var base: nat := FrameBase(s0.esp);
      assert s.esp == base;
      StoreSame(s.mem, base - 4, base, base, base + 52);
      FrameSame(s.mem, Store(s.mem, base - 4, base), base, s0, run);
      LoadStored(s.mem, base - 4, base);
    }
  }

  lemma ReadyRestored(k: nat, s: State, s': State, s0: State, run: Run, code: Code, keep: nat -> bool)
    requires Mid(k, s, s0, keep, code) && Ready(k, s, s0, run, code)
    requires Restored(s', s, NeededAt(keep, s0.esp, s.esp, k))
    ensures Ready(k, s', s0, run, code)
  {
    hide Load, Frame, WordsAt, RegsAt;
    BaseFacts(k, s, s0, keep, code);
    var base: nat, now: nat := FrameBase(s0.esp), s.esp;
    forall x: nat | now <= x < base + 52 ensures s'.mem(x) == s.mem(x) {
      assert NeededAt(keep, s0.esp, s.esp, k)(x);
    }
    FrameSame(s.mem, s'.mem, base, s0, run);
    if k >= 1 { LoadSame(s.mem, s'.mem, now, base + 52, base - 4); }
  }

  // Faults before instruction k leave all that in place.
  lemma {:induction false} ReadyFaults(s: State, k: nat, j: nat, s0: State, run: Run, code: Code, keep: nat -> bool)
    requires Fits(run) && k <= 2 && Mid(k, s, s0, keep, code) && Keepable(keep, s0.esp) && Ready(k, s, s0, run, code)
    requires Faults(s, k, j, run, code, keep, s0.esp).Some?
    ensures Ready(k, Faults(s, k, j, run, code, keep, s0.esp).value, s0, run, code)
    decreases |run.faults[k].list| - j
  {
    hide Mid, Keepable, Ready, Fault, NeededAt;
    if j < |run.faults[k].list| {
      ReadyFault(s, k, run.faults[k].list[j], s0, run, code, keep);
      var s1 := Fault(s, run.faults[k].list[j], code, NeededAt(keep, s0.esp, s.esp, k)).value;
      ReadyFaults(s1, k, j + 1, s0, run, code, keep);
    }
  }

  lemma ReadyFault(s: State, k: nat, r: Run, s0: State, run: Run, code: Code, keep: nat -> bool)
    requires Fits(run) && k <= 2 && Mid(k, s, s0, keep, code) && Keepable(keep, s0.esp) && Ready(k, s, s0, run, code)
    requires Fault(s, r, code, NeededAt(keep, s0.esp, s.esp, k)).Some?
    ensures var s1 := Fault(s, r, code, NeededAt(keep, s0.esp, s.esp, k)).value;
            Mid(k, s1, s0, keep, code) && Ready(k, s1, s0, run, code)
  {
    hide Mid, Keepable, Restored, NeededAt, WordsAt, RegsAt, Kept, EspAt, FrameBase, Valid, Push, From, Ready, Fault;
    BaseFacts(k, s, s0, keep, code);
    NeededKeepable(k, s, s0, keep, code);
    NestedAt(k, s, s0, keep, code);
    var need := NeededAt(keep, s0.esp, s.esp, k);
    FaultInvisible(s, r, code, need);
    ReadyRestored(k, s, Fault(s, r, code, need).value, s0, run, code, keep);
    MidRestored(k, s, Fault(s, r, code, need).value, s0, keep, code);
  }

  lemma NestedAt(k: nat, s: State, s0: State, keep: nat -> bool, code: Code)
    requires Mid(k, s, s0, keep, code) && k <= 2
    ensures !Lost(s)
  {}

  /** The states before instructions 1 and 2 of the upcall complete, nested faults handled. */
  ghost function Began(s: State, run: Run, code: Code, keep: nat -> bool, k: nat): Option<State>
    requires k <= 2
  {
    if !Fits(run) || s.esp < 4 || Push(s, run, code).None? then None
    else if k == 0 then Faults(Push(s, run, code).value, 0, 0, run, code, keep, s.esp)
    else
      var s1 := Began(s, run, code, keep, k - 1);
      if s1.None? || Exec(s1.value, k - 1, run, code).None? then None
      else Faults(Exec(s1.value, k - 1, run, code).value, k, 0, run, code, keep, s.esp)
  }

  /** A fault that is handled does get there. */
  lemma CallReached(s: State, run: Run, code: Code, keep: nat -> bool)
    requires Fault(s, run, code, keep).Some?
    ensures Began(s, run, code, keep, 2).Some?
    ensures HandlerOk(Began(s, run, code, keep, 2).value.mem, run, keep, FrameBase(s.esp))
  {
    hide Faults, HandlerOk, Push;
    var s0 := Push(s, run, code).value;
    var t0 := Began(s, run, code, keep, 0).value;
    assert From(s0, 0, run, code, keep, s.esp) == From(Exec(t0, 0, run, code).value, 1, run, code, keep, s.esp);
    var t1 := Began(s, run, code, keep, 1).value;
    assert From(Exec(t0, 0, run, code).value, 1, run, code, keep, s.esp)
           == From(Exec(t1, 1, run, code).value, 2, run, code, keep, s.esp);
  }

  /** What the C handler is called with, whatever faults struck on the way: the address of the frame
      as its argument, registers as they were but eax, and in the frame the address and the error code
      of this fault and the state that it interrupted, each field where struct UTrapframe has it. */
  lemma CallSees(s: State, run: Run, code: Code, keep: nat -> bool)
    requires Valid(s) && Keepable(keep, s.esp) && code.upcall + LENGTH < WORD && code.handler < WORD
    requires Began(s, run, code, keep, 2).Some?
    ensures var t, base := Began(s, run, code, keep, 2).value, FrameBase(s.esp);
            && base >= X_BASE && t.eip == code.upcall + 2
            && t.regs == s.regs.(eax := code.handler) && t.eflags == s.eflags
            && t.esp == base - 4 && Load(t.mem, t.esp) == base
            && Frame(t.mem, base, s, run) && Kept(keep, s.mem, t.mem)
  {
    hide Mid, Keepable, Valid, Push, Exec, Load, Frame, Faults, EspAt, WordsAt, RegsAt, Kept, HandlerOk, Fits;
    assert Began(s, run, code, keep, 1).Some?;
    assert Began(s, run, code, keep, 0).Some?;
    PushMid(s, run, code, keep);
    PushFrame(s, run, code);
    var s0 := Push(s, run, code).value;
    ReadyFaults(s0, 0, 0, s, run, code, keep);
    FaultsInvisible(s0, 0, 0, s, run, code, keep);
    var t0 := Began(s, run, code, keep, 0).value;
    ReadyNext(0, t0, s, run, code, keep);
    MidStep(0, t0, s, run, code, keep);
    var s1 := Exec(t0, 0, run, code).value;
    ReadyFaults(s1, 1, 0, s, run, code, keep);
    FaultsInvisible(s1, 1, 0, s, run, code, keep);
    var t1 := Began(s, run, code, keep, 1).value;
    ReadyNext(1, t1, s, run, code, keep);
    MidStep(1, t1, s, run, code, keep);
    var s2 := Exec(t1, 1, run, code).value;
    ReadyFaults(s2, 2, 0, s, run, code, keep);
    FaultsInvisible(s2, 2, 0, s, run, code, keep);
    CallFacts(Began(s, run, code, keep, 2).value, s, keep, code);
  }

  lemma CallFacts(t: State, s0: State, keep: nat -> bool, code: Code)
    requires Mid(2, t, s0, keep, code)
    ensures t.eip == code.upcall + 2 && t.esp == FrameBase(s0.esp) - 4 && Kept(keep, s0.mem, t.mem)
  {
    hide Load, Kept, WordsAt;
  }

  // ---------- which faults are handled

  /** There is room on the stack for the frame, the argument and the return address of the call, and
      the word below the stack pointer of the interrupted code can be written. */
  predicate Handleable(esp: nat) { esp >= 4 && FrameBase(esp) - 8 >= X_BASE && UserWord(esp - 4) }

  lemma {:induction false} FromNeeds(s: State, k: nat, s0: State, run: Run, code: Code, keep: nat -> bool)
    requires Fits(run) && k < LENGTH && Mid(k, s, s0, keep, code) && !Lost(s0) && Keepable(keep, s0.esp)
    requires From(s, k, run, code, keep, s0.esp).Some?
    ensures UserWord(s0.esp - 4) && (k <= 2 ==> FrameBase(s0.esp) - 8 >= X_BASE)
    decreases LENGTH - k
  {
    hide Keepable, Fits, HandlerOk, FrameBase, UserWord, Restored, Kept, WordsAt, RegsAt;
    if k < 9 {
      FaultsInvisible(s, k, 0, s0, run, code, keep);
      var s1 := Faults(s, k, 0, run, code, keep, s0.esp).value;
      if k == 2 { CallRoom(s1, s0, run, code, keep); }
      MidStep(k, s1, s0, run, code, keep);
      FromNeeds(Exec(s1, k, run, code).value, k + 1, s0, run, code, keep);
    }
  }

  lemma CallRoom(s: State, s0: State, run: Run, code: Code, keep: nat -> bool)
    requires Fits(run) && Mid(2, s, s0, keep, code) && Exec(s, 2, run, code).Some?
    ensures FrameBase(s0.esp) - 8 >= X_BASE
  {
    hide Kept, WordsAt;
  }

  lemma FaultNeeds(s: State, run: Run, code: Code, keep: nat -> bool)
    requires Valid(s) && !Lost(s) && Keepable(keep, s.esp) && code.upcall + LENGTH < WORD && code.handler < WORD
    requires Fault(s, run, code, keep).Some?
    ensures Handleable(s.esp)
  {
    hide Mid, Keepable, Valid, Fits;
    PushMid(s, run, code, keep);
    FromNeeds(Push(s, run, code).value, 0, s, run, code, keep);
  }

  // A fault that is reported like this, with a handler that changes nothing, and none nested in it.
  function Calm(s: State, va: nat, err: nat, oesp: nat): Run {
    Run(va, err, oesp, s.regs, s.eflags, s.mem, seq(LENGTH, i => 0), seq(LENGTH, i => Runs([])))
  }

  // Memory when the handler is called.
  function CallMem(s: State, va: nat, err: nat, oesp: nat): Mem
    requires FrameBase(s.esp) >= 4
  {
    var base := FrameBase(s.esp);
    Store(StoreAll(s.mem, base, FrameWords(s, Calm(s, va, err, oesp))), base - 4, base)
  }

  ghost predicate CalmRun(run: Run, m: Mem) {
    Fits(run) && run.mem == m && forall k :: 0 <= k < LENGTH ==> run.faults[k].list == []
  }

  lemma CalmStep(s: State, k: nat, s0: State, run: Run, code: Code, keep: nat -> bool, m: Mem)
    requires k < LENGTH && Mid(k, s, s0, keep, code) && CalmRun(run, m) && Handleable(s0.esp)
    requires k == 0 ==> Store(s.mem, FrameBase(s0.esp) - 4, FrameBase(s0.esp)) == m
    requires 1 <= k <= 2 ==> s.mem == m
    ensures Exec(s, k, run, code).Some? && (k == 2 ==> HandlerOk(s.mem, run, keep, FrameBase(s0.esp)))
    ensures k <= 1 ==> Exec(s, k, run, code).value.mem == m
  {
    hide Kept, WordsAt, Store, Load, PopRegs;
  }

  lemma {:induction false} CalmFrom(s: State, k: nat, s0: State, run: Run, code: Code, keep: nat -> bool, m: Mem)
    requires k < LENGTH && Mid(k, s, s0, keep, code) && !Lost(s0) && Keepable(keep, s0.esp) && CalmRun(run, m)
    requires Handleable(s0.esp)
    requires k == 0 ==> Store(s.mem, FrameBase(s0.esp) - 4, FrameBase(s0.esp)) == m
    requires 1 <= k <= 2 ==> s.mem == m
    ensures From(s, k, run, code, keep, s0.esp).Some?
    decreases LENGTH - k
  {
    hide Mid, Keepable, Fits, HandlerOk, FrameBase, UserWord, Exec, Store, Handleable;
    CalmStep(s, k, s0, run, code, keep, m);
    assert Faults(s, k, 0, run, code, keep, s0.esp) == Some(s);
    var s1 := Exec(s, k, run, code).value;
    if k == 14 {
      assert From(s1, 15, run, code, keep, s0.esp) == Some(s1);
    } else {
      MidStep(k, s, s0, run, code, keep);
      CalmFrom(s1, k + 1, s0, run, code, keep, m);
    }
  }

  /** Whatever fault is reported there, it is handled: exactly with that room. */
  lemma FaultHappens(s: State, va: nat, err: nat, oesp: nat, code: Code, keep: nat -> bool)
    requires Valid(s) && !Lost(s) && Keepable(keep, s.esp) && code.upcall + LENGTH < WORD && code.handler < WORD
    requires va < WORD && err < WORD && oesp < WORD
    ensures Handleable(s.esp) <==>
              exists run: Run :: run.va == va && run.err == err && run.oesp == oesp && Fault(s, run, code, keep).Some?
  {
    hide Mid, Keepable, Fault, Valid, Handleable;
    if Handleable(s.esp) { CalmHappens(s, va, err, oesp, code, keep); }
    if run: Run :| run.va == va && run.err == err && run.oesp == oesp && Fault(s, run, code, keep).Some? {
      FaultNeeds(s, run, code, keep);
    }
  }

  lemma CalmHappens(s: State, va: nat, err: nat, oesp: nat, code: Code, keep: nat -> bool)
    requires Valid(s) && !Lost(s) && Keepable(keep, s.esp) && code.upcall + LENGTH < WORD && code.handler < WORD
    requires va < WORD && err < WORD && oesp < WORD && Handleable(s.esp)
    ensures Fault(s, Calm(s, va, err, oesp).(mem := CallMem(s, va, err, oesp)), code, keep).Some?
  {
    var m := CallMem(s, va, err, oesp);
    var run := Calm(s, va, err, oesp).(mem := m);
    assert Fits(run) && FrameWords(s, run) == FrameWords(s, Calm(s, va, err, oesp)) by {
      hide Push, Mid, Keepable, Store, StoreAll, Fault;
    }
    PushMid(s, run, code, keep);
    hide Mid, Keepable, Store, StoreAll, FrameWords, Valid;
    CalmFrom(Push(s, run, code).value, 0, s, run, code, keep, m);
  }
}
