/** Round-robin scheduling (kern/sched.c): which environment sched_yield picks. */
module Sched {
  import opened Mmu
  import opened Envs

  datatype Choice = Run(e: nat) | Halt | Monitor

  // The slot that the i-th round of the scan looks at.
  function Slot(offset: nat, i: nat): nat { (i + offset) % NENV }

  // How far ahead of `from` slot e lies, going round.
  function Ahead(from: nat, e: nat): nat
    requires from < NENV && e < NENV
  {
    (e + NENV - from) % NENV
  }

  predicate RunnableAt(envs: seq<Env>, e: nat) { e < |envs| && envs[e].status == Runnable }

  predicate SomeoneAlive(envs: seq<Env>) {
    exists e :: 0 <= e < |envs| && (envs[e].status == Runnable || envs[e].status == Running || envs[e].status == Dying)
  }

  /** The choice, said without a scan: the first runnable slot going round from that of the
      current environment, else the current one if it still runs, else nothing. */
  ghost predicate Picks(envs: seq<Env>, cur: Option<nat>, c: Choice)
    requires |envs| == NENV && (cur.Some? ==> cur.value < NENV)
  {
    var from := if cur.Some? then EnvX(envs[cur.value].id) else 0;
    match c
    case Run(e) =>
      && e < NENV
      && if RunnableAt(envs, e) then forall d :: 0 <= d < NENV && RunnableAt(envs, d) ==>
           Ahead(from, e) <= Ahead(from, d)
         else (forall d :: 0 <= d < NENV ==> !RunnableAt(envs, d)) && cur == Some(e) && envs[e].status == Running
    case _ =>
      && (forall d :: 0 <= d < NENV ==> !RunnableAt(envs, d))
      && (cur.Some? ==> envs[cur.value].status != Running)
      && (c.Halt? <==> SomeoneAlive(envs))
  }

  lemma SlotAhead(from: nat, i: nat)
    requires from < NENV && i < NENV
    ensures Ahead(from, Slot(from, i)) == i
  {}

  lemma AheadSlot(from: nat, e: nat)
    requires from < NENV && e < NENV
    ensures Slot(from, Ahead(from, e)) == e
  {}

  lemma AheadDistinct(from: nat, d: nat, e: nat)
    requires from < NENV && d < NENV && e < NENV && Ahead(from, d) == Ahead(from, e)
    ensures d == e
  {
    AheadSlot(from, d);
    AheadSlot(from, e);
  }

  /** There is exactly one choice. */
  lemma PicksOne(envs: seq<Env>, cur: Option<nat>, c: Choice, c': Choice)
    requires |envs| == NENV && (cur.Some? ==> cur.value < NENV)
    requires Picks(envs, cur, c) && Picks(envs, cur, c')
    ensures c == c'
  {
    if c.Run? && c'.Run? && RunnableAt(envs, c.e) {
      AheadDistinct(if cur.Some? then EnvX(envs[cur.value].id) else 0, c.e, c'.e);
    }
  }

  /** The CPU halts, or falls into the monitor, only when nothing can run: into the monitor exactly if
      no environment is runnable, running or dying; and a current environment that still runs is
      never given up for that. */
  lemma StopsOnlyIdle(envs: seq<Env>, cur: Option<nat>, c: Choice)
    requires |envs| == NENV && (cur.Some? ==> cur.value < NENV) && Picks(envs, cur, c)
    ensures c.Monitor? <==> forall e :: 0 <= e < NENV ==> envs[e].status == Free || envs[e].status == NotRunnable
    ensures c.Run? <==> (exists e :: 0 <= e < NENV && envs[e].status == Runnable)
                        || (cur.Some? && envs[cur.value].status == Running)
    ensures c.Run? ==> c.e < NENV && (envs[c.e].status == Runnable || (cur == Some(c.e) && envs[c.e].status == Running))
  {
    if c.Run? && RunnableAt(envs, c.e) { assert envs[c.e].status == Runnable; }
    if e :| 0 <= e < NENV && envs[e].status == Runnable { assert RunnableAt(envs, e); }
    if cur.Some? && envs[cur.value].status == Running { assert SomeoneAlive(envs); }
  }

  /** sched_yield up to its env_run or sched_halt, and the scan that opens sched_halt. */
  method SchedYield(envs: array<Env>, curenv: Option<nat>) returns (c: Choice)
    requires envs.Length == NENV && (curenv.Some? ==> curenv.value < NENV)
    ensures Picks(envs[..], curenv, c)
  {
    var offset := if curenv.Some? then EnvX(envs[curenv.value].id) else 0;
    var i := 0;
    while i < NENV
      invariant 0 <= i <= NENV
      invariant forall d :: 0 <= d < NENV && Ahead(offset, d) < i ==> envs[d].status != Runnable
    {
      var id := (i + offset) % NENV;
      SlotAhead(offset, i);
      if envs[id].status == Runnable { return Run(id); }
      forall d | 0 <= d < NENV && Ahead(offset, d) == i ensures d == id { AheadDistinct(offset, d, id); }
      i := i + 1;
    }
    if curenv.Some? && envs[curenv.value].status == Running { return Run(curenv.value); }
    i := 0;
    while i < NENV
      invariant 0 <= i <= NENV
      invariant forall d :: 0 <= d < i ==>
                  envs[d].status != Runnable && envs[d].status != Running && envs[d].status != Dying
    {
      if envs[i].status == Runnable || envs[i].status == Running || envs[i].status == Dying { break; }
      i := i + 1;
    }
    if i == NENV { return Monitor; }
    assert envs[..][i] == envs[i];
    return Halt;
  }

  /** Going one runnable environment ahead brings a waiting one strictly closer. */
  lemma PickedIsCloser(envs: seq<Env>, cur: nat, t: nat, c: Choice)
    requires |envs| == NENV && cur < NENV && EnvX(envs[cur].id) == cur && t < NENV
    requires Picks(envs, Some(cur), c) && RunnableAt(envs, t) && !RunnableAt(envs, cur)
    ensures c.Run? && c.e < NENV && Ahead(c.e, t) < Ahead(cur, t)
  {
    assert Ahead(cur, c.e) <= Ahead(cur, t);
    if Ahead(cur, c.e) == 0 { AheadDistinct(cur, cur, c.e); }
  }
}
