/** The environment table (inc/env.h, kern/env.c): records, identifiers and their lookup. */
module Envs {
  import opened Mmu

  const NENV := 1024
  const MAXIPCWAITING := 10

  datatype Status = Free | Dying | Runnable | Running | NotRunnable

  // The fields of struct Env that memory calls, scheduling and IPC depend on.
  datatype Env = Env(
    id: int, parent: int, status: Status,
    recving: bool, dstva: nat, value: nat, from: int, perm: bv12,
    head: nat, tail: nat, waiting: seq<int>)

  // ENVX: the low ten bits, also of a negative number in two's complement
  function EnvX(id: int): nat { id % 1024 }

  function Wrap32(x: int): int { (x + 0x8000_0000) % 0x1_0000_0000 - 0x8000_0000 }

  // The identifier env_alloc gives to the next tenant of `slot`, after the tenant `last`.
  function NextId(last: int, slot: nat): int {
    var sum := Wrap32(last + 0x1000);
    var generation := sum - sum % 1024;
    (if generation <= 0 then 0x1000 else generation) + slot
  }

  // The record that env_alloc leaves: everything else is what the last tenant left.
  function NewTenant(t: Env, slot: nat, parent: int, status: Status): Env {
    t.(id := NextId(t.id, slot), parent := parent, status := status, recving := false)
  }

  // The identifier of the n-th tenant of a slot; 0 before the first.
  function IdAt(slot: nat, n: nat): int {
    if n == 0 then 0 else NextId(IdAt(slot, n - 1), slot)
  }

  const GENERATIONS := 0x7FFFF

  lemma NextGeneration(g: nat, slot: nat)
    requires slot < NENV && g <= GENERATIONS
    ensures NextId(0x1000 * g + slot, slot) == 0x1000 * (if g == GENERATIONS then 1 else g + 1) + slot
    ensures (0x1000 * g + slot) % 1024 == slot
  {
    LowBits(4 * g, slot);
    LowBits(4 * (g + 1), slot);
  }

  lemma LowBits(q: nat, slot: nat)
    requires slot < 1024
    ensures (1024 * q + slot) % 1024 == slot
  {
  }

  lemma {:induction false} IdClosedForm(slot: nat, n: nat)
    requires slot < NENV && n >= 1
    ensures IdAt(slot, n) == 0x1000 * ((n - 1) % GENERATIONS + 1) + slot
  {
    if n == 1 {
      assert IdAt(slot, 0) == 0;
    } else {
      IdClosedForm(slot, n - 1);
      NextGeneration((n - 2) % GENERATIONS + 1, slot);
      NextResidue(n - 2);
    }
  }

  lemma NextResidue(x: nat)
    ensures (x + 1) % GENERATIONS == if x % GENERATIONS + 1 == GENERATIONS then 0 else x % GENERATIONS + 1
  {}

  /** Every identifier is a positive 32-bit number that names its slot. */
  lemma IdsArePositive(slot: nat, n: nat)
    requires slot < NENV && n >= 1
    ensures 0 < IdAt(slot, n) < 0x8000_0000 && EnvX(IdAt(slot, n)) == slot
  {
    IdClosedForm(slot, n);
    NextGeneration((n - 1) % GENERATIONS + 1, slot);
  }

  lemma NextIdNamesSlot(last: int, slot: nat)
    requires slot < NENV && 0 <= last < 0x8000_0000
    ensures 0 < NextId(last, slot) < 0x8000_0000 && EnvX(NextId(last, slot)) == slot
  {}

  /** Two tenants of a slot share an identifier exactly when a whole number of rounds of
      2^19 - 1 allocations lies between them. */
  lemma IdsRepeat(slot: nat, m: nat, n: nat)
    requires slot < NENV && 1 <= m <= n
    ensures IdAt(slot, m) == IdAt(slot, n) <==> (n - m) % GENERATIONS == 0
  {
    IdClosedForm(slot, m);
    IdClosedForm(slot, n);
    hide IdAt, NextId;
    SameRound(m - 1, n - 1);
  }

  lemma SameRound(x: nat, y: nat)
    requires x <= y
    ensures x % GENERATIONS == y % GENERATIONS <==> (y - x) % GENERATIONS == 0
  {
    var q, d := y / GENERATIONS - x / GENERATIONS, y % GENERATIONS - x % GENERATIONS;
    if d >= 0 { Residue(y - x, q, d); } else { Residue(y - x, q - 1, d + GENERATIONS); }
  }

  lemma Residue(n: nat, q: int, d: nat)
    requires n == GENERATIONS * q + d && d < GENERATIONS
    ensures n % GENERATIONS == d
  {}

  // envid2env for a caller whose slot is `cur`; None stands for -E_BAD_ENV
  function Envid2Env(envs: seq<Env>, cur: nat, id: int, checkperm: bool): Option<nat>
    requires |envs| == NENV && cur < NENV
  {
    if id == 0 then Some(cur)
    else
      var e := EnvX(id);
      if envs[e].status.Free? || envs[e].id != id then None
      else if checkperm && e != cur && envs[e].parent != envs[cur].id then None
      else Some(e)
  }

  /** A dead tenant's identifier is refused while the slot is free, and by every later tenant
      until 2^19 - 1 of them have come and gone; the tenant itself is found, with permission checked
      by itself and its parent only. */
  lemma StaleIdRefused(envs: seq<Env>, cur: nat, slot: nat, m: nat, n: nat, checkperm: bool)
    requires |envs| == NENV && cur < NENV && slot < NENV && 1 <= m <= n < m + GENERATIONS
    requires envs[slot].id == IdAt(slot, n)
    ensures m < n || envs[slot].status.Free? ==> Envid2Env(envs, cur, IdAt(slot, m), checkperm) == None
    ensures m == n && !envs[slot].status.Free? ==>
              Envid2Env(envs, cur, IdAt(slot, m), checkperm)
              == if !checkperm || slot == cur || envs[slot].parent == envs[cur].id then Some(slot) else None
  {
    hide IdAt, NextId;
    IdsArePositive(slot, m);
    IdsRepeat(slot, m, n);
    Residue(n - m, 0, n - m);
  }
}
