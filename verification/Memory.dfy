/** memmove of lib/string.c, in place over one memory, and user_mem_check of kern/pmap.c. */
module Memory {
  import opened Mmu
  import opened Pmap

  /** The copy that pgfault makes with memcpy: whatever way the ranges overlap, the destination
      ends up with what the source held before, and nothing else changes. */
  method MemMove(mem: array<bv8>, dst: nat, src: nat, n: nat)
    requires dst + n <= mem.Length && src + n <= mem.Length
    modifies mem
    ensures mem[dst..dst + n] == old(mem[src..src + n])
    ensures mem[..dst] == old(mem[..dst]) && mem[dst + n..] == old(mem[dst + n..])
  {
    var s, d, left := src, dst, n;
    ghost var was := mem[..];
    if s < d && s + n > d {
      s := s + n;
      d := d + n;
      while left > 0
        invariant 0 <= left <= n && s == src + left && d == dst + left
        invariant forall i :: 0 <= i < d ==> mem[i] == was[i]
        invariant forall i :: d <= i < dst + n ==> mem[i] == was[i - (dst - src)]
        invariant forall i :: dst + n <= i < mem.Length ==> mem[i] == was[i]
      {
        left := left - 1;
        d := d - 1;
        s := s - 1;
        mem[d] := mem[s];
      }
    } else {
      while left > 0
        invariant 0 <= left <= n && s == src + (n - left) && d == dst + (n - left)
        invariant forall i :: 0 <= i < dst ==> mem[i] == was[i]
        invariant forall i :: dst <= i < d ==> mem[i] == was[i - (dst - src)]
        invariant forall i :: d <= i < mem.Length ==> mem[i] == was[i]
      {
        mem[d] := mem[s];
        left := left - 1;
        d := d + 1;
        s := s + 1;
      }
    }
  }

  // ---------- user_mem_check

  const ULIM := 0xef80_0000

  predicate Grants(pte: Word, perm: bv12) { pte.flags & perm == perm }

  // The byte at address a may be used with these permissions, as far as the tables say.
  predicate MayUse(s: Phys, dir: nat, a: nat, perm: bv12) {
    a / PGSIZE * PGSIZE < ULIM && Pt(s, dir, a / PGSIZE).Some? && Grants(Pt(s, dir, a / PGSIZE).value, perm)
  }

  function RoundDown(a: nat): nat { a / PGSIZE * PGSIZE }

  // ROUNDUP(va + len, PGSIZE) in 32 bits
  function LoopEnd(va: nat, len: nat): nat { RoundDown((va + len + PGSIZE - 1) % 0x1_0000_0000) }

  // Where the range ends: an empty one still counts its page, unless it starts on a page boundary.
  function RangeEnd(va: nat, len: nat): nat { if len == 0 && va % PGSIZE != 0 then va + 1 else va + len }

  // Where what is tested ends.
  function TestEnd(va: nat, len: nat): nat {
    if va + len + PGSIZE - 1 < 0x1_0000_0000 then RangeEnd(va, len) else LoopEnd(va, len)
  }

  lemma Rounding(a: nat)
    ensures RoundDown(a) <= a < RoundDown(a) + PGSIZE && RoundDown(a) % PGSIZE == 0
  {}

  predicate PageOk(s: Phys, dir: nat, p: nat, perm: bv12) {
    p < ULIM && Pt(s, dir, p / PGSIZE).Some? && Grants(Pt(s, dir, p / PGSIZE).value, perm)
  }

  // All bytes of a page are alike.
  lemma SamePage(s: Phys, dir: nat, p: nat, a: nat, perm: bv12)
    requires p % PGSIZE == 0 && p <= a < p + PGSIZE
    ensures MayUse(s, dir, a, perm) <==> PageOk(s, dir, p, perm)
  {
    hide Pt, Grants;
    PageNumber(p, a);
  }

  lemma PageNumber(p: nat, a: nat)
    requires p % PGSIZE == 0 && p <= a < p + PGSIZE
    ensures a / PGSIZE == p / PGSIZE && a / PGSIZE * PGSIZE == p
  {}

  // the first address of page p that is not below va
  function First(va: nat, p: nat): nat { if p < va then va else p }

  // Going on is right exactly while something is left to test.
  lemma LoopStops(va: nat, len: nat, p: nat)
    requires va < 0x1_0000_0000 && len < 0x1_0000_0000 && p % PGSIZE == 0 && RoundDown(va) <= p
    ensures if p < LoopEnd(va, len) then First(va, p) < TestEnd(va, len) else TestEnd(va, len) <= First(va, p)
  {
    Rounding(va);
    Rounding((va + len + PGSIZE - 1) % 0x1_0000_0000);
    hide RoundDown;
  }

  // the test of one page
  method CheckPage(s: Phys, dir: nat, p: nat, perm: bv12) returns (ok: bool)
    ensures ok == PageOk(s, dir, p, perm)
  {
    hide Cell, Present, Grants;
    var ppte := Walk(s, dir, p / PGSIZE, false).1;
    var pte := if ppte.Some? then Cell(s, ppte.value.frame, ppte.value.index) else ZERO;
    ok := !(p >= ULIM || ppte == None || !Present(pte) || !Grants(pte, perm));
  }

  /** user_mem_check accepts a range exactly when every byte it tests may be used, and otherwise
      reports the first byte that may not. */
  method UserMemCheck(s: Phys, dir: nat, va: nat, len: nat, perm: bv12) returns (bad: Option<nat>)
    requires va < 0x1_0000_0000 && len < 0x1_0000_0000
    ensures bad.None? ==> forall a :: va <= a < TestEnd(va, len) ==> MayUse(s, dir, a, perm)
    ensures bad.Some? ==>
      && va <= bad.value < TestEnd(va, len) && !MayUse(s, dir, bad.value, perm)
      && forall a :: va <= a < bad.value ==> MayUse(s, dir, a, perm)
  {
    var p, end := RoundDown(va), LoopEnd(va, len);
    Rounding(va);
    hide MayUse, RoundDown, PageOk, LoopEnd, TestEnd;
    LoopStops(va, len, p);
    while p < end
      invariant p % PGSIZE == 0 && RoundDown(va) <= p
      invariant if p < end then First(va, p) < TestEnd(va, len) else TestEnd(va, len) <= First(va, p)
      invariant forall a :: va <= a < p ==> MayUse(s, dir, a, perm)
      decreases end + PGSIZE - p
    {
      var ok := CheckPage(s, dir, p, perm);
      if !ok {
        bad := Some(First(va, p));
        SamePage(s, dir, p, bad.value, perm);
        return bad;
      }
      forall a | p <= a < p + PGSIZE ensures MayUse(s, dir, a, perm) { SamePage(s, dir, p, a, perm); }
      p := p + PGSIZE;
      LoopStops(va, len, p);
    }
    return None;
  }

  /** That is the range, as long as it ends before the last page of the address space. A range
      that reaches this page, or wraps past it, is not looked at, and so accepted, although its
      last byte, or the last one below 2^32, lies above ULIM. */
  lemma TestedIsRange(s: Phys, dir: nat, va: nat, len: nat, perm: bv12)
    requires va < 0x1_0000_0000 && 1 <= len <= 0x1_0000_0000 - PGSIZE
    ensures va + len <= 0x1_0000_0000 - PGSIZE ==> TestEnd(va, len) == va + len
    ensures va + len > 0x1_0000_0000 - PGSIZE ==>
              && TestEnd(va, len) <= va
              && !MayUse(s, dir, if va + len <= 0x1_0000_0000 then va + len - 1 else 0xffff_ffff, perm)
  {
    hide Pt, Grants;
    if va + len > 0x1_0000_0000 - PGSIZE {
      Rounding(va + len + PGSIZE - 1 - 0x1_0000_0000);
    }
  }
}
