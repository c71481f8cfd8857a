/** Permissions as the calls receive them: 32 bits from the user, of which the upper 20 land in the
    frame number of the entry that page_insert stores. */
module Perms {
  import opened Mmu

  // A 32-bit perm: its upper 20 bits, as a number, and its low 12.
  datatype Perm = Perm(high: Frame, low: bv12)

  // a | b, bit by bit
  function Or(a: nat, b: nat): nat {
    if a == 0 && b == 0 then 0 else 2 * Or(a / 2, b / 2) + (if a % 2 == 1 || b % 2 == 1 then 1 else 0)
  }

  // (a & b) == b: the bits of b lie within those of a.
  predicate Covers(a: nat, b: nat) {
    b == 0 || ((b % 2 == 1 ==> a % 2 == 1) && Covers(a / 2, b / 2))
  }

  lemma {:induction false} OrCovers(a: nat, b: nat)
    ensures Or(a, b) == a <==> Covers(a, b)
    ensures Or(a, b) >= a
  {
    if a != 0 || b != 0 { OrCovers(a / 2, b / 2); }
  }

  lemma {:induction false} OrBound(a: nat, b: nat, n: nat)
    requires a < Power(n) && b < Power(n)
    ensures Or(a, b) < Power(n)
  {
    if n > 0 { OrBound(a / 2, b / 2, n - 1); }
  }

  function Power(n: nat): nat { if n == 0 then 1 else 2 * Power(n - 1) }

  lemma TwentyBits()
    ensures Power(20) == 0x10_0000
  {
    assert Power(4) == 16;
    assert Power(8) == 256;
    assert Power(12) == 4096;
    assert Power(16) == 0x1_0000;
  }

  // The frame that PTE_ADDR(page2pa(pp)) | perm names.
  function NamedFrame(pp: Frame, high: Frame): Frame {
    TwentyBits();
    OrBound(pp, high, 20);
    Or(pp, high)
  }

  // The entry that page_insert stores: PTE_ADDR(page2pa(pp)) | perm | PTE_P.
  function EntryOf(pp: Frame, perm: Perm): Word { Word(NamedFrame(pp, perm.high), perm.low | PTE_P) }

  /** An entry names the page it was asked for exactly if the upper bits of perm lie within those
      of the page's frame number; for a perm below 2^12 it always does. */
  lemma NamesPage(pp: Frame, perm: Perm)
    ensures EntryOf(pp, perm).frame == pp <==> Covers(pp, perm.high)
    ensures perm.high == 0 ==> Covers(pp, perm.high)
  {
    OrCovers(pp, perm.high);
  }

  lemma EntryLow(pp: Frame, perm: Perm)
    ensures Covers(pp, perm.high) ==> EntryOf(pp, perm) == Word(pp, perm.low | PTE_P)
  {
    NamesPage(pp, perm);
  }

  predicate Bit(n: nat, i: nat) { if i == 0 then n % 2 == 1 else Bit(n / 2, i - 1) }

  lemma {:induction false} OrBits(a: nat, b: nat, i: nat)
    ensures Bit(Or(a, b), i) <==> Bit(a, i) || Bit(b, i)
    decreases i
  {
    assert Or(a, b) % 2 == (if a % 2 == 1 || b % 2 == 1 then 1 else 0) && Or(a, b) / 2 == Or(a / 2, b / 2);
    if i > 0 { OrBits(a / 2, b / 2, i - 1); }
  }

  /** The stored entry, bit by bit: a bit of the frame number is set exactly if it is in that of the page
      or in perm, and the low bits are those of perm, and present. */
  lemma EntryBits(pp: Frame, perm: Perm, i: nat)
    ensures Bit(EntryOf(pp, perm).frame, i) <==> Bit(pp, i) || Bit(perm.high, i)
    ensures EntryOf(pp, perm).flags == perm.low | PTE_P
  {
    OrBits(pp, perm.high, i);
  }
}
