/** The 32-bit paging format: page directory and page table entries, addresses and
    permission bits, as inc/mmu.h and inc/memlayout.h lay them out ("32-Bit Paging",
    section 4.3 of the Intel SDM, volume 3A). */
module Mmu {

  datatype Option<+T> = None | Some(value: T)

  // A physical page number; a 32-bit word is a page number and 12 low bits.
  type Frame = n: nat | n < 0x10_0000

  datatype Word = Word(frame: Frame, flags: bv12)

  const ZERO := Word(0, 0)

  // One page of memory: 1024 words.
  type Page = w: seq<Word> | |w| == 1024 witness seq(1024, i => ZERO)

  function ZeroPage(): (w: Page)
    ensures forall i :: 0 <= i < 1024 ==> w[i] == ZERO
  {
    seq(1024, i => ZERO)
  }

  const PTE_P: bv12 := 0x001
  const PTE_W: bv12 := 0x002
  const PTE_U: bv12 := 0x004
  const PTE_COW: bv12 := 0x800

  const PGSIZE := 4096
  const UTOP := 0xeec0_0000
  const UXSTACKTOP := UTOP

  // Page numbers of the user part of an address space, and of the places in it
  // that the kernel or the fork library treat specially.
  const USER_PDES := 955
  const USER_PAGES := 977920
  const STACK_TOP_PAGE := 977918
  const XSTACK_PAGE := 977919
  const PFTEMP_PAGE := 2047

  predicate Present(w: Word) { w.flags & PTE_P != 0 }
  predicate Writable(w: Word) { w.flags & PTE_W != 0 }
  predicate User(w: Word) { w.flags & PTE_U != 0 }
  predicate Cow(w: Word) { w.flags & PTE_COW != 0 }
}
