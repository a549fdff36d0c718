/** 32-bit words as the paging hardware reads them, and the layout constants of inc/mmu.h and inc/memlayout.h. */
module Words {

  // A 32-bit word split where PTE_ADDR and PGOFF split it: a 20-bit page number
  // and the low 12 bits, which in a page table entry are the flags.
  datatype Word = Word(pn: nat, fl: bv12)

  const ZERO := Word(0, 0)

  const PTE_P: bv12 := 0x001
  const PTE_W: bv12 := 0x002
  const PTE_U: bv12 := 0x004
  const PTE_IO: bv12 := 0x018      // PTE_PCD | PTE_PWT
  const PTE_COW: bv12 := 0x800     // one of the PTE_AVAIL bits, lib/fork.c
  const PTE_SYSCALL: bv12 := 0xE07 // PTE_AVAIL | PTE_P | PTE_W | PTE_U

  const NPT := 1024     // entries per table and per directory
  const UPDX := 955     // PDX(UTOP)
  const UVPN := 977920  // PGNUM(UTOP)
  const PGSIZE := 4096

  const E_BAD_ENV := -2
  const E_INVAL := -3
  const E_NO_MEM := -4
  const E_NO_FREE_ENV := -5

  // The words of one page.
  type Page = s: seq<Word> | |s| == 1024 witness seq(1024, _ => Word(0, 0))

  function ZeroPage(): Page { seq(1024, _ => ZERO) }

  predicate Present(w: Word) { w.fl & PTE_P != 0 }

  predicate Writable(w: Word) { w.fl & PTE_W != 0 }

  predicate Cow(w: Word) { w.fl & PTE_COW != 0 }

  // Bitwise or of two naturals, bit by bit.
  function BitOr(a: nat, b: nat): (r: nat)
    decreases a + b
  {
    if a == 0 then b
    else if b == 0 then a
    else 2 * BitOr(a / 2, b / 2) + (if a % 2 == 1 || b % 2 == 1 then 1 else 0)
  }

  lemma BitOrZero(a: nat)
    ensures BitOr(a, 0) == a && BitOr(0, a) == a
  {
  }

  // page2pa(pp) | perm | PTE_P, where page2pa has no low bits.
  function PteFor(f: nat, perm: Word): (w: Word)
  {
    Word(BitOr(f, perm.pn), perm.fl | PTE_P)
  }

  // The entry made from frame f and perm still names f.
  predicate NamesFrame(f: nat, perm: Word) { BitOr(f, perm.pn) == f }

  // An or with a page number is the identity on every page number exactly when the
  // other operand has no bit there.
  lemma {:induction false} PteForKeepsFrame(perm: Word)
    ensures (forall f: nat :: PteFor(f, perm).pn == f) <==> perm.pn == 0
  {
    forall f: nat ensures perm.pn == 0 ==> PteFor(f, perm).pn == f {
      BitOrZero(f);
    }
    assert PteFor(0, perm).pn == perm.pn;
  }
}
