/**
 Sv39 arithmetic (kernel/riscv.h; section 4.4 of the RISC-V privileged architecture,
 version 20211203): splitting virtual addresses and packing page-table entries.
 */
module Sv39 {
  const PGSIZE: nat := 4096
  const MAXVA: nat := 0x40_0000_0000  // 1 << 38
  const PAGES: nat := 0x400_0000      // MAXVA / PGSIZE
  const TRAMPOLINE: nat := MAXVA - PGSIZE
  const TRAPFRAME: nat := TRAMPOLINE - PGSIZE

  const PTE_V: nat := 1
  const PTE_R: nat := 2
  const PTE_W: nat := 4
  const PTE_X: nat := 8
  const PTE_U: nat := 16

  function PgRoundDown(a: nat): (r: nat) {
    a / PGSIZE * PGSIZE
  }

  /** PGROUNDUP, where the addition does not wrap around 64 bits. */
  function PgRoundUp(a: nat): (r: nat) {
    (a + PGSIZE - 1) / PGSIZE * PGSIZE
  }

  /** Page table index of `va` at the given level. */
  function PX(level: nat, va: nat): (r: nat)
    requires level <= 2
    ensures r < 512
  {
    if level == 2 then va / 0x4000_0000 % 512
    else if level == 1 then va / 0x20_0000 % 512
    else va / 0x1000 % 512
  }

  // The same indices computed from the page number.
  function I2(v: nat): (r: nat) { v / 0x4_0000 }
  function I1(v: nat): (r: nat) ensures r < 512 { v / 512 % 512 }
  function I0(v: nat): (r: nat) ensures r < 512 { v % 512 }

  function Vpn(i: nat, j: nat, k: nat): (v: nat) {
    i * 0x4_0000 + j * 512 + k
  }

  lemma PageIndices(va: nat)
    requires va < MAXVA
    ensures PX(2, va) == I2(va / PGSIZE) < 256
    ensures PX(1, va) == I1(va / PGSIZE)
    ensures PX(0, va) == I0(va / PGSIZE)
  {
    var v := va / 4096;
    assert va / 0x20_0000 == v / 512;
    assert va / 0x4000_0000 == v / 0x4_0000;
  }

  lemma SplitVpn(v: nat)
    ensures v == Vpn(I2(v), I1(v), I0(v))
  {
    assert v / 512 / 512 == v / 0x4_0000;
  }

  lemma JoinVpn(i: nat, j: nat, k: nat)
    requires j < 512 && k < 512
    ensures I2(Vpn(i, j, k)) == i && I1(Vpn(i, j, k)) == j && I0(Vpn(i, j, k)) == k
  {
    var v := Vpn(i, j, k);
    assert v / 512 == i * 512 + j;
    assert v / 512 / 512 == v / 0x4_0000;
  }

  /** The three indices and the offset in the page are the digits of the address, nine bits each and twelve. */
  lemma IndexDigits(va: nat)
    requires va < MAXVA
    ensures va == PX(2, va) * 0x4000_0000 + PX(1, va) * 0x20_0000 + PX(0, va) * 0x1000 + va % PGSIZE
  {
    PageIndices(va);
    SplitVpn(va / PGSIZE);
  }

  /** Two addresses use the same three indices exactly when they are in the same page. */
  lemma SamePage(a: nat, b: nat)
    requires a < MAXVA && b < MAXVA
    ensures (forall level: nat :: level <= 2 ==> PX(level, a) == PX(level, b)) <==> a / PGSIZE == b / PGSIZE
  {
    PageIndices(a);
    PageIndices(b);
    SplitVpn(a / PGSIZE);
    SplitVpn(b / PGSIZE);
    if forall level: nat :: level <= 2 ==> PX(level, a) == PX(level, b) {
      assert PX(0, a) == PX(0, b) && PX(1, a) == PX(1, b) && PX(2, a) == PX(2, b);
    }
    if a / PGSIZE == b / PGSIZE {
      forall level: nat | level <= 2 ensures PX(level, a) == PX(level, b) {
        assert level == 0 || level == 1 || level == 2;
      }
    }
  }

  // Page-table entries: the physical page number from bit 10 up, ten flag bits below.

  function Pack(ppn: nat, flags: nat): (pte: nat) {
    ppn * 1024 + flags
  }

  function Ppn(pte: nat): (r: nat) { pte / 1024 }
  function Flags(pte: nat): (r: nat) ensures r < 1024 { pte % 1024 }
  predicate V(pte: nat) { pte % 2 == 1 }
  predicate U(pte: nat) { pte / 16 % 2 == 1 }

  /** No R, W or X bit: the entry of an inner table. */
  predicate Interior(pte: nat) { pte / 2 % 8 == 0 }

  /** flags | PTE_V */
  function OrV(flags: nat): (r: nat) {
    if flags % 2 == 1 then flags else flags + 1
  }

  // Each fact about the packed word is proved on its own: quotients by different powers of
  // two do not mix well.

  lemma PackPpn(ppn: nat, flags: nat)
    requires flags < 1024
    ensures Ppn(Pack(ppn, flags)) == ppn && Flags(Pack(ppn, flags)) == flags
  {
  }

  lemma PackV(ppn: nat, flags: nat)
    ensures V(Pack(ppn, flags)) == (flags % 2 == 1)
  {
    assert Pack(ppn, flags) == 2 * (512 * ppn) + flags;
  }

  lemma PackU(ppn: nat, flags: nat)
    ensures U(Pack(ppn, flags)) == (flags / 16 % 2 == 1)
  {
    var k := flags / 16;
    assert Pack(ppn, flags) / 16 == 64 * ppn + k;
    Even(32 * ppn, k);
  }

  lemma Even(a: nat, b: nat)
    ensures (2 * a + b) % 2 == b % 2
  {
  }

  lemma Mod8(a: nat, b: nat)
    ensures (8 * a + b) % 8 == b % 8
  {
  }

  lemma PackHalf(ppn: nat, flags: nat)
    ensures Pack(ppn, flags) / 2 == 512 * ppn + flags / 2
  {
  }

  lemma PackInterior(ppn: nat, flags: nat)
    ensures Interior(Pack(ppn, flags)) == (flags / 2 % 8 == 0)
  {
    hide Pack;
    PackHalf(ppn, flags);
    Mod8(64 * ppn, flags / 2);
  }

  lemma PackRoundTrip(ppn: nat, flags: nat)
    requires flags < 1024
    ensures Ppn(Pack(ppn, flags)) == ppn && Flags(Pack(ppn, flags)) == flags
    ensures V(Pack(ppn, flags)) == (flags % 2 == 1)
    ensures U(Pack(ppn, flags)) == (flags / 16 % 2 == 1)
    ensures Interior(Pack(ppn, flags)) == (flags / 2 % 8 == 0)
  {
    hide Pack, Ppn, Flags, V, U, Interior;
    PackPpn(ppn, flags);
    PackV(ppn, flags);
    PackU(ppn, flags);
    PackInterior(ppn, flags);
  }

  /** The R bit. */
  predicate R(pte: nat) { pte / 2 % 2 == 1 }

  lemma PackR(ppn: nat, flags: nat)
    ensures R(Pack(ppn, flags)) == (flags / 2 % 2 == 1)
  {
    hide Pack;
    PackHalf(ppn, flags);
    Even(256 * ppn, flags / 2);
  }

  /** The W bit. */
  predicate W(pte: nat) { pte / 4 % 2 == 1 }

  lemma PackW(ppn: nat, flags: nat)
    ensures W(Pack(ppn, flags)) == (flags / 4 % 2 == 1)
  {
    var k := flags / 4;
    assert Pack(ppn, flags) / 4 == 256 * ppn + k;
    Even(128 * ppn, k);
  }

  /** The X bit. */
  predicate X(pte: nat) { pte / 8 % 2 == 1 }

  lemma PackX(ppn: nat, flags: nat)
    ensures X(Pack(ppn, flags)) == (flags / 8 % 2 == 1)
  {
    var k := flags / 8;
    assert Pack(ppn, flags) / 8 == 128 * ppn + k;
    Even(64 * ppn, k);
  }

  lemma Packed(pte: nat)
    ensures pte == Pack(Ppn(pte), Flags(pte))
  {
  }

  /** pte & ~PTE_U */
  function ClearU(pte: nat): (r: nat) {
    if U(pte) then Pack(Ppn(pte), FlagsWithoutU(Flags(pte))) else pte
  }

  /** The flag bits without the U bit, when it is set. */
  function FlagsWithoutU(flags: nat): (r: nat)
    requires flags < 1024
    ensures r < 1024
  {
    flags / 32 * 32 + flags % 16
  }

  lemma NoUParity(flags: nat)
    requires flags < 1024
    ensures FlagsWithoutU(flags) % 2 == flags % 2
  {
    Even(16 * (flags / 32), flags % 16);
    Even(8 * (flags / 16), flags % 16);
  }

  lemma NoUBit(flags: nat)
    requires flags < 1024
    ensures FlagsWithoutU(flags) / 16 % 2 == 0
  {
    var hi, lo := flags / 32, flags % 16;
    assert (hi * 32 + lo) / 16 == 2 * hi;
  }

  lemma HalfOf(a: nat, lo: nat)
    ensures (2 * a + lo) / 2 == a + lo / 2
  {
  }

  lemma NoUReadBit(flags: nat)
    requires flags < 1024
    ensures FlagsWithoutU(flags) / 2 % 2 == flags / 2 % 2
  {
    var hi, q, lo := flags / 32, flags / 16, flags % 16;
    HalfOf(16 * hi, lo);
    HalfOf(8 * q, lo);
    Even(8 * hi, lo / 2);
    Even(4 * q, lo / 2);
  }

  lemma NoUValue(flags: nat)
    requires flags < 1024 && flags / 16 % 2 == 1
    ensures flags >= PTE_U && FlagsWithoutU(flags) == flags - PTE_U
  {
    var q, lo := flags / 16, flags % 16;
    assert flags == q * 16 + lo && q == 2 * (q / 2) + 1;
    assert flags / 32 == q / 2;
  }

  lemma ClearUKeeps(pte: nat)
    ensures V(ClearU(pte)) == V(pte) && Ppn(ClearU(pte)) == Ppn(pte) && !U(ClearU(pte))
    ensures R(pte) ==> Flags(ClearU(pte)) != PTE_V
    ensures U(pte) ==> ClearU(pte) == pte - PTE_U
  {
    hide Pack, Ppn, Flags, V, U, R, FlagsWithoutU;
    var ppn, f := Ppn(pte), Flags(pte);
    Packed(pte);
    PackRoundTrip(ppn, f);
    PackR(ppn, f);
    if U(pte) {
      NoUParity(f);
      NoUBit(f);
      NoUReadBit(f);
      NoUValue(f);
      PackRoundTrip(ppn, FlagsWithoutU(f));
      PackMinus(ppn, f, PTE_U);
    }
  }

  lemma PackMinus(ppn: nat, f: nat, d: nat)
    requires d <= f
    ensures Pack(ppn, f - d) == Pack(ppn, f) - d
  {
  }

  /** flags2perm of kernel/exec.c, from the ELF segment flags. */
  function Flags2Perm(flags: nat): (perm: nat) {
    (if flags % 2 == 1 then PTE_X else 0) + (if flags / 2 % 2 == 1 then PTE_W else 0)
  }
}
