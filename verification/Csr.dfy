/** Mig1Csr and Mig2Csr: read value and legality of a CSR instruction in EX, and the registers
  * after the clock: each register has its own rule for traps, MRET and writes.
  */
module Csr {
  import opened Isa
  import opened Parts
  import Arith

  // All registers of the block: those of the machine, and the cycle counter.
  datatype CsrState = CsrState(csrs: Csrs, mcycle: Dword)

  const RESET_CSRS := Csrs(Dword(0, 0), 0, false, false, 0, 0, 0, 0)

  // The trap of the instruction in EX.
  datatype TrapOut = TrapOut(valid: bool, cause: Word, tval: Word)

  function AddrOf(d: Decoded): CsrAddr { d.imm % 0x1000 }

  predicate Exists(a: CsrAddr) {
    a in {0xC00, 0xC01, 0xB00, 0xC80, 0xC81, 0xB80, 0xC02, 0xB02, 0xC82, 0xB82, 0x340, 0x300, 0x305,
          0x341, 0x342, 0x343, 0x310, 0x304, 0x344, 0x301, 0xF11, 0xF12, 0xF13, 0xF14}
  }

  // The old value of the CSR at an address.
  function Read(s: CsrState, a: CsrAddr): Word {
    if a == 0xC00 || a == 0xC01 || a == 0xB00 then s.mcycle.lo
    else if a == 0xC80 || a == 0xC81 || a == 0xB80 then s.mcycle.hi
    else if a == 0xC02 || a == 0xB02 then s.csrs.minstret.lo
    else if a == 0xC82 || a == 0xB82 then s.csrs.minstret.hi
    else if a == 0x340 then s.csrs.mscratch
    else if a == 0x300 then 3 * 0x800 + (if s.csrs.mpie then 0x80 else 0) + (if s.csrs.mie then 8 else 0)
    else if a == 0x305 then ByteAddr(s.csrs.mtvec)
    else if a == 0x341 then ByteAddr(s.csrs.mepc)
    else if a == 0x342 then s.csrs.mcause
    else if a == 0x343 then s.csrs.mtval
    else if a == 0x301 then 0x4000_0000 + 0x100 + 0x1000
    else 0
  }

  predicate Writes(d: Decoded) { d.funct3 == 1 || d.funct3 == 5 || d.rs1 != 0 }

  // The address marks the CSR read-only: bits 11:10 are 3.
  predicate ReadOnly(a: CsrAddr) { a / 0x400 == 3 }

  predicate Illegal(d: Decoded) { d.csr && (!Exists(AddrOf(d)) || (Writes(d) && ReadOnly(AddrOf(d)))) }

  function NewValue(was: Word, d: Decoded, rs1: Word): Word {
    var src := if d.funct3 == 5 || d.funct3 == 6 || d.funct3 == 7 then d.rs1 else rs1;
    if d.funct3 == 2 || d.funct3 == 6 then WordOf(BitOr(32, was, src))
    else if d.funct3 == 3 || d.funct3 == 7 then WordOf(BitAndNot(32, was, src))
    else src
  }

  function NextCycle(c: Dword, we: bool, a: CsrAddr, v: Word): Dword {
    if we && a == 0xB00 then c.(lo := v) else if we && a == 0xB80 then c.(hi := v) else Increment(c)
  }

  function NextInstret(c: Dword, done: bool, we: bool, a: CsrAddr, v: Word): Dword {
    if we && a == 0xB02 then c.(lo := v)
    else if we && a == 0xB82 then c.(hi := v)
    else if done then Increment(c) else c
  }

  function NextCsrs(c: Csrs, done: bool, we: bool, a: CsrAddr, v: Word, mret: bool, pc: Addr,
                    trap: TrapOut): Csrs {
    Csrs(NextInstret(c.minstret, done, we, a, v),
         if we && a == 0x340 then v else c.mscratch,
         if trap.valid then false else if mret then c.mpie
         else if we && a == 0x300 then v / 8 % 2 == 1 else c.mie,
         if trap.valid then c.mie else if mret then true
         else if we && a == 0x300 then v / 0x80 % 2 == 1 else c.mpie,
         if we && a == 0x305 then WordAddr(v) else c.mtvec,
         if trap.valid then pc else if we && a == 0x341 then WordAddr(v) else c.mepc,
         if trap.valid then trap.cause else if we && a == 0x342 then v else c.mcause,
         if trap.valid then trap.tval else if we && a == 0x343 then v else c.mtval)
  }

  /** The registers after a clock: done, the instruction in EX completes; trap, it faults. */
  function NextCsr(s: CsrState, done: bool, d: Decoded, rs1: Word, pc: Addr, trap: TrapOut): CsrState {
    var a := AddrOf(d);
    var we := done && d.csr && Writes(d);
    var v := NewValue(Read(s, a), d, rs1);
    CsrState(NextCsrs(s.csrs, done, we, a, v, done && d.mret, pc, trap), NextCycle(s.mcycle, we, a, v))
  }

  lemma IllegalExact(i: Insn)
    requires Encodable(i)
    ensures Illegal(Decode(i)) <==> i.kind.KCsr? && !CsrLegal(i)
  {
    if i.kind.KCsr? {
      assert Exists(AddrOf(Decode(i))) <==> CsrAt(CsrAddrOf(i)).Some?;
    }
  }

  lemma ReadExact(s: CsrState, i: Insn)
    requires i.kind.KCsr? && CsrAt(CsrAddrOf(i)).Some?
    ensures Read(s, AddrOf(Decode(i))) == CsrRead(s.csrs, s.mcycle, CsrAt(CsrAddrOf(i)).value)
  {
  }

  lemma WriteExact(c: Csrs, a: CsrAddr, n: CsrName, v: Word, pc: Addr, t: TrapOut)
    requires CsrAt(a) == Some(n) && !t.valid && a < 0xC00
    ensures NextCsrs(c, true, true, a, v, false, pc, t)
            == CsrWrite(if n.Instret? || n.InstretH? then c else c.(minstret := Increment(c.minstret)), n, v)
  {
  }

  lemma NewValueExact(was: Word, i: Insn, rs1: Word)
    requires Encodable(i) && i.kind.KCsr?
    ensures NewValue(was, Decode(i), rs1) == CsrNewValue(i, was, CsrSource(i, rs1))
  {
    hide Decode, BitOr, BitAndNot;
    FieldsExact(i);
  }

  // No CSR write, no trap: only the count and MRET.
  lemma CountExact(c: Csrs, a: CsrAddr, v: Word, mret: bool, pc: Addr, t: TrapOut)
    requires !t.valid
    ensures NextCsrs(c, true, false, a, v, mret, pc, t)
            == var n := c.(minstret := Increment(c.minstret));
               if mret then n.(mie := c.mpie, mpie := true) else n
  {
  }

  lemma ControlsExact(i: Insn)
    ensures Decode(i).csr == i.kind.KCsr? && Decode(i).mret == i.kind.KMret?
    ensures Writes(Decode(i)) == CsrWrites(i) && AddrOf(Decode(i)) == CsrAddrOf(i)
  {
    hide Decode;
    SystemExact(i);
    FieldsExact(i);
  }

  // An instruction that completes leaves the CSRs of the machine; a trap too; else they stay.
  lemma DoneExact(s: CsrState, arch: Arch, i: Insn, cx: Context, rs1: Word, t: TrapOut)
    requires Encodable(i) && (i.kind.KCsr? ==> CsrLegal(i))
    requires arch.csrs == s.csrs && cx.cycle == s.mcycle && !t.valid
    ensures NextCsr(s, true, Decode(i), rs1, arch.pc, t).csrs == CsrsAfter(arch, i, cx, rs1)
  {
    var was := Read(s, CsrAddrOf(i));
    var v := NewValue(was, Decode(i), rs1);
    ControlsExact(i);
    if i.kind.KCsr? && CsrWrites(i) {
      ReadExact(s, i);
      NewValueExact(was, i, rs1);
      WriteExact(s.csrs, CsrAddrOf(i), CsrAt(CsrAddrOf(i)).value, v, arch.pc, t);
    } else {
      CountExact(s.csrs, CsrAddrOf(i), v, i.kind.KMret?, arch.pc, t);
    }
  }

  lemma TrapExact(s: CsrState, arch: Arch, d: Decoded, rs1: Word, t: TrapOut)
    requires arch.csrs == s.csrs && t.valid
    ensures NextCsr(s, false, d, rs1, arch.pc, t).csrs == CsrsTrap(arch, Trap(t.cause, t.tval))
  {
  }

  lemma IdleExact(s: CsrState, d: Decoded, rs1: Word, pc: Addr, t: TrapOut)
    requires !t.valid
    ensures NextCsr(s, false, d, rs1, pc, t).csrs == s.csrs
  {
  }

  // ---------- Set, clear and count ----------

  predicate BitAt(x: int, k: nat) { x / Pow2(k) % 2 == 1 }

  // Bit 0, and the bits above it.
  lemma BitsOfSum(low: int, rest: int, k: nat)
    requires 0 <= low < 2
    ensures BitAt(low + 2 * rest, k) == if k == 0 then low == 1 else BitAt(rest, k - 1)
  {
    if k == 0 {
      assert Pow2(0) == 1;
    } else {
      Arith.HalfFirst(low + 2 * rest, Pow2(k - 1));
    }
  }

  // Or and and-not work bit by bit.
  lemma {:induction false} OrBits(n: nat, a: int, b: int, k: nat)
    requires k < n
    ensures BitAt(BitOr(n, a, b), k) <==> BitAt(a, k) || BitAt(b, k)
    decreases n
  {
    hide BitAt;
    BitsOfSum(a % 2, a / 2, k);
    BitsOfSum(b % 2, b / 2, k);
    BitsOfSum(if a % 2 == 1 || b % 2 == 1 then 1 else 0, BitOr(n - 1, a / 2, b / 2), k);
    if k > 0 {
      OrBits(n - 1, a / 2, b / 2, k - 1);
    }
  }

  lemma {:induction false} AndNotBits(n: nat, a: int, b: int, k: nat)
    requires k < n
    ensures BitAt(BitAndNot(n, a, b), k) <==> BitAt(a, k) && !BitAt(b, k)
    decreases n
  {
    hide BitAt;
    BitsOfSum(a % 2, a / 2, k);
    BitsOfSum(b % 2, b / 2, k);
    BitsOfSum(if a % 2 == 1 && b % 2 == 0 then 1 else 0, BitAndNot(n - 1, a / 2, b / 2), k);
    if k > 0 {
      AndNotBits(n - 1, a / 2, b / 2, k - 1);
    }
  }

  /** CSRRS sets and CSRRC clears exactly the bits of its source, and keeps the others. */
  lemma SetsAndClears(was: Word, i: Insn, rs1: Word, k: nat)
    requires Encodable(i) && i.kind.KCsr? && k < 32
    ensures var src := CsrSource(i, rs1);
            var v := NewValue(was, Decode(i), rs1);
            && (i.funct3 == 2 || i.funct3 == 6 ==> (BitAt(v, k) <==> BitAt(was, k) || BitAt(src, k)))
            && (i.funct3 == 3 || i.funct3 == 7 ==> (BitAt(v, k) <==> BitAt(was, k) && !BitAt(src, k)))
            && (i.funct3 == 1 || i.funct3 == 5 ==> v == src)
  {
    hide Decode, BitOr, BitAndNot, BitAt, Pow2;
    var src := CsrSource(i, rs1);
    NewValueExact(was, i, rs1);
    OrBits(32, was, src, k);
    AndNotBits(32, was, src, k);
    FitsWord(BitOr(32, was, src));
    FitsWord(BitAndNot(32, was, src));
  }

  lemma FitsWord(x: int)
    requires 0 <= x < Pow2(32)
    ensures WordOf(x) == x
  {
    assert Pow2(8) == 0x100 && Pow2(16) == 0x100 * Pow2(8);
    assert Pow2(24) == 0x100 * Pow2(16) && Pow2(32) == 0x100 * Pow2(24);
  }

  function Count64(d: Dword): int { d.lo + 0x1_0000_0000 * d.hi }

  /** The counters count modulo 2^64, with the carry between their halves. */
  lemma Counts(d: Dword)
    ensures Count64(Increment(d)) == (Count64(d) + 1) % 0x1_0000_0000_0000_0000
  {
  }

  // ---------- The cycle counter, and reset ----------

  /** mcycle counts every clock modulo 2^64, but for a CSR instruction that completes and writes one of its
    * halves: 0xB00 the low one, 0xB80 the high one.
    */
  lemma CycleExact(s: CsrState, done: bool, d: Decoded, rs1: Word, pc: Addr, t: TrapOut)
    ensures var c, c' := s.mcycle, NextCsr(s, done, d, rs1, pc, t).mcycle;
            var a := d.imm % 0x1000;
            var writes := done && d.csr && (d.funct3 == 1 || d.funct3 == 5 || d.rs1 != 0);
            if writes && a == 0xB00 then c'.lo == NewValue(c.lo, d, rs1) && c'.hi == c.hi
            else if writes && a == 0xB80 then c'.hi == NewValue(c.hi, d, rs1) && c'.lo == c.lo
            else Count64(c') == (Count64(c) + 1) % 0x1_0000_0000_0000_0000
  {
    hide NewValue, Count64, Increment;
    Counts(s.mcycle);
  }

  /** What the CSRs read out of reset: previous mode machine, interrupts off, all others 0 but misa. */
  lemma ResetReads(a: CsrAddr)
    ensures Read(CsrState(RESET_CSRS, Dword(0, 0)), a)
            == if a == 0x300 then 0x1800 else if a == 0x301 then 0x4000_1100 else 0
    ensures !RESET_CSRS.mie && !RESET_CSRS.mpie
  {
  }
}
