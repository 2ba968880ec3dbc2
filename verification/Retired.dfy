/** The retire port by itself: every retired instruction is checked with nothing but the bytes and numbers of
  * its own entry, and every entry begins where the one before it went.
  */
module Retired {
  import opened Isa
  import Arith
  import Parts
  import P1 = Mig1Step
  import S1 = Mig1System
  import C1 = Mig1
  import R1 = Mig1Runs
  import S2 = Mig2System
  import C2 = Mig2
  import M2 = Mig2Commit
  import F2 = Mig2Refinement
  import R2 = Mig2Runs
  import Csr
  import MulDiv

  // ---------- What one entry must say ----------

  function Sum(a: int, b: int): int { (a + b) % 0x1_0000_0000 }

  // The byte address of an instruction.
  function Pc(e: Entry): int { 4 * e.pc }

  predicate Lower(signed: bool, a: Word, b: Word) {
    if signed && (a >= 0x8000_0000) != (b >= 0x8000_0000) then a >= 0x8000_0000 else a < b
  }

  // Conditions of section 2.5 of the RISC-V Unprivileged ISA.
  predicate Branches(f: Funct3, a: Word, b: Word) {
    match f
    case 0 => a == b
    case 1 => a != b
    case 4 => Lower(true, a, b)
    case 5 => !Lower(true, a, b)
    case 6 => Lower(false, a, b)
    case 7 => !Lower(false, a, b)
    case _ => false
  }

  // Where the instruction goes, in bytes.
  predicate GoesRight(e: Entry) {
    var i := e.insn;
    i.kind.KMret? ||
    4 * e.next
    == if i.kind.KJal? || (i.kind.KBranch? && Branches(i.funct3, e.rs1Data, e.rs2Data)) then Sum(Pc(e), i.imm)
       else if i.kind.KJalr? then Sum(e.rs1Data, i.imm) / 2 * 2
       else Sum(Pc(e), 4)
  }

  // The bytes of the access, from k up.
  predicate MaskIs(m: Mask, k: int, size: int) {
    && (m.b0 <==> k == 0) && (m.b1 <==> k <= 1 < k + size)
    && (m.b2 <==> k <= 2 < k + size) && (m.b3 <==> k <= 3 < k + size)
  }

  function Bytes(f: Funct3): int { if f == 0 || f == 4 then 1 else if f == 1 || f == 5 then 2 else 4 }

  // The low bytes of v, with the sign of the highest for a signed load.
  function Extended(f: Funct3, v: int): int {
    if f == 0 then (if v % 0x100 >= 0x80 then v % 0x100 + 0xFFFF_FF00 else v % 0x100)
    else if f == 1 then (if v % 0x1_0000 >= 0x8000 then v % 0x1_0000 + 0xFFFF_0000 else v % 0x1_0000)
    else if f == 4 then v % 0x100
    else if f == 5 then v % 0x1_0000
    else v
  }

  // A word without its k lowest bytes.
  function Down(w: int, k: int): int {
    if k == 0 then w else if k == 1 then w / 0x100 else if k == 2 then w / 0x1_0000 else w / 0x100_0000
  }

  // The value a load takes from the word it read.
  function Loaded(e: Entry): int { Extended(e.insn.funct3, Down(e.rdata, Sum(e.rs1Data, e.insn.imm) % 4)) }

  // The bytes a store writes, and what a byte counts in its place.
  function Stored(f: Funct3, v: Word): int { if f == 0 then v % 0x100 else if f == 1 then v % 0x1_0000 else v }
  function Unit(k: int): int { if k == 0 then 1 else if k == 1 then 0x100 else if k == 2 then 0x1_0000 else 0x100_0000 }

  predicate AccessRight(e: Entry) {
    var i := e.insn;
    var at, k := Sum(e.rs1Data, i.imm), Sum(e.rs1Data, i.imm) % 4;
    if i.kind.KLoad? then
      && e.memAddr == at / 4 * 4 && at % Bytes(i.funct3) == 0 && e.wmask == NO_BYTES
      && MaskIs(e.rmask, k, Bytes(i.funct3))
    else if i.kind.KStore? then
      && e.memAddr == at / 4 * 4 && at % Bytes(i.funct3) == 0 && e.rmask == NO_BYTES
      && MaskIs(e.wmask, k, Bytes(i.funct3)) && e.wdata == Stored(i.funct3, e.rs2Data) * Unit(k)
    else e.memAddr == 0 && e.rmask == e.wmask == NO_BYTES
  }

  // Kinds without a result.
  predicate NoResult(k: Kind) {
    k.KBranch? || k.KStore? || k.KFence? || k.KEbreak? || k.KMret? || k.KWfi? || k.KEcall? || k.KIllegal?
  }

  predicate ResultRight(bl: Blocks, e: Entry) {
    var i := e.insn;
    && (NoResult(i.kind) || i.rd == 0 ==> e.rd == 0 && e.rdData == 0)
    && (!NoResult(i.kind) ==> e.rd == i.rd)
    && (!NoResult(i.kind) && i.rd != 0 ==>
          match i.kind
          case KLui => e.rdData == i.imm
          case KAuipc => e.rdData == Sum(Pc(e), i.imm)
          case KJal => e.rdData == Sum(Pc(e), 4)
          case KJalr => e.rdData == Sum(Pc(e), 4)
          case KLoad => e.rdData == Loaded(e)
          case KOp => e.rdData == bl.alu(i, e.rs1Data, e.rs2Data)
          case KOpImm => e.rdData == bl.alu(i, e.rs1Data, i.imm)
          case KBitmanip => e.rdData == bl.bitmanip(i, e.rs1Data)
          case _ => true)
  }

  /** An entry that does not trap goes where it must, accesses what it must and has the result it must; one
    * that traps writes nothing.
    */
  predicate Right(bl: Blocks, e: Entry) {
    if e.trap then e.rd == 0 && e.rdData == 0 && e.rmask == e.wmask == NO_BYTES
    else GoesRight(e) && AccessRight(e) && ResultRight(bl, e)
  }

  // ---------- The machine ----------

  lemma AddIs(a: Word, b: Word)
    ensures Add(a, b) == Sum(a, b)
  {
  }

  lemma NextIs(a: Addr)
    ensures 4 * NextAddr(a) == Sum(4 * a, 4)
  {
    M2.FourOn(a);
  }

  lemma ConditionIs(f: Funct3, a: Word, b: Word)
    ensures Condition(f, a, b) <==> Branches(f, a, b)
  {
  }

  lemma Aligned(x: Word)
    ensures x % 4 == 0 ==> 4 * (x / 4) == x
  {
  }

  lemma MachineGoes(bl: Blocks, a: Arch, i: Insn, cx: Context)
    requires |a.regs| == 32 && Encodable(i) && !Execute(bl, a, i, cx).1.trap
    ensures GoesRight(Execute(bl, a, i, cx).1)
    ensures Execute(bl, a, i, cx).1.next == Execute(bl, a, i, cx).0.pc
  {
    hide Condition, Branches, CsrsAfter, StoreValue, DestValue, AccessMask, InPlace, OnlyBytes, Misaligned,
         CsrLegal, Add, Sum, NextAddr, Signed;
    var rs1, rs2 := a.regs[i.rs1], a.regs[i.rs2];
    NextIs(a.pc);
    ConditionIs(i.funct3, rs1, rs2);
    AddIs(ByteAddr(a.pc), i.imm);
    AddIs(rs1, i.imm);
    Aligned(Target(i, a.pc, rs1));
  }

  lemma StoreIs(f: Funct3, at: Word, v: Word)
    requires f in {0, 1, 2} && !Misaligned(f, at)
    ensures OnlyBytes(InPlace(at, v), AccessMask(f, at)) == Stored(f, v) * Unit(at % 4)
  {
    Parts.ShiftedBytes(v);
    Parts.LowBytes(v);
    Parts.Even(at);
    Arith.Base256(v);
  }

  lemma MachineAccesses(bl: Blocks, a: Arch, i: Insn, cx: Context)
    requires |a.regs| == 32 && Encodable(i) && !Execute(bl, a, i, cx).1.trap
    ensures AccessRight(Execute(bl, a, i, cx).1)
  {
    hide Condition, CsrsAfter, StoreValue, DestValue, InPlace, OnlyBytes, CsrLegal, Add, Sum, NextAddr, Signed,
         NextPc, Jumps, Target, Stored, Unit;
    AddIs(a.regs[i.rs1], i.imm);
    if i.kind.KStore? {
      StoreIs(i.funct3, Add(a.regs[i.rs1], i.imm), a.regs[i.rs2]);
    }
  }

  // Bytes of a word, for a load.
  lemma LoadIs(m: Mem, f: Funct3, at: Word)
    requires f in {0, 1, 2, 4, 5} && !Misaligned(f, at)
    ensures LoadValue(m, f, at) == Extended(f, Down(ReadWord(m, at / 4), at % 4))
  {
    hide ReadWord;
    var w := ReadWord(m, at / 4);
    Parts.LoadDataExact(m, f, at);
    Parts.LowBytes(w);
    Arith.Base256(w);
  }

  lemma MachineResults(bl: Blocks, a: Arch, i: Insn, cx: Context)
    requires |a.regs| == 32 && Encodable(i) && !Execute(bl, a, i, cx).1.trap
    ensures ResultRight(bl, Execute(bl, a, i, cx).1)
  {
    hide Condition, CsrsAfter, StoreValue, InPlace, OnlyBytes, CsrLegal, Add, Sum, NextAddr, Signed, NextPc, Jumps,
         Target, AccessMask, LoadValue, Extended, Down, CsrRead, CsrAt, Divide, Multiply, ReadWord, WriteReg;
    var rs1 := a.regs[i.rs1];
    NextIs(a.pc);
    AddIs(ByteAddr(a.pc), i.imm);
    AddIs(rs1, i.imm);
    if i.kind.KLoad? {
      LoadIs(a.mem, i.funct3, Add(rs1, i.imm));
    }
  }

  /** Whatever the machine executes has a right entry, and goes on where its entry says. */
  lemma MachineRight(bl: Blocks, a: Arch, i: Insn, cx: Context)
    requires |a.regs| == 32 && Encodable(i)
    ensures Right(bl, Execute(bl, a, i, cx).1)
    ensures Execute(bl, a, i, cx).1.pc == a.pc && Execute(bl, a, i, cx).1.next == Execute(bl, a, i, cx).0.pc
  {
    hide GoesRight, AccessRight, ResultRight, NextPc, CsrsAfter, StoreValue, DestValue, CsrsTrap, TrapOf, InPlace,
         OnlyBytes, AccessMask;
    if !Execute(bl, a, i, cx).1.trap {
      MachineGoes(bl, a, i, cx);
      MachineAccesses(bl, a, i, cx);
      MachineResults(bl, a, i, cx);
    }
  }

  // ---------- Traps ----------

  // The cause and the value of a trap, section 3.1.15 and 3.1.16 of the RISC-V Privileged ISA; -1 for no trap.
  function Cause(a: Arch, i: Insn, cx: Context): int
    requires |a.regs| == 32
  {
    var rs1, rs2 := a.regs[i.rs1], a.regs[i.rs2];
    var at := Sum(rs1, i.imm);
    if i.kind.KIllegal? || (i.kind.KCsr? && !CsrLegal(i)) then 2
    else if i.kind.KEcall? then 11
    else if i.kind.KEbreak? && !cx.ebreakHalt then 3
    else if i.kind.KJal? && Sum(4 * a.pc, i.imm) % 4 != 0 then 0
    else if i.kind.KJalr? && at / 2 % 2 == 1 then 0
    else if i.kind.KBranch? && Branches(i.funct3, rs1, rs2) && Sum(4 * a.pc, i.imm) % 4 != 0 then 0
    else if i.kind.KLoad? && at % Bytes(i.funct3) != 0 then 4
    else if i.kind.KStore? && at % Bytes(i.funct3) != 0 then 6
    else -1
  }

  function TrapValue(a: Arch, i: Insn): int
    requires |a.regs| == 32
  {
    match i.kind
    case KEcall => 0
    case KEbreak => 4 * a.pc
    case KJal => Sum(4 * a.pc, i.imm)
    case KBranch => Sum(4 * a.pc, i.imm)
    case KJalr => Sum(a.regs[i.rs1], i.imm) / 2 * 2
    case KLoad => Sum(a.regs[i.rs1], i.imm)
    case KStore => Sum(a.regs[i.rs1], i.imm)
    case _ => i.word
  }

  lemma JalrBits(x: Word)
    ensures x / 2 * 2 % 4 != 0 <==> x / 2 % 2 == 1
  {
  }

  lemma CauseIs(a: Arch, i: Insn, cx: Context)
    requires |a.regs| == 32 && Encodable(i)
    ensures var t := TrapOf(a, i, cx, a.regs[i.rs1], a.regs[i.rs2]);
            && (t.Some? <==> Cause(a, i, cx) >= 0)
            && (t.Some? ==> t.value.cause == Cause(a, i, cx) && t.value.tval == TrapValue(a, i))
  {
    hide CsrLegal, Condition, Branches, Add, Sum;
    var rs1, rs2 := a.regs[i.rs1], a.regs[i.rs2];
    AddIs(ByteAddr(a.pc), i.imm);
    AddIs(rs1, i.imm);
    JalrBits(Add(rs1, i.imm));
    ConditionIs(i.funct3, rs1, rs2);
  }

  /** An instruction traps exactly for its causes, and then leaves them in the trap CSRs with its address and
    * the interrupt enable it takes away; everything else stays, and the handler comes next.
    */
  lemma TrapsRight(bl: Blocks, a: Arch, i: Insn, cx: Context)
    requires |a.regs| == 32 && Encodable(i)
    ensures Execute(bl, a, i, cx).1.trap <==> Cause(a, i, cx) >= 0
    ensures Cause(a, i, cx) >= 0 ==>
              var b := Execute(bl, a, i, cx).0;
              && b.csrs.mcause == Cause(a, i, cx) && b.csrs.mtval == TrapValue(a, i) && b.csrs.mepc == a.pc
              && b.csrs.mpie == a.csrs.mie && !b.csrs.mie && b.pc == a.csrs.mtvec
              && b.regs == a.regs && b.mem == a.mem && b.csrs.minstret == a.csrs.minstret
              && b.csrs.mscratch == a.csrs.mscratch && b.csrs.mtvec == a.csrs.mtvec && b.halted == a.halted
  {
    hide Cause, TrapValue, TrapOf, NextPc, CsrsAfter, StoreValue, DestValue, AccessMask, InPlace, OnlyBytes;
    CauseIs(a, i, cx);
  }

  /** MRET goes to mepc and gives the interrupt enable back. */
  lemma MretRight(bl: Blocks, a: Arch, i: Insn, cx: Context)
    requires |a.regs| == 32 && i.kind.KMret?
    ensures var b := Execute(bl, a, i, cx).0;
            && b.pc == a.csrs.mepc && b.csrs.mie == a.csrs.mpie && b.csrs.mpie && b.regs == a.regs && b.mem == a.mem
  {
  }

  // ---------- Streams ----------

  // Where the k-th entry of a stream begins.
  function Begins(es: seq<Entry>, first: Addr, k: nat): Addr
    requires k <= |es|
  {
    if k == 0 then first else es[k - 1].next
  }

  // Every entry is right and begins where the one before it went, the first at an address.
  predicate Stream(bl: Blocks, es: seq<Entry>, first: Addr) {
    && (forall k :: 0 <= k < |es| ==> Right(bl, es[k]))
    && (forall k :: 0 <= k < |es| ==> Pc(es[k]) == 4 * Begins(es, first, k))
  }

  lemma {:induction false} MachineStream(bl: Blocks, code: Code, a: Arch, evs: seq<Event>)
    requires |a.regs| == 32 && M2.Wellformed(code)
    ensures Stream(bl, Entries(bl, code, a, evs), a.pc)
    ensures var es := Entries(bl, code, a, evs); After(bl, code, a, evs).pc == Begins(es, a.pc, |es|)
    decreases |evs|
  {
    hide Execute, Right;
    if evs != [] {
      var pre, ev := evs[..|evs| - 1], evs[|evs| - 1];
      var b, es := After(bl, code, a, pre), Entries(bl, code, a, pre);
      MachineStream(bl, code, a, pre);
      if ev.Exec? {
        MachineRight(bl, b, code(b.pc), ev.cx);
        OneMore(bl, es, Execute(bl, b, code(b.pc), ev.cx).1, a.pc);
      } else {
        assert es + [] == es;
      }
    }
  }

  lemma OneMore(bl: Blocks, es: seq<Entry>, e: Entry, first: Addr)
    requires Stream(bl, es, first) && Right(bl, e) && e.pc == Begins(es, first, |es|)
    ensures Stream(bl, es + [e], first) && Begins(es + [e], first, |es| + 1) == e.next
  {
    hide Right;
    forall k | 0 <= k < |es|
      ensures Pc((es + [e])[k]) == 4 * Begins(es + [e], first, k)
    {
      assert Pc(es[k]) == 4 * Begins(es, first, k);
    }
  }

  /** Whatever Mig2 retires, from any reachable state with an empty MEM/WB, is a stream of right entries. */
  lemma Mig2Retires(bl: Blocks, code: Code, s: S2.System, ins: seq<C2.Inputs>)
    requires C2.CoreOk(s.core) && S2.Inv(code, s) && M2.Wellformed(code) && R2.LegalRun(bl, code, s, ins)
    requires R2.InFlight(s) == []
    ensures var (t, log) := R2.Run(bl, s, ins);
            var es := log.retired + R2.InFlight(t);
            Stream(bl, es, S2.ArchOf(s).pc) && S2.ArchOf(t).pc == Begins(es, S2.ArchOf(s).pc, |es|)
  {
    hide S2.Inv, R2.LegalRun, R2.Run, R2.InFlight, S2.ArchOf, Entries, After, Stream, Runnable;
    R2.RunAgrees(bl, code, s, ins);
    var es := Entries(bl, code, S2.ArchOf(s), R2.Run(bl, s, ins).1.events);
    MachineStream(bl, code, S2.ArchOf(s), R2.Run(bl, s, ins).1.events);
    assert [] + es == es;
  }

  /** The same for Mig1. */
  lemma Mig1Retires(bl: Blocks, code: Code, s: S1.System, pins: seq<R1.Pins>)
    requires C1.CoreOk(s.core) && S1.Inv(code, s) && P1.Wellformed(code) && R1.InFlight(s) == []
    ensures var (t, log) := R1.Run(bl, code, s, pins);
            var es := log.retired + R1.InFlight(t);
            Stream(bl, es, S1.ArchOf(s).pc) && S1.ArchOf(t).pc == Begins(es, S1.ArchOf(s).pc, |es|)
  {
    hide S1.Inv, R1.Run, R1.InFlight, S1.ArchOf, Entries, After, Stream, Runnable;
    R1.RunAgrees(bl, code, s, pins);
    var es := Entries(bl, code, S1.ArchOf(s), R1.Run(bl, code, s, pins).1.events);
    MachineStream(bl, code, S1.ArchOf(s), R1.Run(bl, code, s, pins).1.events);
    assert [] + es == es;
  }

  // ---------- Calls and the debugger ----------

  // The address a call pushes, and where a resume goes on, are 4 bytes on.
  lemma PushesNext(bl: Blocks, code: Code, s: S2.System, i: C2.Inputs)
    requires C2.RasCommand(bl, s.core, i).push
    ensures 4 * C2.RasCommand(bl, s.core, i).pushAddr == Sum(4 * s.core.fetch.slot.pc, 4)
  {
    NextIs(s.core.fetch.slot.pc);
  }

  lemma ResumesNext(bl: Blocks, code: Code, s: S2.System, i: C2.Inputs)
    requires F2.Clock(bl, code, s, i) && C2.Resuming(s.core, i)
    ensures 4 * C2.Next(bl, s.core, i).fetch.pc == Sum(4 * s.core.control.haltPc, 4)
    ensures C2.Next(bl, s.core, i).control.running
  {
    hide S2.FetchInv, S2.SlotInv, S2.ExInv, S2.MemInv, S2.BubbleInv, MulDiv.MulDivInv, C2.NextIdEx, C2.ExMemD,
         Csr.NextCsr, MulDiv.NextMulDiv, C2.NextRegs, C2.IdMoves, C2.IdRedirectPc, C2.ExLsu, Sum;
    NextIs(s.core.control.haltPc);
  }
}
