/** Runs of Mig1: what it retires is what the sequential machine executes, and the clock of every
  * retirement is a sum over the executed instructions.
  */
module Mig1Timing {
  import opened Isa
  import opened Parts
  import opened Csr
  import opened MulDiv
  import opened Mig1
  import opened Mig1System
  import opened Mig1Step
  import Divider
  import M2 = Mig2
  import S2 = Mig2System
  import C2 = Mig2Commit

  // ---------- The cost of an instruction ----------

  // Extra clocks of an instruction itself: a division.
  function Own(i: Insn): nat { if IsDivInsn(i) then 33 else 0 }

  // A backward branch is guessed taken, when its target is the address of an instruction.
  predicate GuessedTaken(i: Insn, pc: Addr) { i.imm >= 0x8000_0000 && Target(i, pc, 0) % 4 == 0 }

  // Clocks lost after an instruction, by where it goes.
  function Redirection(e: Entry): nat {
    var i := e.insn;
    if e.trap || i.kind.KMret? || i.kind.KJalr? then 2
    else if i.kind.KJal? then 1
    else if i.kind.KBranch? then
      var taken := Condition(i.funct3, e.rs1Data, e.rs2Data);
      if taken != GuessedTaken(i, e.pc) then 2 else if taken then 1 else 0
    else 0
  }

  // The next instruction reads the register a load writes.
  predicate LoadUse(e: Entry, i: Insn) {
    !e.trap && e.insn.kind.KLoad? && e.insn.rd != 0
    && ((Reads1(i) && i.rs1 == e.insn.rd) || (Reads2(i) && i.rs2 == e.insn.rd))
  }

  function Gap(e: Entry, i: Insn): nat { Redirection(e) + (if LoadUse(e, i) then 1 else 0) }

  // All extra clocks of a stream of executed instructions.
  function TotalCost(es: seq<Entry>): nat {
    if es == [] then 0
    else
      var n := |es| - 1;
      TotalCost(es[..n]) + (if n > 0 then Gap(es[n - 1], es[n].insn) else 0) + Own(es[n].insn)
  }

  // The clock in which the instruction that comes after es leaves EX; the first clock out of reset is 0.
  function Due(es: seq<Entry>, i: Insn): nat {
    2 + |es| + TotalCost(es) + (if es == [] then 0 else Gap(es[|es| - 1], i)) + Own(i)
  }

  // ---------- The state ----------

  // Clocks until the instruction in EX leaves it.
  function InExFor(m: MulDivState, d: Decoded): nat {
    if !IsDiv(true, d) || m.ready then 0 else if m.div.busy then m.div.left else 33
  }

  // Clocks until the next instruction leaves EX: from EX, from ID, from fetch.
  function Distance(code: Code, c: Core): nat {
    if c.idEx.valid then InExFor(c.muldiv, c.idEx.dec)
    else (if c.slot.valid then 1 else 2) + Own(code(ArchPc(c)))
  }

  // What ID follows is what the cost says: JAL, and a branch guessed taken.
  lemma FollowsExact(i: Insn, pc: Addr)
    requires Encodable(i)
    ensures Follows(Decode(i), pc) <==>
            (i.kind.KJal? || (i.kind.KBranch? && i.imm >= 0x8000_0000)) && Target(i, pc, 0) % 4 == 0
  {
    hide Decode;
    FieldsExact(i);
    JumpsExact(i);
    if i.kind.KJal? || i.kind.KBranch? {
      EvenTarget(pc, i.imm);
      TargetExact(Add(ByteAddr(pc), i.imm));
    }
  }

  // ---------- A clock in which nothing leaves EX ----------

  lemma DivisionNearer(code: Code, s: System, i: Inputs, bl: Blocks)
    requires Clock(code, s, i) && CoreOk(s.core) && s.core.idEx.valid && ExStall(s.core)
    ensures InExFor(s.core.muldiv, s.core.idEx.dec) == InExFor(Next(bl, s.core, i).muldiv, s.core.idEx.dec) + 1
  {
    hide NextIdEx, NextCsr, NextRegs, NextControl, FetchCtrlOf, ExMemD, Decode, Wellformed;
    ViewClock(bl, code, s, i);
    AllSteps();
  }

  lemma AllSteps()
    ensures forall a: nat, d: nat :: Divider.StepsOf(false, 32, a, d) == 32
  {
  }

  // A divider at rest.
  lemma Fresh(s: System, bl: Blocks, code: Code, i: Inputs)
    requires Clock(code, s, i) && CoreOk(s.core) && !ExStall(s.core)
    ensures var m := Next(bl, s.core, i).muldiv; !m.ready && !m.div.busy
  {
    hide NextIdEx, NextCsr, NextRegs, NextControl, FetchCtrlOf, ExMemD, Decode, Wellformed;
    ViewClock(bl, code, s, i);
  }

  // ---------- Where the instructions go ----------

  // EX sends fetch elsewhere: two clocks until an instruction is in EX again.
  lemma Flushed(bl: Blocks, code: Code, s: System, i: Inputs)
    requires Clock(code, s, i) && CoreOk(s.core) && ExRedirect(bl, s.core, i)
    ensures var c := Next(bl, s.core, i); !c.idEx.valid && !c.slot.valid
  {
    hide S2.Inv, Wellformed, NextCsr, NextMulDiv, NextRegs, NextControl, ExMemD, Decode, ExTrap, ExTarget,
         RedirectWhy, IdHazard, ExStall, IdRs, IdRedirect, ExMret, ExWrong, Resuming, ExRedirect, Follows;
    if ExStall(s.core) {
      StallNoFlush(bl, code, s, i);
    }
  }

  // The instruction in ID waits for a load, moves to EX, or is still on its way.
  lemma Moved(bl: Blocks, code: Code, s: System, i: Inputs)
    requires Clock(code, s, i) && CoreOk(s.core) && !FlushId(bl, s.core, i) && !ExStall(s.core) && !Halted(s.core)
    ensures var c := Next(bl, s.core, i);
            if s.core.slot.valid && !IdHazard(s.core, i) then
              c.idEx.valid && c.idEx.dec == IdDec(i) && c.idEx.pc == s.core.slot.pc
            else !c.idEx.valid && c.slot.valid && !Halted(c)
  {
    hide S2.Inv, Wellformed, NextCsr, NextMulDiv, NextRegs, ExMemD, Decode, ExTrap, ExTarget, RedirectWhy, ExStall,
         IdRs, ExMret, ExWrong, Follows, ExStop, Resuming;
    NoStop(bl, s.core, i);
    if !s.core.slot.valid {
      EmptyIdStays(bl, s.core, i);
    }
  }

  lemma NoStop(bl: Blocks, c: Core, i: Inputs)
    requires !FlushId(bl, c, i)
    ensures !ExStop(c, i) && !ExRedirect(bl, c, i)
  {
    hide ExTrap, ExMret, ExWrong, Resuming, ExStop;
  }

  lemma EmptyIdStays(bl: Blocks, c: Core, i: Inputs)
    requires !c.slot.valid
    ensures !IdRedirect(bl, c, i) && !IdHazard(c, i)
  {
    hide ExStall, FlushId;
  }

  /** While nothing leaves EX the next instruction comes one clock nearer. */
  lemma IdleDistance(bl: Blocks, code: Code, s: System, i: Inputs)
    requires Clock(code, s, i) && CoreOk(s.core) && !Commits(bl, s.core, i) && !Halted(s.core)
    ensures var c := Next(bl, s.core, i);
            && Distance(code, s.core) == Distance(code, c) + 1
            && !Halted(c) && ArchPc(c) == ArchPc(s.core)
  {
    hide S2.Inv, Wellformed, Next, NextEnv, Decode, ExTrap, ExStall, ExRedirect, IdHazard, Own, InExFor, Execute;
    ClockRefines(bl, code, s, i);
    var c := Next(bl, s.core, i);
    if s.core.idEx.valid {
      StallHolds(bl, code, s, i);
      DivisionNearer(code, s, i, bl);
    } else {
      EmptyEx(bl, s.core, i);
      Moved(bl, code, s, i);
      if s.core.slot.valid {
        Fresh(s, bl, code, i);
        MovedCost(code, s, i, c);
      }
    }
  }

  lemma StallHolds(bl: Blocks, code: Code, s: System, i: Inputs)
    requires Clock(code, s, i) && CoreOk(s.core) && !Commits(bl, s.core, i) && s.core.idEx.valid
    ensures ExStall(s.core) && Next(bl, s.core, i).idEx == s.core.idEx
  {
    hide Inv, Wellformed, ExTrap, IdHazard, FlushId, NextCsr, NextMulDiv, NextRegs, NextControl, ExMemD, FetchCtrlOf,
         ExStall, IdExD;
  }

  lemma EmptyEx(bl: Blocks, c: Core, i: Inputs)
    requires !c.idEx.valid && !Halted(c)
    ensures !ExStall(c) && !FlushId(bl, c, i) && !IdHazard(c, i)
  {
  }

  // An instruction that comes into EX needs its own clocks.
  lemma MovedCost(code: Code, s: System, i: Inputs, c: Core)
    requires Clock(code, s, i) && s.core.slot.valid && c.idEx.dec == IdDec(i) && !c.muldiv.ready && !c.muldiv.div.busy
    ensures InExFor(c.muldiv, c.idEx.dec) == Own(code(s.core.slot.pc))
  {
    hide S2.Inv, Wellformed, Decode, IsDivInsn;
    DivControls(code(s.core.slot.pc));
  }

  // ---------- A clock in which an instruction leaves EX ----------

  // The entry of the instruction in EX.
  function Leaving(bl: Blocks, s: System, i: Inputs): Entry
    requires CoreOk(s.core)
  {
    Execute(bl, ArchOf(s), s.core.idEx.insn, ContextOf(s, i)).1
  }

  // The machine's entry in terms of EX.
  lemma LeavingFields(bl: Blocks, code: Code, s: System, i: Inputs)
    requires Clock(code, s, i) && CoreOk(s.core) && Commits(bl, s.core, i)
    ensures s.core.idEx.valid
    ensures var e, x := Leaving(bl, s, i), s.core.idEx;
            && e.insn == x.insn && e.pc == x.pc && e.trap == ExTrap(bl, s.core, i).valid
            && x.insn == code(ArchOf(s).pc) && x.dec == Decode(x.insn) && Encodable(x.insn)
            && (e.insn.kind.KBranch? ==> Condition(e.insn.funct3, e.rs1Data, e.rs2Data) == ExBranch(x).taken)
            && (!e.insn.kind.KBranch? ==> (ExBranch(x).taken <==> e.insn.kind.KJal? || e.insn.kind.KJalr?))
  {
    hide S2.FetchInv, S2.SlotInv, MulDivInv, S2.MemInv, S2.BubbleInv, ArchRegs, S2.ArchRegs, ExStall, M2.ExStall,
         ExTrap, M2.ExTrap, TrapOf, Decode, Value, CsrsAfter, NextPc, StoreValue, BranchUnit, Condition;
    ViewClock(bl, code, s, i);
    ViewExact(code, s);
    ExSame(bl, code, s, i);
    ActsInView(bl, s, i);
    C2.Operands(code, View(s), InputView(s, i));
    C2.TrapOfEx(bl, code, View(s), InputView(s, i));
    C2.BranchOfEx(code, View(s), InputView(s, i));
  }

  lemma ActsInView(bl: Blocks, s: System, i: Inputs)
    requires Commits(bl, s.core, i)
    ensures s.core.idEx.valid
  {
  }

  // What EX does is what the cost says.
  lemma RedirectionExact(bl: Blocks, code: Code, s: System, i: Inputs)
    requires Clock(code, s, i) && CoreOk(s.core) && Commits(bl, s.core, i)
    ensures Redirection(Leaving(bl, s, i))
            == if ExTrap(bl, s.core, i).valid || ExMret(s.core) || ExWrong(s.core) then 2
               else if s.core.idEx.redirected then 1 else 0
  {
    hide S2.Inv, Wellformed, ArchOf, Execute, ExTrap, ExStall, Decode, BranchUnit, Condition, Commits, Leaving,
         Follows;
    LeavingFields(bl, code, s, i);
    var x := s.core.idEx;
    FollowsExact(x.insn, x.pc);
    JumpsExact(x.insn);
    SystemExact(x.insn);
    if x.insn.kind.KJal? && !ExTrap(bl, s.core, i).valid {
      JalTaken(bl, code, s, i);
    }
  }

  // A JAL that does not trap goes to the address of an instruction.
  lemma JalTaken(bl: Blocks, code: Code, s: System, i: Inputs)
    requires Clock(code, s, i) && CoreOk(s.core) && Commits(bl, s.core, i) && !ExTrap(bl, s.core, i).valid
    requires s.core.idEx.valid && s.core.idEx.insn.kind.KJal?
    ensures s.core.idEx.redirected
  {
    hide S2.FetchInv, S2.SlotInv, MulDivInv, S2.MemInv, S2.HaltInv, S2.BubbleInv, Wellformed;
    JumpsExact(s.core.idEx.insn);
  }

  // The interlock is the load-use of the machine.
  lemma HazardExact(bl: Blocks, code: Code, s: System, i: Inputs)
    requires Clock(code, s, i) && CoreOk(s.core) && Commits(bl, s.core, i) && !ExTrap(bl, s.core, i).valid
             && s.core.slot.valid
    ensures IdHazard(s.core, i) <==> LoadUse(Leaving(bl, s, i), code(s.core.slot.pc))
  {
    hide S2.Inv, Wellformed, ArchOf, Execute, ExTrap, ExStall, Decode, BranchUnit, Condition, Commits, Leaving,
         Follows;
    LeavingFields(bl, code, s, i);
    Encodes(code, s.core.slot.pc);
    FieldsExact(s.core.idEx.insn);
    AccessExact(s.core.idEx.insn);
    FieldsExact(code(s.core.slot.pc));
    ReadsExact(code(s.core.slot.pc));
  }

  lemma Encodes(code: Code, a: Addr)
    requires Wellformed(code)
    ensures Encodable(code(a))
  {
  }

  lemma LeavesNow(bl: Blocks, code: Code, s: System, i: Inputs)
    requires Clock(code, s, i) && CoreOk(s.core) && Commits(bl, s.core, i)
    ensures s.core.idEx.valid && !ExStall(s.core) && Distance(code, s.core) == 0
  {
    hide S2.Inv, Wellformed, ExTrap, Decode, Follows, FlushId;
    ActsInView(bl, s, i);
    if ExStall(s.core) {
      StallNoFlush(bl, code, s, i);
      TrapFlushes(bl, s.core, i);
    }
  }

  lemma TrapFlushes(bl: Blocks, c: Core, i: Inputs)
    requires !FlushId(bl, c, i)
    ensures !ExTrap(bl, c, i).valid && !ExMret(c) && !ExWrong(c)
  {
    hide ExTrap;
  }

  /** When an instruction leaves EX, the next one follows after the clocks the cost says. */
  lemma CommitDistance(bl: Blocks, code: Code, s: System, i: Inputs)
    requires Clock(code, s, i) && CoreOk(s.core) && Commits(bl, s.core, i) && !Halted(Next(bl, s.core, i))
    ensures var c := Next(bl, s.core, i);
            Distance(code, c) == Gap(Leaving(bl, s, i), code(ArchPc(c))) + Own(code(ArchPc(c)))
  {
    hide S2.Inv, Wellformed, Next, ExTrap, ExStall, Decode, Follows, ExMret, ExWrong, Leaving, Redirection, LoadUse,
         Own, Commits, IdHazard, InExFor, ExRedirect, FlushId;
    var c := Next(bl, s.core, i);
    LeavesNow(bl, code, s, i);
    RunsInEx(code, s);
    RedirectionExact(bl, code, s, i);
    if FlushId(bl, s.core, i) {
      NotStopping(bl, s.core, i);
      Flushed(bl, code, s, i);
      FlushCost(bl, code, s, i, code(ArchPc(c)));
    } else {
      TrapFlushes(bl, s.core, i);
      Moved(bl, code, s, i);
      LeavingFields(bl, code, s, i);
      if s.core.slot.valid {
        HazardExact(bl, code, s, i);
        HeldSlot(bl, code, s, i);
        if !IdHazard(s.core, i) {
          Fresh(s, bl, code, i);
          MovedCost(code, s, i, c);
        }
      } else {
        NoLoadFollowed(bl, code, s, i, code(ArchPc(c)));
      }
    }
  }

  lemma RunsInEx(code: Code, s: System)
    requires Inv(code, s) && s.core.idEx.valid
    ensures !Halted(s.core)
  {
  }

  lemma NotStopping(bl: Blocks, c: Core, i: Inputs)
    requires CoreOk(c) && FlushId(bl, c, i) && !Halted(Next(bl, c, i))
    ensures ExRedirect(bl, c, i)
  {
    hide ExRedirect, NextIdEx, NextCsr, NextMulDiv, NextRegs, ExMemD, FetchCtrlOf;
  }

  // After a redirect from EX only the two clocks count: the instruction was no load that completed.
  lemma FlushCost(bl: Blocks, code: Code, s: System, i: Inputs, next: Insn)
    requires Clock(code, s, i) && CoreOk(s.core) && Commits(bl, s.core, i) && ExRedirect(bl, s.core, i)
    ensures Gap(Leaving(bl, s, i), next) == 2
  {
    hide S2.Inv, Wellformed, ExTrap, ExStall, Decode, Follows, Leaving, Redirection, Commits, Condition, BranchUnit;
    RedirectionExact(bl, code, s, i);
    LeavingFields(bl, code, s, i);
    RunsInEx(code, s);
    if s.core.idEx.insn.kind.KLoad? {
      NoLoadRedirects(code, s, i);
    }
  }

  lemma NoLoadRedirects(code: Code, s: System, i: Inputs)
    requires Inv(code, s) && s.core.idEx.valid
    requires s.core.idEx.insn.kind.KLoad? && s.core.idEx.dec == Decode(s.core.idEx.insn)
    ensures !ExMret(s.core) && !ExWrong(s.core) && !s.core.idEx.redirected
  {
    hide S2.Inv, Decode;
    JumpsExact(s.core.idEx.insn);
    SystemExact(s.core.idEx.insn);
  }

  lemma NoLoadFollowed(bl: Blocks, code: Code, s: System, i: Inputs, next: Insn)
    requires Clock(code, s, i) && CoreOk(s.core) && Commits(bl, s.core, i) && s.core.idEx.redirected
    ensures !LoadUse(Leaving(bl, s, i), next)
  {
    hide S2.Inv, Wellformed, ExTrap, ExStall, Decode, Follows, Leaving, Redirection, Commits, Condition, BranchUnit;
    LeavingFields(bl, code, s, i);
    if s.core.idEx.insn.kind.KLoad? {
      NoLoadRedirects(code, s, i);
    }
  }

  // Without a redirect from EX the next instruction is the one in ID.
  lemma HeldSlot(bl: Blocks, code: Code, s: System, i: Inputs)
    requires Clock(code, s, i) && CoreOk(s.core) && !FlushId(bl, s.core, i) && !ExStall(s.core) && s.core.slot.valid
    requires !Halted(Next(bl, s.core, i))
    ensures ArchPc(Next(bl, s.core, i)) == s.core.slot.pc
  {
    hide S2.Inv, Wellformed, NextCsr, NextMulDiv, NextRegs, ExMemD, Decode, ExTrap, ExTarget, RedirectWhy, ExStall,
         IdRs, ExMret, ExWrong, Follows, ExStop, Resuming, ExRedirect, IdTaken;
    NoStop(bl, s.core, i);
  }
}
