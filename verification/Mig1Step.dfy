/** Every clock of Mig1 keeps the invariant and is one step of the sequential machine, or none. */
module Mig1Step {
  import opened Isa
  import opened Parts
  import opened Csr
  import opened MulDiv
  import opened Mig1
  import opened Mig1System
  import M2 = Mig2
  import S2 = Mig2System
  import C2 = Mig2Commit
  import R2 = Mig2Refinement
  import F2 = Mig2Flow
  import P2 = Mig2Step

  // Code Mig1 can decode: it has no bit manipulation, those words are illegal.
  predicate Wellformed(code: Code) {
    C2.Wellformed(code) && forall a: Addr :: !code(a).kind.KBitmanip?
  }

  predicate Clock(code: Code, s: System, i: Inputs) { Inv(code, s) && Wellformed(code) && Legal(s, i) }

  lemma ViewClock(bl: Blocks, code: Code, s: System, i: Inputs)
    requires Clock(code, s, i)
    ensures R2.Clock(bl, code, View(s), InputView(s, i))
    ensures !M2.MemWait(CoreView(s), InputView(s, i)) && CoreOk(s.core)
    ensures s.core.idEx.valid ==> !s.core.idEx.insn.kind.KBitmanip? && s.core.idEx.dec == Decode(s.core.idEx.insn)
  {
    hide S2.FetchInv, S2.SlotInv, MulDivInv, S2.MemInv, S2.HaltInv, S2.BubbleInv;
  }

  // The load/store unit of Mig2 has an offset of its own; it is the low bits of the address.
  lemma LsuSame(bl: Blocks, code: Code, s: System, i: Inputs)
    requires Clock(code, s, i)
    ensures var l, m := ExLsu(bl, s.core), M2.ExLsu(bl, CoreView(s), InputView(s, i));
            && l.misaligned == m.misaligned && l.mem == m.mem && l.req.valid == m.req.valid
            && (l.req.valid ==> l.req == m.req)
  {
    hide S2.FetchInv, S2.SlotInv, MulDivInv, S2.MemInv, S2.HaltInv, S2.BubbleInv;
    var x := s.core.idEx;
    ViewClock(bl, code, s, i);
    if x.valid {
      AccessExact(x.insn);
      OffsetOfSum(x.rs1Data, x.dec.imm);
    }
  }

  // EX decides the same in both: what traps, what stalls, what completes and where it goes.
  lemma ExSame(bl: Blocks, code: Code, s: System, i: Inputs)
    requires Clock(code, s, i)
    ensures var c, d, j := s.core, CoreView(s), InputView(s, i);
            && ExTrap(bl, c, i) == M2.ExTrap(bl, d, j) && ExStall(c) == M2.ExStall(bl, d, j)
            && ExStop(c, i) == M2.ExStop(d, j) && ExRedirect(bl, c, i) == M2.ExRedirect(bl, d, j)
            && ExTarget(bl, c, i) == M2.ExTarget(bl, d, j) && RedirectWhy(bl, c, i) == M2.RedirectWhy(bl, d, j)
            && ExDone(bl, c, i) == M2.ExDone(bl, d, j) && FlushId(bl, c, i) == M2.FlushId(bl, d, j)
            && Commits(bl, c, i) == M2.Commits(bl, d, j)
  {
    hide S2.FetchInv, S2.SlotInv, MulDivInv, S2.MemInv, S2.HaltInv, S2.BubbleInv, S2.ExInv, ExLsu, M2.ExLsu,
         Wellformed, Illegal;
    ViewClock(bl, code, s, i);
    LsuSame(bl, code, s, i);
  }

  lemma RdDataSame(bl: Blocks, code: Code, s: System, i: Inputs)
    requires Clock(code, s, i) && s.core.idEx.valid
    ensures ExRdData(bl, s.core) == M2.ExRdData(bl, CoreView(s))
  {
    hide S2.FetchInv, S2.SlotInv, MulDivInv, S2.MemInv, S2.HaltInv, S2.BubbleInv, S2.ExInv, Csr.Read, MulDivResult,
         Wellformed;
    ViewClock(bl, code, s, i);
    NoBitmanip(s.core.idEx.insn);
  }

  lemma NoBitmanip(i: Insn)
    requires !i.kind.KBitmanip?
    ensures !Decode(i).rdSrc.RdBitmanip?
  {
  }

  // What goes to MEM/WB is the same, except the fields of a bubble.
  lemma ExMemSame(bl: Blocks, code: Code, s: System, i: Inputs)
    requires Clock(code, s, i)
    ensures var m, n := ExMemD(bl, s.core, i), M2.ExMemD(bl, CoreView(s), InputView(s, i));
            m.(load := Reading(m)) == n
  {
    hide S2.FetchInv, S2.SlotInv, MulDivInv, S2.MemInv, S2.HaltInv, S2.BubbleInv, S2.ExInv, ExLsu, M2.ExLsu,
         Wellformed, ExTrap, M2.ExTrap, ExStall, M2.ExStall, ExRedirect, M2.ExRedirect, ExTarget, M2.ExTarget,
         ExRdData, M2.ExRdData, Commits, M2.Commits, ExDone, M2.ExDone;
    ViewClock(bl, code, s, i);
    ExSame(bl, code, s, i);
    LsuSame(bl, code, s, i);
    if s.core.idEx.valid {
      RdDataSame(bl, code, s, i);
    }
    BubbleSame(bl, code, s, i);
    DoneValid(bl, s.core, i);
  }

  lemma DoneValid(bl: Blocks, c: Core, i: Inputs)
    ensures ExDone(bl, c, i) ==> c.idEx.valid
  {
  }

  lemma BubbleSame(bl: Blocks, code: Code, s: System, i: Inputs)
    requires Clock(code, s, i)
    ensures ExMemD(bl, s.core, i).bubble == M2.ExBubble(bl, CoreView(s), InputView(s, i))
  {
    hide S2.FetchInv, S2.SlotInv, MulDivInv, S2.MemInv, S2.HaltInv, S2.BubbleInv, S2.ExInv, ExLsu, M2.ExLsu,
         Wellformed, ExTrap, M2.ExTrap, ExStop, M2.ExStop, M2.FlushId, FlushId, ExRetire;
    ViewClock(bl, code, s, i);
    ExSame(bl, code, s, i);
  }

  // ---------- After the clock ----------

  // The state after the clock, seen as a Mig2; and the Mig2 after its clock.
  function Mine(bl: Blocks, code: Code, s: System, i: Inputs): S2.System
    requires CoreOk(s.core)
  {
    View(NextSystem(bl, code, s, i))
  }

  function Theirs(bl: Blocks, s: System, i: Inputs): S2.System
    requires CoreOk(s.core)
  {
    S2.NextSystem(bl, View(s), InputView(s, i))
  }

  // Everything behind EX is the same.
  lemma BackSame(bl: Blocks, code: Code, s: System, i: Inputs)
    requires Clock(code, s, i)
    ensures CoreOk(s.core)
    ensures var a, b := Mine(bl, code, s, i), Theirs(bl, s, i);
            && a.core.exMem == b.core.exMem && a.core.csr == b.core.csr && a.core.regs == b.core.regs
            && a.core.control == b.core.control && a.core.order == b.core.order
  {
    hide S2.FetchInv, S2.SlotInv, MulDivInv, S2.MemInv, S2.HaltInv, S2.BubbleInv, S2.ExInv, ExLsu, M2.ExLsu,
         Wellformed, ExTrap, M2.ExTrap, ExRetire, M2.ExRetire, ExMemD, M2.ExMemD, NextCsr, NextMulDiv, NextIdEx,
         M2.NextIdEx, M2.NextFetch, NextSlot, NextFetchPc, FetchCtrlOf, M2.FetchCtrlOf, ExStall, M2.ExStall,
         S2.NextEnv, NextEnv, LoadData, ExDone, M2.ExDone;
    ViewClock(bl, code, s, i);
    ExSame(bl, code, s, i);
    ExMemSame(bl, code, s, i);
    RegsSame(bl, code, s, i);
  }

  lemma RegsSame(bl: Blocks, code: Code, s: System, i: Inputs)
    requires Clock(code, s, i)
    ensures CoreOk(s.core) && NextRegs(s.core, i) == M2.NextRegs(CoreView(s), InputView(s, i))
    ensures MemRd(s.core) == M2.MemRd(CoreView(s), InputView(s, i))
    ensures MemRd(s.core) != 0 ==> MemRdData(s.core, i) == M2.MemRdData(CoreView(s), InputView(s, i))
  {
    hide S2.FetchInv, S2.SlotInv, MulDivInv, S2.HaltInv, S2.BubbleInv, S2.ExInv, Wellformed, LoadData;
    ViewClock(bl, code, s, i);
    TrapsWriteNothing(code, s);
  }

  lemma TrapsWriteNothing(code: Code, s: System)
    requires Inv(code, s)
    ensures s.core.exMem.valid && s.core.exMem.ret.trap ==> s.core.exMem.ret.rd == 0
  {
    hide S2.FetchInv, S2.SlotInv, MulDivInv, S2.HaltInv, S2.BubbleInv, S2.ExInv;
  }

  lemma EnvSame(bl: Blocks, code: Code, s: System, i: Inputs)
    requires Clock(code, s, i)
    ensures CoreOk(s.core)
    ensures var a, b := Mine(bl, code, s, i).env, Theirs(bl, s, i).env;
            a.dBusy == b.dBusy && a.dWord == b.dWord && a.mem == b.mem
  {
    hide S2.FetchInv, S2.SlotInv, MulDivInv, S2.HaltInv, S2.BubbleInv, S2.ExInv, Wellformed, ExLsu, M2.ExLsu,
         M2.FetchCtrlOf, FetchCtrlOf, M2.Next, Next, StrobeWrite;
    ViewClock(bl, code, s, i);
    LsuSame(bl, code, s, i);
    BackSame(bl, code, s, i);
    P2.MemPart(bl, code, View(s), InputView(s, i));
  }

  // ---------- ID and fetch ----------

  // ID sees the same instruction, and moves it in the same clock.
  lemma IdSame(bl: Blocks, code: Code, s: System, i: Inputs)
    requires Clock(code, s, i)
    ensures var c, d, j := s.core, CoreView(s), InputView(s, i);
            && M2.IdInsn(d.fetch, j) == i.insn && M2.IdFetch(d.fetch, j) == c.slot && !M2.IdWait(d.fetch, j)
            && IdHazard(c, i) == M2.IdHazard(d, j) && IdMoves(bl, c, i) == M2.IdMoves(bl, d, j)
            && IdTaken(c, i) == M2.IdTaken(d, j) && IdTarget(c, i) == M2.IdTarget(d, j)
  {
    hide S2.FetchInv, S2.SlotInv, MulDivInv, S2.MemInv, S2.HaltInv, S2.BubbleInv, S2.ExInv, Wellformed, ExStall,
         M2.ExStall, FlushId, M2.FlushId, Decode;
    ExSame(bl, code, s, i);
  }

  // A return moves from ID to EX: Mig2 follows the return stack, Mig1 goes on to the next address.
  predicate ReturnMoves(bl: Blocks, c: Core, i: Inputs) { IdMoves(bl, c, i) && IdDec(i).ret }

  lemma RedirectSame(bl: Blocks, code: Code, s: System, i: Inputs)
    requires Clock(code, s, i) && !ReturnMoves(bl, s.core, i)
    ensures IdRedirect(bl, s.core, i) == M2.IdRedirect(bl, CoreView(s), InputView(s, i))
    ensures IdMoves(bl, s.core, i) || !s.core.slot.valid ==>
              IdRedirect(bl, s.core, i) == M2.IdRedirected(CoreView(s), InputView(s, i))
    ensures M2.IdRedirect(bl, CoreView(s), InputView(s, i)) ==>
              WordAddr(IdTarget(s.core, i)) == M2.IdRedirectPc(CoreView(s), InputView(s, i))
  {
    hide S2.FetchInv, S2.SlotInv, MulDivInv, S2.MemInv, S2.HaltInv, S2.BubbleInv, S2.ExInv, Wellformed, IdMoves,
         M2.IdMoves, Decode, Add, WordAddr;
    IdSame(bl, code, s, i);
    ViewDec(s, i);
  }

  lemma ViewDec(s: System, i: Inputs)
    requires M2.IdInsn(CoreView(s).fetch, InputView(s, i)) == i.insn
    ensures M2.IdDec(CoreView(s), InputView(s, i)) == IdDec(i)
  {
  }

  lemma CtrlSame(bl: Blocks, code: Code, s: System, i: Inputs)
    requires Clock(code, s, i) && !ReturnMoves(bl, s.core, i)
    ensures var k, l := FetchCtrlOf(bl, s.core, i), M2.FetchCtrlOf(bl, CoreView(s), InputView(s, i));
            && k.run == l.run && k.stall == l.stall && k.redirect == l.redirect
            && (k.redirect ==> k.why == l.why && k.target == l.target)
  {
    hide S2.FetchInv, S2.SlotInv, MulDivInv, S2.MemInv, S2.HaltInv, S2.BubbleInv, S2.ExInv, Wellformed, Decode,
         ExStall, M2.ExStall, FlushId, M2.FlushId, ExRedirect, M2.ExRedirect, ExTarget, M2.ExTarget, RedirectWhy,
         M2.RedirectWhy, IdMoves, M2.IdMoves, IdTarget, M2.IdTarget, IdHazard, M2.IdHazard, ExStop, M2.ExStop,
         IdTaken, M2.IdTaken, M2.IdRedirectPc;
    ExSame(bl, code, s, i);
    IdSame(bl, code, s, i);
    RedirectSame(bl, code, s, i);
    ViewDec(s, i);
    WhySame(bl, code, s, i);
  }

  // The reason of the bubble after a redirect of ID.
  lemma WhySame(bl: Blocks, code: Code, s: System, i: Inputs)
    requires Clock(code, s, i) && !ReturnMoves(bl, s.core, i)
    ensures IdRedirect(bl, s.core, i) ==> !M2.IdRet(CoreView(s), InputView(s, i))
    ensures IdJal(s.core, i) == M2.IdJal(CoreView(s), InputView(s, i)) && !M2.IdBtbFix(CoreView(s), InputView(s, i))
  {
    hide S2.FetchInv, S2.SlotInv, MulDivInv, S2.MemInv, S2.HaltInv, S2.BubbleInv, S2.ExInv, Wellformed, Decode,
         IdMoves, M2.IdMoves, IdTarget, M2.IdTarget, M2.IdBtbOk;
    IdSame(bl, code, s, i);
    ViewDec(s, i);
  }

  lemma FetchSame(bl: Blocks, code: Code, s: System, i: Inputs)
    requires Clock(code, s, i) && !ReturnMoves(bl, s.core, i) && CoreOk(s.core)
    ensures var a, b := Mine(bl, code, s, i).core, Theirs(bl, s, i).core;
            a.fetch.slot == b.fetch.slot && a.fetch.pc == b.fetch.pc
  {
    hide S2.FetchInv, S2.SlotInv, MulDivInv, S2.MemInv, S2.HaltInv, S2.BubbleInv, S2.ExInv, Wellformed, FetchCtrlOf,
         M2.FetchCtrlOf, NextIdEx, M2.NextIdEx, ExMemD, M2.ExMemD, NextCsr, NextMulDiv, NextRegs, M2.NextRegs,
         NextControl, M2.NextControl, Reading, S2.NextEnv, NextEnv;
    ViewClock(bl, code, s, i);
    CtrlSame(bl, code, s, i);
    IdSame(bl, code, s, i);
  }

  lemma IdRsSame(bl: Blocks, code: Code, s: System, i: Inputs, r: RegId)
    requires Clock(code, s, i) && CoreOk(s.core)
    ensures IdRs(bl, s.core, i, r) == M2.IdRs(bl, CoreView(s), InputView(s, i), r)
  {
    hide S2.FetchInv, S2.SlotInv, MulDivInv, S2.MemInv, S2.HaltInv, S2.BubbleInv, S2.ExInv, Wellformed, ExRdData,
         M2.ExRdData, MemRd, M2.MemRd, MemRdData, M2.MemRdData;
    RegsSame(bl, code, s, i);
    if s.core.idEx.valid {
      RdDataSame(bl, code, s, i);
    }
  }

  lemma IdExSame(bl: Blocks, code: Code, s: System, i: Inputs)
    requires Clock(code, s, i) && CoreOk(s.core)
    ensures var a, b := Mine(bl, code, s, i).core.idEx, Theirs(bl, s, i).core.idEx;
            if ReturnMoves(bl, s.core, i) then
              a == b.(redirected := false) && a.valid && a.dec.ret && a.pc == s.core.slot.pc
            else a == b
  {
    hide S2.FetchInv, S2.SlotInv, MulDivInv, S2.MemInv, S2.HaltInv, S2.BubbleInv, S2.ExInv, Wellformed, NextCsr,
         NextMulDiv, NextRegs, M2.NextRegs, NextControl, M2.NextControl, Reading, S2.NextEnv, NextEnv, NextSlot,
         M2.NextFetch, NextFetchPc, ExMemD, M2.ExMemD, FetchCtrlOf, M2.FetchCtrlOf, Decode, ExStall, M2.ExStall,
         FlushId, M2.FlushId, ExRedirect, M2.ExRedirect, RedirectWhy, M2.RedirectWhy, IdHazard, M2.IdHazard, ExStop,
         M2.ExStop, IdRs, M2.IdRs, M2.IdRedirected, IdTaken;
    ViewClock(bl, code, s, i);
    ExSame(bl, code, s, i);
    IdSame(bl, code, s, i);
    ViewDec(s, i);
    IdRsSame(bl, code, s, i, IdDec(i).rs1);
    IdRsSame(bl, code, s, i, IdDec(i).rs2);
    if ReturnMoves(bl, s.core, i) {
      ReturnNotTaken(bl, s.core, i);
    } else {
      RedirectSame(bl, code, s, i);
    }
  }

  lemma ReturnNotTaken(bl: Blocks, c: Core, i: Inputs)
    requires IdDec(i).ret
    ensures !IdRedirect(bl, c, i)
  {
    JumpsExact(i.insn);
  }

  // ---------- The invariant ----------

  lemma FetchPart(bl: Blocks, code: Code, s: System, i: Inputs)
    requires Clock(code, s, i) && CoreOk(s.core)
    ensures var s' := NextSystem(bl, code, s, i);
            && S2.FetchInv(code, FetchView(s'), View(s').env)
            && (s'.core.slot.valid ==> s'.env.insn == code(s'.core.slot.pc))
            && (s'.core.slot.valid ==> s'.core.pc == NextAddr(s'.core.slot.pc))
  {
    hide S2.FetchInv, MulDivInv, S2.MemInv, S2.HaltInv, S2.BubbleInv, S2.ExInv, Wellformed, ExStall, FlushId,
         ExRedirect, IdRedirect, ExTarget, RedirectWhy, IdHazard, ExLsu, NextIdEx, ExMemD, NextCsr, NextMulDiv,
         NextRegs, NextControl, FetchCtrlOf;
    RedirectNoStall(bl, s.core, i);
    SlotView(code, NextSystem(bl, code, s, i));
  }

  lemma SlotView(code: Code, s: System)
    ensures S2.FetchInv(code, FetchView(s), View(s).env)
  {
  }

  lemma RedirectNoStall(bl: Blocks, c: Core, i: Inputs)
    ensures var k := FetchCtrlOf(bl, c, i); !(k.redirect && k.stall)
  {
    hide ExTrap, ExTarget, RedirectWhy, ExStall, IdHazard;
  }

  lemma MulDivPart(bl: Blocks, code: Code, s: System, i: Inputs)
    requires Clock(code, s, i) && CoreOk(s.core)
    ensures var c := Next(bl, s.core, i);
            MulDivInv(c.muldiv, c.idEx.valid, c.idEx.dec, c.idEx.rs1Data, c.idEx.rs2Data)
  {
    hide S2.FetchInv, S2.SlotInv, MulDivInv, S2.MemInv, S2.HaltInv, S2.BubbleInv, S2.ExInv, Wellformed, NextCsr,
         NextRegs, NextControl, NextSlot, NextFetchPc, ExMemD, FetchCtrlOf, NextMulDiv, FlushId, IdExD, IdHazard;
    var x, x' := s.core.idEx, Next(bl, s.core, i).idEx;
    if ExStall(s.core) {
      HeldKeeps(s.core.muldiv, false, false, x.valid, x.dec, x.rs1Data, x.rs2Data);
    } else {
      MovedKeeps(s.core.muldiv, false, x.valid, x.dec, x.rs1Data, x.rs2Data, x'.valid, x'.dec, x'.rs1Data, x'.rs2Data);
    }
  }

  // The registers of the machine are the same, so a Mig1 has the operands Mig2 has.
  lemma RegsOfBoth(bl: Blocks, code: Code, s: System, i: Inputs)
    requires Clock(code, s, i) && CoreOk(s.core)
    ensures S2.ArchRegs(Mine(bl, code, s, i)) == S2.ArchRegs(Theirs(bl, s, i))
  {
    hide Inv, Wellformed, Mine, Theirs, LoadData;
    BackSame(bl, code, s, i);
    EnvSame(bl, code, s, i);
  }

  lemma ExPart(bl: Blocks, code: Code, s: System, i: Inputs)
    requires Clock(code, s, i) && CoreOk(s.core)
    ensures S2.ExInv(code, Mine(bl, code, s, i))
  {
    hide S2.FetchInv, S2.SlotInv, MulDivInv, S2.MemInv, S2.HaltInv, S2.BubbleInv, Wellformed, S2.NextSystem, Next,
         NextEnv, Decode, S2.FollowsFetch, S2.ArchRegs, ReturnMoves, M2.IdMoves;
    ViewClock(bl, code, s, i);
    RegsOfBoth(bl, code, s, i);
    IdExSame(bl, code, s, i);
    P2.ExPart(bl, code, View(s), InputView(s, i));
    if ReturnMoves(bl, s.core, i) {
      ReturnBehind(bl, code, s, i);
    } else {
      FetchSame(bl, code, s, i);
    }
  }

  lemma ReturnBehind(bl: Blocks, code: Code, s: System, i: Inputs)
    requires Clock(code, s, i) && CoreOk(s.core) && ReturnMoves(bl, s.core, i)
    ensures var c := NextSystem(bl, code, s, i).core;
            && c.slot.valid && c.slot.pc == NextAddr(s.core.slot.pc)
            && c.control.running && !c.control.memHalting
  {
    hide S2.FetchInv, MulDivInv, S2.MemInv, S2.BubbleInv, S2.ExInv, Wellformed, ExStall, ExTrap, ExMret, ExWrong,
         Decode, ExTarget, RedirectWhy, IdHazard, ExLsu, NextIdEx, ExMemD, NextCsr, NextMulDiv, NextRegs;
    ReturnNotTaken(bl, s.core, i);
  }

  lemma HaltPart(bl: Blocks, code: Code, s: System, i: Inputs)
    requires Clock(code, s, i) && CoreOk(s.core)
    ensures S2.HaltInv(Mine(bl, code, s, i).core)
  {
    hide S2.FetchInv, S2.SlotInv, MulDivInv, S2.MemInv, S2.BubbleInv, S2.ExInv, Wellformed, S2.NextSystem,
         ReturnMoves, Next, NextEnv;
    ViewClock(bl, code, s, i);
    BackSame(bl, code, s, i);
    IdExSame(bl, code, s, i);
    P2.HaltPart(bl, code, View(s), InputView(s, i));
    if ReturnMoves(bl, s.core, i) {
      ReturnBehind(bl, code, s, i);
    } else {
      FetchSame(bl, code, s, i);
    }
  }

  lemma BubblePart(bl: Blocks, code: Code, s: System, i: Inputs)
    requires Clock(code, s, i) && CoreOk(s.core)
    ensures S2.BubbleInv(Mine(bl, code, s, i).core)
  {
    hide S2.FetchInv, S2.SlotInv, MulDivInv, S2.MemInv, S2.HaltInv, S2.ExInv, Wellformed, ReturnMoves, NextIdEx,
         M2.NextIdEx, NextCsr, NextMulDiv, ExMemD, M2.ExMemD, NextRegs, M2.NextRegs, NextControl, M2.NextControl,
         NextEnv, S2.NextEnv, FetchCtrlOf, M2.FetchCtrlOf, M2.NextFetch, NextFetchPc;
    ViewClock(bl, code, s, i);
    BackSame(bl, code, s, i);
    IdExSame(bl, code, s, i);
    P2.BubblePart(bl, code, View(s), InputView(s, i));
    WhyGiven(bl, s.core, i);
  }

  lemma WhyGiven(bl: Blocks, c: Core, i: Inputs)
    ensures FetchCtrlOf(bl, c, i).why != BNone
  {
    hide ExTrap, ExStall, IdHazard, ExRedirect, IdRedirect, ExTarget;
  }

  // Behind an instruction in EX the slot in ID is empty exactly when ID sent fetch away.
  lemma SlotPart(bl: Blocks, code: Code, s: System, i: Inputs)
    requires Clock(code, s, i) && CoreOk(s.core)
    ensures var c := Next(bl, s.core, i);
            && (c.idEx.valid ==> (c.slot.valid <==> !c.idEx.redirected))
            && (c.idEx.valid ==> c.idEx.redirected == Follows(c.idEx.dec, c.idEx.pc))
  {
    hide S2.FetchInv, S2.SlotInv, MulDivInv, S2.MemInv, S2.BubbleInv, S2.ExInv, Wellformed, ExStall, ExTrap, ExMret,
         ExWrong, Decode, ExTarget, RedirectWhy, IdHazard, ExLsu, ExMemD, NextCsr, NextMulDiv, NextRegs, IdRs,
         Resuming;
    ViewClock(bl, code, s, i);
    if ExStall(s.core) {
      StallNoFlush(bl, code, s, i);
    }
  }

  lemma StallNoFlush(bl: Blocks, code: Code, s: System, i: Inputs)
    requires Clock(code, s, i) && ExStall(s.core)
    ensures !FlushId(bl, s.core, i)
  {
    hide Inv, Wellformed, FlushId, M2.FlushId, M2.ExStall, ExStall;
    ViewClock(bl, code, s, i);
    ExSame(bl, code, s, i);
    F2.StallNoFlush(bl, code, View(s), InputView(s, i));
  }

  /** Every clock keeps the invariant. */
  lemma StepKeepsInv(bl: Blocks, code: Code, s: System, i: Inputs)
    requires Clock(code, s, i)
    ensures CoreOk(s.core) && Inv(code, NextSystem(bl, code, s, i))
  {
    hide S2.FetchInv, MulDivInv, S2.MemInv, S2.HaltInv, S2.BubbleInv, S2.ExInv, Wellformed, Next, NextEnv, M2.Next,
         S2.NextEnv;
    ViewClock(bl, code, s, i);
    FetchPart(bl, code, s, i);
    MulDivPart(bl, code, s, i);
    ExPart(bl, code, s, i);
    HaltPart(bl, code, s, i);
    BubblePart(bl, code, s, i);
    SlotPart(bl, code, s, i);
    MemPart(bl, code, s, i);
  }

  lemma MemPart(bl: Blocks, code: Code, s: System, i: Inputs)
    requires Clock(code, s, i) && CoreOk(s.core)
    ensures S2.MemInv(Mine(bl, code, s, i))
  {
    hide Inv, Wellformed, Mine, S2.NextSystem, R2.Clock;
    ViewClock(bl, code, s, i);
    BackSame(bl, code, s, i);
    EnvSame(bl, code, s, i);
    P2.MemPart(bl, code, View(s), InputView(s, i));
  }

  // ---------- The refinement ----------

  function ContextOf(s: System, i: Inputs): Context { Context(i.ebreakHalt, s.core.csr.mcycle) }

  /** What the clock is for the machine. */
  function EventOf(bl: Blocks, s: System, i: Inputs): Event {
    if Commits(bl, s.core, i) then Exec(ContextOf(s, i))
    else if !s.core.control.running then
      Debug(if i.dbgWrite then Some((i.dbgReg, i.dbgData)) else None, i.resume)
    else Stutter
  }

  // The entry in MEM/WB, with the data of a load.
  function Complete(s: System): Entry {
    var m := s.core.exMem;
    m.ret.(rdData := if m.ret.rd != 0 then PendingValue(s) else 0,
           rdata := if m.ret.rmask != NO_BYTES then s.env.word else 0)
  }

  lemma ViewExact(code: Code, s: System)
    requires Inv(code, s)
    ensures CoreOk(s.core) && S2.ArchOf(View(s)) == ArchOf(s)
    ensures s.core.exMem.valid ==> R2.Complete(View(s)) == Complete(s)
  {
    hide S2.FetchInv, S2.SlotInv, MulDivInv, S2.HaltInv, S2.BubbleInv, S2.ExInv, LoadData;
  }

  lemma EventSame(bl: Blocks, code: Code, s: System, i: Inputs)
    requires Clock(code, s, i)
    ensures R2.EventOf(bl, View(s), InputView(s, i)) == EventOf(bl, s, i)
  {
    hide Inv, Wellformed, Commits, M2.Commits, M2.ExDone, M2.ExTrap;
    ExSame(bl, code, s, i);
  }

  lemma ArchSame(bl: Blocks, code: Code, s: System, i: Inputs)
    requires Clock(code, s, i) && CoreOk(s.core)
    ensures S2.ArchOf(Mine(bl, code, s, i)) == S2.ArchOf(Theirs(bl, s, i))
  {
    hide Inv, Wellformed, Next, NextEnv, S2.NextSystem, S2.ArchRegs, ReturnMoves;
    RegsOfBoth(bl, code, s, i);
    BackSame(bl, code, s, i);
    EnvSame(bl, code, s, i);
    IdExSame(bl, code, s, i);
    if !ReturnMoves(bl, s.core, i) {
      FetchSame(bl, code, s, i);
    }
  }

  lemma CompleteSame(bl: Blocks, code: Code, s: System, i: Inputs)
    requires Clock(code, s, i) && CoreOk(s.core)
    ensures R2.Complete(Mine(bl, code, s, i)) == R2.Complete(Theirs(bl, s, i))
  {
    hide Inv, Wellformed, Mine, Theirs, LoadData;
    BackSame(bl, code, s, i);
    EnvSame(bl, code, s, i);
  }

  /** Every clock of Mig1 is one step of the sequential machine, exactly when an instruction completes
    * or traps in EX, and else none; what enters MEM/WB is the machine's entry.
    */
  lemma ClockRefines(bl: Blocks, code: Code, s: System, i: Inputs)
    requires Clock(code, s, i)
    ensures CoreOk(s.core) && Enabled(ArchOf(s), EventOf(bl, s, i))
    ensures EventOf(bl, s, i).Exec? ==> !ArchOf(s).halted
    ensures EventOf(bl, s, i).Debug? ==> ArchOf(s).halted
    ensures ArchOf(NextSystem(bl, code, s, i)) == Apply(bl, code, ArchOf(s), EventOf(bl, s, i))
    ensures NextSystem(bl, code, s, i).core.exMem.valid <==> EventOf(bl, s, i).Exec?
    ensures EventOf(bl, s, i).Exec? ==>
              Seen(Complete(NextSystem(bl, code, s, i)))
              == Execute(bl, ArchOf(s), code(ArchOf(s).pc), ContextOf(s, i)).1
  {
    hide Inv, Wellformed, Next, NextEnv, S2.NextSystem, S2.ArchOf, ArchOf, R2.Complete, Complete, Seen, Execute,
         R2.Clock, R2.EventOf, Apply, Enabled, ContextOf, M2.Commits;
    ViewClock(bl, code, s, i);
    var t := NextSystem(bl, code, s, i);
    StepKeepsInv(bl, code, s, i);
    ViewExact(code, s);
    ViewExact(code, t);
    EventSame(bl, code, s, i);
    ContextSame(s, i);
    P2.ClockRefines(bl, code, View(s), InputView(s, i));
    ArchSame(bl, code, s, i);
    CompleteSame(bl, code, s, i);
    Entered(bl, s, i);
  }

  lemma ContextSame(s: System, i: Inputs)
    ensures C2.ContextOf(View(s), InputView(s, i)) == ContextOf(s, i)
  {
  }

  lemma Entered(bl: Blocks, s: System, i: Inputs)
    requires CoreOk(s.core)
    ensures Next(bl, s.core, i).exMem.valid <==> Commits(bl, s.core, i)
  {
    hide NextIdEx, NextCsr, NextMulDiv, NextRegs, NextControl, FetchCtrlOf, ExRetire, ExDone, ExTrap;
  }

  /** The state after a reset satisfies the invariant, and stands for the machine at the reset address. */
  lemma ResetInv(code: Code, s: System, resetPc: Addr)
    requires AfterReset(s.core, resetPc)
    ensures Inv(code, s)
    ensures ArchOf(s) == Arch(resetPc, RegsOf(s.core.regs), RESET_CSRS, s.env.mem, false)
  {
  }
}
