/** Where fetch is: after every clock the slot behind EX is where EX believes it to be, whatever the
  * branch target buffer and the return stack said, and it is the next address of the machine.
  */
module Mig2Flow {
  import opened Isa
  import opened Parts
  import opened Csr
  import opened MulDiv
  import opened Mig2
  import opened Mig2System
  import opened Mig2FetchProofs
  import opened Mig2Commit
  import opened Mig2Refinement
  import Arith

  // ---------- Mig2Fetch alone ----------

  function Behind(f: FetchState): Addr { if f.slot.valid then f.slot.pc else f.pc }

  // A redirect drops the slot and asks for the target.
  lemma RedirectedFetch(f: FetchState, k: FetchCtrl, i: Inputs)
    requires k.redirect && !k.stall
    ensures !NextFetch(f, k, i).slot.valid && NextFetch(f, k, i).pc == k.target
  {
  }

  // A stall keeps the slot and the address.
  lemma StalledFetch(f: FetchState, k: FetchCtrl, i: Inputs)
    requires !k.redirect && k.stall
    ensures NextFetch(f, k, i).slot == f.slot && NextFetch(f, k, i).pc == f.pc && NextFetch(f, k, i).btb == f.btb
  {
  }

  // A slot that waits for its word stays; when it moves on, what fetch asked for comes next.
  lemma RunningFetch(f: FetchState, k: FetchCtrl, i: Inputs)
    requires !k.redirect && !k.stall && k.run
    ensures IdWait(f, i) ==> NextFetch(f, k, i).slot == f.slot && Behind(NextFetch(f, k, i)) == Behind(f)
    ensures !IdWait(f, i) ==> Behind(NextFetch(f, k, i)) == f.pc
  {
  }

  lemma StoppedFetch(f: FetchState, k: FetchCtrl, i: Inputs)
    requires !k.redirect && !k.stall && !k.run
    ensures !NextFetch(f, k, i).slot.valid
  {
  }

  // ---------- Control ----------

  // EX never sends fetch elsewhere while it stalls.
  lemma StallNoFlush(bl: Blocks, code: Code, s: System, i: Inputs)
    requires Clock(bl, code, s, i) && ExStall(bl, s.core, i)
    ensures !FlushId(bl, s.core, i) && FetchCtrlOf(bl, s.core, i).stall && !FetchCtrlOf(bl, s.core, i).redirect
  {
    hide FetchInv, MulDivInv, SlotInv, BubbleInv, ExTrap, ExLsu, Decode, ExRedirect;
    assert !ExRedirect(bl, s.core, i) && !ExStop(s.core, i) by {
      StallStays(bl, code, s, i);
    }
  }

  lemma StallStays(bl: Blocks, code: Code, s: System, i: Inputs)
    requires Clock(bl, code, s, i) && ExStall(bl, s.core, i)
    ensures !ExRedirect(bl, s.core, i) && !ExStop(s.core, i)
  {
    hide FetchInv, MulDivInv, SlotInv, BubbleInv;
    var x := s.core.idEx;
    if ExAct(s.core, i) {
      FieldsExact(x.insn);
      AccessExact(x.insn);
      JumpsExact(x.insn);
      SystemExact(x.insn);
      StallingNoTrap(bl, code, s, i);
    }
  }

  // What EX waits for by itself, a division or the memory, does not trap.
  lemma StallingNoTrap(bl: Blocks, code: Code, s: System, i: Inputs)
    requires Clock(bl, code, s, i) && ExStall(bl, s.core, i) && ExAct(s.core, i)
    ensures !ExTrap(bl, s.core, i).valid
    ensures var k := InsnDone(s).kind; k.KMulDiv? || k.KLoad? || k.KStore?
  {
    hide FetchInv, SlotInv, MulDivInv, MemInv, BubbleInv, HaltInv;
    AccessExact(InsnDone(s));
    SystemExact(InsnDone(s));
    TrapOfEx(bl, code, s, i);
    if InsnDone(s).kind.KLoad? || InsnDone(s).kind.KStore? {
      LsuOfEx(bl, code, s, i);
    }
  }

  lemma ControlLegal(bl: Blocks, code: Code, s: System, i: Inputs)
    requires Clock(bl, code, s, i)
    ensures LegalCtrl(FetchCtrlOf(bl, s.core, i))
  {
    hide Inv, Legal, ExRedirect, ExTrap, ExLsu, ExTarget, RedirectWhy;
  }

  // ---------- The branch target buffer and ID ----------

  // The check without carries is the comparison with the target.
  lemma AtTarget(pc: Addr, imm: Word)
    ensures WordAddr(Add(ByteAddr(pc), imm)) == (pc + WordAddr(imm)) % 0x4000_0000
  {
    Arith.QuarterOfSum(pc, imm);
  }

  // What ID knows of an instruction that moves to EX.
  lemma IdDecExact(code: Code, s: System, i: Inputs)
    requires FetchInv(code, s.core.fetch, s.env) && Legal(code, s, i) && IdFetch(s.core.fetch, i).valid
    ensures IdInsn(s.core.fetch, i) == code(s.core.fetch.slot.pc)
    ensures IdDec(s.core, i) == Decode(code(s.core.fetch.slot.pc))
  {
    IdInsnExact(code, s.core.fetch, i, s.env);
  }

  // Fetch goes on where the instruction that leaves ID will believe it does: by the buffer in IF,
  // by ID's own redirect, or by repair of a wrong prediction.
  lemma LeavesBelieved(bl: Blocks, code: Code, s: System, i: Inputs)
    requires Clock(bl, code, s, i) && IdMoves(bl, s.core, i)
    ensures var x := IdExD(bl, s.core, i);
            && (x.redirected ==> FollowsFetch(x.dec))
            && Believed(x) == if IdRedirect(bl, s.core, i) then IdRedirectPc(s.core, i) else s.core.fetch.pc
  {
    hide Decode, ExInv, MulDivInv, MemInv, BubbleInv, HaltInv, FetchInv, IdRs, ExStall, FlushId, IdHazard, Add,
         WordAddr;
    var f := s.core.fetch;
    var d := IdDec(s.core, i);
    IdDecExact(code, s, i);
    JumpsExact(code(f.slot.pc));
    AtTarget(f.slot.pc, d.imm);
  }

  lemma SlotKeeps(code: Code, f: FetchState, k: FetchCtrl, i: Inputs, e: Env)
    requires FetchInv(code, f, e) && LegalAnswer(code, e, i)
    requires SlotInv(f) && LegalCtrl(k) && (i.btb.taken ==> i.btb.hit)
    ensures SlotInv(NextFetch(f, k, i))
  {
  }

  // ---------- The clock ----------

  // Nothing flushes: the instruction in EX completes or there is none, and ID moves, waits or holds.
  lemma BehindMoves(bl: Blocks, code: Code, s: System, i: Inputs)
    requires Clock(bl, code, s, i) && !ExStall(bl, s.core, i) && !FlushId(bl, s.core, i) && !Halted(s.core)
    ensures var c' := Next(bl, s.core, i);
            && (IdMoves(bl, s.core, i) ==> c'.idEx == IdExD(bl, s.core, i) && c'.idEx.valid
                                           && BehindEx(c') == Believed(c'.idEx))
            && (!IdMoves(bl, s.core, i) ==> !c'.idEx.valid && BehindEx(c') == BehindEx(s.core))
  {
    hide Decode, ExInv, MulDivInv, MemInv, BubbleInv, HaltInv, FetchInv, IdRs, ExStall, Add, WordAddr, NextFetch,
         NextMulDiv, NextCsr, NextRegs, NextControl, ExMemD, Believed, IdRedirectPc, ExTarget, RedirectWhy,
         IdRedirected, IdDec, IdBtbFix, IdGo, ExTrap;
    var f := s.core.fetch;
    var k := FetchCtrlOf(bl, s.core, i);
    if IdMoves(bl, s.core, i) {
      LeavesBelieved(bl, code, s, i);
      if k.redirect {
        RedirectedFetch(f, k, i);
      } else {
        RunningFetch(f, k, i);
      }
    } else if k.stall {
      StalledFetch(f, k, i);
    } else {
      RunningFetch(f, k, i);
    }
  }

  // EX sends fetch elsewhere: nothing stays behind it.
  lemma BehindFlushed(bl: Blocks, code: Code, s: System, i: Inputs)
    requires Clock(bl, code, s, i) && FlushId(bl, s.core, i)
    ensures var c' := Next(bl, s.core, i);
            && !c'.idEx.valid && !c'.fetch.slot.valid
            && (ExRedirect(bl, s.core, i) ==> BehindEx(c') == ExTarget(bl, s.core, i))
  {
    hide Decode, ExInv, MulDivInv, MemInv, BubbleInv, HaltInv, FetchInv, IdRs, ExStall, Add, WordAddr, NextFetch,
         NextMulDiv, NextCsr, NextRegs, NextControl, ExMemD, IdRedirectPc, ExTarget, RedirectWhy, IdRedirected, IdDec,
         IdBtbFix, IdGo, ExTrap, ExRedirect, ExStop;
    var f := s.core.fetch;
    var k := FetchCtrlOf(bl, s.core, i);
    if ExStall(bl, s.core, i) {
      StallNoFlush(bl, code, s, i);
    } else if k.redirect {
      RedirectedFetch(f, k, i);
    } else {
      StopStops(bl, s.core, i);
      StoppedFetch(f, k, i);
    }
  }

  lemma StopStops(bl: Blocks, c: Core, i: Inputs)
    requires FlushId(bl, c, i) && !ExRedirect(bl, c, i)
    ensures ExStop(c, i) && !FetchCtrlOf(bl, c, i).run && !FetchCtrlOf(bl, c, i).redirect
  {
    hide ExTrap, ExTarget, IdRedirectPc, RedirectWhy, ExStall;
  }

  lemma BehindStalled(bl: Blocks, code: Code, s: System, i: Inputs)
    requires Clock(bl, code, s, i) && ExStall(bl, s.core, i)
    ensures var c' := Next(bl, s.core, i);
            c'.idEx == s.core.idEx && c'.fetch.slot == s.core.fetch.slot && c'.fetch.pc == s.core.fetch.pc
  {
    hide Decode, ExInv, MulDivInv, MemInv, BubbleInv, HaltInv, FetchInv, IdRs, ExStall, NextFetch, NextMulDiv,
         NextCsr, NextRegs, NextControl, ExMemD, FetchCtrlOf;
    StallNoFlush(bl, code, s, i);
    StalledFetch(s.core.fetch, FetchCtrlOf(bl, s.core, i), i);
  }

  // Halting and halted: nothing enters the pipeline.
  lemma BehindHalted(bl: Blocks, code: Code, s: System, i: Inputs)
    requires Clock(bl, code, s, i) && Halted(s.core) && !Resuming(s.core, i)
    ensures var c' := Next(bl, s.core, i);
            !c'.idEx.valid && !c'.fetch.slot.valid && Halted(c') && c'.control.haltPc == s.core.control.haltPc
  {
    hide Decode, MulDivInv, BubbleInv, IdRs, NextFetch, NextMulDiv, NextCsr, NextRegs, ExMemD;
    StoppedFetch(s.core.fetch, FetchCtrlOf(bl, s.core, i), i);
  }
}
