/** Every bubble of Mig2 has its cause: what a clock does to the pipeline, said in the terms of the machine
  * and of the channels, makes exactly the bubbles that the retire port shows later.
  */
module Mig2Bubbles {
  import opened Isa
  import opened Parts
  import opened Csr
  import opened MulDiv
  import opened Mig2
  import opened Mig2System
  import opened Mig2FetchProofs
  import opened Mig2Commit
  import opened Mig2Refinement
  import opened Mig2Flow
  import opened Mig2Step
  import opened Mig2Runs
  import Arith

  // ---------- EX ----------

  // The read of the load in MEM/WB has no answer.
  predicate DataWait(s: System, i: Inputs) { s.env.dBusy && !i.dValid }

  function AccessAt(s: System): int
    requires CoreOk(s.core)
  {
    (Rs1(s) + s.core.idEx.insn.imm) % 0x1_0000_0000
  }

  // A load or store of a byte, of a halfword at an even address, of a word at a multiple of 4.
  predicate Accesses(s: System)
    requires CoreOk(s.core)
  {
    var x := s.core.idEx.insn;
    (x.kind.KLoad? || x.kind.KStore?)
    && (x.funct3 == 0 || x.funct3 == 4 || (x.funct3 == 2 && AccessAt(s) % 4 == 0)
        || ((x.funct3 == 1 || x.funct3 == 5) && AccessAt(s) % 2 == 0))
  }

  // Memory does not take the request of the instruction in EX.
  predicate Refused(s: System, i: Inputs)
    requires CoreOk(s.core)
  {
    s.core.idEx.valid && !DataWait(s, i) && Accesses(s) && !i.dReady
  }

  // A division holds EX.
  predicate DivideHolds(s: System, i: Inputs) {
    var x := s.core.idEx;
    x.valid && !DataWait(s, i) && x.insn.kind.KMulDiv? && x.insn.funct3 >= 4 && !s.core.muldiv.ready
  }

  // The instruction in EX leaves it.
  predicate Leaves(s: System, i: Inputs)
    requires CoreOk(s.core)
  {
    s.core.idEx.valid && !DataWait(s, i) && !Refused(s, i) && !DivideHolds(s, i)
  }

  // EX takes what ID has.
  predicate Advances(s: System, i: Inputs)
    requires CoreOk(s.core)
  {
    !DataWait(s, i) && (s.core.idEx.valid ==> Leaves(s, i))
  }

  // The jump or branch in EX does not go where fetch went for it.
  predicate Misled(s: System)
    requires CoreOk(s.core)
  {
    var x := s.core.idEx;
    Jumps(x.insn, Rs1(s), Rs2(s)) != x.redirected
    || (x.redirected && IsReturn(x.insn) && Target(x.insn, x.pc, Rs1(s)) / 4 != x.rasTarget)
  }

  // The instruction in EX sends fetch elsewhere.
  predicate Sends(s: System, i: Inputs)
    requires CoreOk(s.core)
  {
    Leaves(s, i) && (TrapDue(s, i).Some? || s.core.idEx.insn.kind.KMret? || Misled(s))
  }

  function Why(s: System, i: Inputs): Bubble
    requires CoreOk(s.core)
  {
    var x := s.core.idEx.insn;
    if TrapDue(s, i).Some? then BTrap
    else if x.kind.KMret? then BXret
    else if x.kind.KBranch? then BCondBranch
    else if IsReturn(x) then BRet
    else BIndirJump
  }

  // An EBREAK that halts leaves EX; the debugger starts a halted core again.
  predicate Stops(s: System, i: Inputs)
    requires CoreOk(s.core)
  {
    Leaves(s, i) && s.core.idEx.insn.kind.KEbreak? && i.ebreakHalt
  }

  predicate Resumes(s: System, i: Inputs) { !s.core.control.running && i.resume }

  predicate Flushes(s: System, i: Inputs)
    requires CoreOk(s.core)
  {
    Sends(s, i) || Stops(s, i) || Resumes(s, i)
  }

  // ---------- ID ----------

  // The word of the slot in ID is there.
  predicate Ready(s: System, i: Inputs) { s.core.fetch.slot.valid && (s.core.fetch.got || i.iValid) }

  // It reads the register of the load in EX.
  predicate ReadsLoad(code: Code, s: System, i: Inputs) {
    var x, j := s.core.idEx, code(s.core.fetch.slot.pc);
    && Ready(s, i) && x.valid && x.insn.kind.KLoad? && x.insn.rd != 0
    && ((Reads1(j) && j.rs1 == x.insn.rd) || (Reads2(j) && j.rs2 == x.insn.rd))
  }

  // The instruction in ID moves to EX.
  predicate Moves(code: Code, s: System, i: Inputs)
    requires CoreOk(s.core)
  {
    Ready(s, i) && Advances(s, i) && !ReadsLoad(code, s, i) && !Flushes(s, i)
  }

  function TargetOf(code: Code, s: System): int {
    var pc := s.core.fetch.slot.pc;
    (4 * pc + code(pc).imm) % 0x1_0000_0000
  }

  // Without the buffer ID follows a JAL and a backward branch to the address of an instruction, and a return.
  predicate Guessed(code: Code, s: System) {
    var j := code(s.core.fetch.slot.pc);
    ((j.kind.KJal? || (j.kind.KBranch? && j.imm >= 0x8000_0000)) && TargetOf(code, s) % 4 == 0) || IsReturn(j)
  }

  /** What the buffer said fits: a branch it lets go on, or a branch or JAL for which fetch now asks for the
    * target.
    */
  predicate HitFits(code: Code, s: System) {
    var b, j := s.core.fetch.btb, code(s.core.fetch.slot.pc);
    b.hit && ((j.kind.KBranch? && !b.taken)
              || ((j.kind.KBranch? || j.kind.KJal?) && b.taken && s.core.fetch.pc == TargetOf(code, s) / 4))
  }

  // ID sends fetch elsewhere: it follows its guess, or corrects the buffer.
  predicate Turns(code: Code, s: System, i: Inputs)
    requires CoreOk(s.core)
  {
    Moves(code, s, i) && !HitFits(code, s) && (Guessed(code, s) || s.core.fetch.btb.taken)
  }

  function TurnWhy(code: Code, s: System): Bubble {
    var j := code(s.core.fetch.slot.pc);
    if s.core.fetch.btb.hit then BBtbFix
    else if j.kind.KJal? then BDirJump
    else if IsReturn(j) then BPredRet
    else BPredTaken
  }

  // ---------- IF ----------

  predicate Runs(s: System, i: Inputs)
    requires CoreOk(s.core)
  {
    s.core.control.running && !s.core.control.memHalting && !Stops(s, i)
  }

  // The channel takes a request: it is ready, and the request before it has its answer.
  predicate Takes(s: System, i: Inputs) { i.iReady && (!s.env.iBusy || i.iValid) }

  // IF/ID keeps its slot: for EX, for a load in EX, or for its own word.
  predicate Keeps(code: Code, s: System, i: Inputs)
    requires CoreOk(s.core)
  {
    || !Advances(s, i)
    || (ReadsLoad(code, s, i) && !Flushes(s, i))
    || (s.core.fetch.slot.valid && !Ready(s, i) && !Flushes(s, i))
  }

  // ---------- The bubbles a clock makes ----------

  type Bubbles = multiset<Bubble>

  // On the retire port, in EX/MEM, in ID/EX, in IF/ID.
  function PortMakes(s: System, i: Inputs): Bubbles { if DataWait(s, i) then multiset{BDmem} else multiset{} }

  function ExMakes(s: System, i: Inputs): Bubbles
    requires CoreOk(s.core)
  {
    if DivideHolds(s, i) then multiset{BDiv} else if Refused(s, i) then multiset{BDmem} else multiset{}
  }

  function IdMakes(code: Code, s: System, i: Inputs): Bubbles
    requires CoreOk(s.core)
  {
    if !Advances(s, i) || !s.core.fetch.slot.valid then multiset{}
    else if !Ready(s, i) then multiset{BImem}
    else if Sends(s, i) then multiset{Why(s, i)}
    else if Stops(s, i) then multiset{BFill}
    else if ReadsLoad(code, s, i) then multiset{BLoadUse}
    else multiset{}
  }

  function IfMakes(code: Code, s: System, i: Inputs): Bubbles
    requires CoreOk(s.core)
  {
    if Keeps(code, s, i) then multiset{}
    else if Sends(s, i) then multiset{Why(s, i)}
    else if Resumes(s, i) then multiset{BFill}
    else if Turns(code, s, i) then multiset{TurnWhy(code, s)}
    else if !Runs(s, i) then multiset{BFill}
    else if !Takes(s, i) then multiset{BImem}
    else multiset{}
  }

  function Makes(code: Code, s: System, i: Inputs): Bubbles
    requires CoreOk(s.core)
  {
    PortMakes(s, i) + ExMakes(s, i) + IdMakes(code, s, i) + IfMakes(code, s, i)
  }

  // The bubbles in the pipeline.
  function Slot(valid: bool, bubble: Bubble): Bubbles { if valid then multiset{} else multiset{bubble} }

  function Held(c: Core): Bubbles {
    Slot(c.fetch.slot.valid, c.fetch.slot.bubble) + Slot(c.idEx.valid, c.idEx.bubble)
    + Slot(c.exMem.valid, c.exMem.bubble)
  }

  // ---------- The signals of the core say the same ----------

  lemma WaitIs(code: Code, s: System, i: Inputs)
    requires Inv(code, s) && Legal(code, s, i)
    ensures MemWait(s.core, i) <==> DataWait(s, i)
  {
    hide FetchInv, SlotInv, ExInv, HaltInv, BubbleInv, MulDivInv;
  }

  lemma RefusedIs(bl: Blocks, code: Code, s: System, i: Inputs)
    requires Clock(bl, code, s, i)
    ensures DmemWait(bl, s.core, i) <==> Refused(s, i)
  {
    hide FetchInv, SlotInv, ExInv, HaltInv, BubbleInv, MulDivInv, MemInv, Decode, Strobes, Replicate, ExAddr;
    WaitIs(code, s, i);
    var x := s.core.idEx;
    if ExAct(s.core, i) {
      Operands(code, s, i);
      if x.insn.kind.KLoad? || x.insn.kind.KStore? {
        LsuOfEx(bl, code, s, i);
        AccessExact(x.insn);
      } else {
        LsuIdle(bl, code, s, i);
      }
    }
  }

  lemma DividesIs(code: Code, s: System, i: Inputs)
    requires Inv(code, s) && Legal(code, s, i)
    ensures !MemWait(s.core, i) ==> (Stalls(s.core.muldiv, s.core.idEx.valid, s.core.idEx.dec) <==> DivideHolds(s, i))
  {
    hide FetchInv, SlotInv, HaltInv, BubbleInv, MulDivInv, MemInv, Decode;
    WaitIs(code, s, i);
    DivControls(s.core.idEx.insn);
  }

  // EX stalls exactly when it does not take what ID has, and an instruction leaves it otherwise.
  lemma LeavesIs(bl: Blocks, code: Code, s: System, i: Inputs)
    requires Clock(bl, code, s, i)
    ensures ExStall(bl, s.core, i) <==> !Advances(s, i)
    ensures Commits(bl, s.core, i) <==> Leaves(s, i)
  {
    hide FetchInv, SlotInv, ExInv, HaltInv, BubbleInv, MulDivInv, MemInv, ExTrap, MemWait, DmemWait, Stalls,
         DataWait, Refused, DivideHolds;
    WaitIs(code, s, i);
    RefusedIs(bl, code, s, i);
    DividesIs(code, s, i);
    RefusedActs(s, i);
    if ExStall(bl, s.core, i) {
      StallsNoCommit(bl, code, s, i);
    }
    if Commits(bl, s.core, i) {
      EntersMem(bl, code, s, i);
    }
  }

  lemma RefusedActs(s: System, i: Inputs)
    requires CoreOk(s.core)
    ensures Refused(s, i) || DivideHolds(s, i) ==> s.core.idEx.valid && !DataWait(s, i)
  {
  }

  // What EX does to fetch: an instruction that traps or returns from a trap, a jump or branch that fetch did
  // not follow right, an EBREAK that halts, a resume.
  lemma ActsLeaves(bl: Blocks, code: Code, s: System, i: Inputs)
    requires Clock(bl, code, s, i) && ExAct(s.core, i)
    ensures ExTrap(bl, s.core, i).valid || ExMret(s.core, i) || ExWrong(s.core, i) || ExStop(s.core, i) ==>
              Leaves(s, i)
  {
    hide FetchInv, SlotInv, ExInv, HaltInv, BubbleInv, MulDivInv, MemInv, ExTrap, ExLsu, ExMret, ExWrong, ExStop,
         Leaves, Advances, MemWait, DataWait, ExStall;
    LeavesIs(bl, code, s, i);
    WaitIs(code, s, i);
    if ExStall(bl, s.core, i) {
      StallStays(bl, code, s, i);
      WrongRedirects(bl, s.core, i);
    } else {
      AdvancesActs(s, i);
    }
  }

  lemma WrongRedirects(bl: Blocks, c: Core, i: Inputs)
    ensures ExMret(c, i) || ExWrong(c, i) || ExTrap(bl, c, i).valid ==> ExRedirect(bl, c, i)
  {
    hide ExTrap, ExMret, ExWrong;
  }

  lemma AdvancesActs(s: System, i: Inputs)
    requires CoreOk(s.core) && Advances(s, i) && s.core.idEx.valid
    ensures Leaves(s, i)
  {
  }

  lemma TrapIs(bl: Blocks, code: Code, s: System, i: Inputs)
    requires Clock(bl, code, s, i) && Leaves(s, i)
    ensures ExAct(s.core, i)
    ensures ExTrap(bl, s.core, i).valid <==> TrapDue(s, i).Some?
    ensures ExMret(s.core, i) <==> s.core.idEx.insn.kind.KMret?
    ensures ExStop(s.core, i) <==> Stops(s, i)
    ensures ExWrong(s.core, i) <==> Misled(s)
    ensures s.core.idEx.dec.branch <==> s.core.idEx.insn.kind.KBranch?
    ensures s.core.idEx.dec.ret == IsReturn(s.core.idEx.insn)
  {
    hide FetchInv, SlotInv, ExInv, HaltInv, BubbleInv, MulDivInv, MemInv, ExTrap, ExLsu, ExStall, TrapOf, Decode,
         BranchUnit, Jumps, Target, IsReturn, Refused, DivideHolds;
    WaitIs(code, s, i);
    Operands(code, s, i);
    TrapOfEx(bl, code, s, i);
    SystemExact(s.core.idEx.insn);
    JumpsExact(s.core.idEx.insn);
    HintsExact(s.core.idEx.insn);
    BranchOfEx(code, s, i);
    ReturnsJump(s.core.idEx.insn, Rs1(s), Rs2(s));
  }

  lemma ReturnsJump(i: Insn, a: Word, b: Word)
    ensures IsReturn(i) ==> Jumps(i, a, b)
  {
  }

  lemma FlushIs(bl: Blocks, code: Code, s: System, i: Inputs)
    requires Clock(bl, code, s, i)
    ensures ExRedirect(bl, s.core, i) <==> Sends(s, i) || Resumes(s, i)
    ensures ExStop(s.core, i) <==> Stops(s, i)
    ensures Sends(s, i) ==> !Resumes(s, i) && RedirectWhy(bl, s.core, i) == Why(s, i)
    ensures Resumes(s, i) ==> RedirectWhy(bl, s.core, i) == BFill
  {
    hide FetchInv, SlotInv, ExInv, BubbleInv, MulDivInv, MemInv, ExTrap, ExLsu, ExStall, TrapOf, Decode, Leaves,
         Misled, IsReturn, ExWrong, MemWait;
    if ExAct(s.core, i) {
      ActsLeaves(bl, code, s, i);
    }
    LeavesActs(code, s, i);
    if Leaves(s, i) {
      TrapIs(bl, code, s, i);
    } else {
      TrapOnlyActs(bl, s.core, i);
    }
  }

  lemma LeavesActs(code: Code, s: System, i: Inputs)
    requires Inv(code, s) && Legal(code, s, i)
    ensures Leaves(s, i) ==> ExAct(s.core, i)
  {
    hide FetchInv, SlotInv, ExInv, BubbleInv, MulDivInv, MemInv, HaltInv, MemWait, DataWait, Refused, DivideHolds;
    WaitIs(code, s, i);
  }

  lemma TrapOnlyActs(bl: Blocks, c: Core, i: Inputs)
    ensures ExTrap(bl, c, i).valid || ExMret(c, i) || ExWrong(c, i) || ExStop(c, i) ==> ExAct(c, i)
  {
  }

  lemma ReadyIs(code: Code, s: System, i: Inputs)
    requires Inv(code, s) && Legal(code, s, i)
    ensures IdFetch(s.core.fetch, i).valid <==> Ready(s, i)
    ensures IdWait(s.core.fetch, i) <==> s.core.fetch.slot.valid && !Ready(s, i)
    ensures Ready(s, i) ==> IdInsn(s.core.fetch, i) == code(s.core.fetch.slot.pc)
  {
    hide SlotInv, ExInv, BubbleInv, MulDivInv, MemInv, HaltInv;
    if IdFetch(s.core.fetch, i).valid {
      IdDecExact(code, s, i);
    }
  }

  lemma ReadsLoadIs(bl: Blocks, code: Code, s: System, i: Inputs)
    requires Clock(bl, code, s, i)
    ensures IdHazard(s.core, i) <==> ReadsLoad(code, s, i)
  {
    hide SlotInv, BubbleInv, MulDivInv, MemInv, HaltInv, FetchInv, Decode, IdFetch, Ready;
    ReadyIs(code, s, i);
    var x, j := s.core.idEx.insn, code(s.core.fetch.slot.pc);
    FieldsExact(x);
    AccessExact(x);
    FieldsExact(j);
    ReadsExact(j);
  }

  lemma MovesIs(bl: Blocks, code: Code, s: System, i: Inputs)
    requires Clock(bl, code, s, i)
    ensures IdMoves(bl, s.core, i) <==> Moves(code, s, i)
  {
    hide SlotInv, BubbleInv, MulDivInv, MemInv, HaltInv, FetchInv, ExInv, IdFetch, Ready, IdHazard, ReadsLoad,
         ExStall, Advances, Sends, Stops, Resumes, ExRedirect, ExStop;
    ReadyIs(code, s, i);
    ReadsLoadIs(bl, code, s, i);
    LeavesIs(bl, code, s, i);
    FlushIs(bl, code, s, i);
  }

  // ---------- The buffer and ID ----------

  // The target of the instruction in ID: as a byte address, as a word address, and whether it is one.
  lemma TargetIs(code: Code, s: System, i: Inputs)
    requires Inv(code, s) && Wellformed(code) && Legal(code, s, i) && Ready(s, i)
    ensures IdDec(s.core, i) == Decode(code(s.core.fetch.slot.pc))
    ensures IdTarget(s.core, i) == TargetOf(code, s)
    ensures IdAtTarget(s.core, i) <==> s.core.fetch.pc == TargetOf(code, s) / 4
    ensures var j := code(s.core.fetch.slot.pc);
            j.kind.KJal? || j.kind.KBranch? ==>
              (TargetMisaligned(IdTarget(s.core, i)) <==> TargetOf(code, s) % 4 != 0)
  {
    hide SlotInv, BubbleInv, MulDivInv, MemInv, HaltInv, FetchInv, ExInv, Decode, IdFetch, Ready, IdInsn;
    ReadyIs(code, s, i);
    var pc := s.core.fetch.slot.pc;
    var j := code(pc);
    FieldsExact(j);
    AtTarget(pc, j.imm);
    if j.kind.KJal? || j.kind.KBranch? {
      EvenTarget(pc, j.imm);
      TargetExact(Add(ByteAddr(pc), j.imm));
    }
  }

  // What ID makes of the instruction in it.
  lemma GuessIs(code: Code, s: System, i: Inputs)
    requires Inv(code, s) && Wellformed(code) && Legal(code, s, i) && Ready(s, i)
    ensures IdGo(s.core, i) <==> Guessed(code, s)
    ensures IdBtbOk(s.core, i) <==> HitFits(code, s)
    ensures IdBtbFix(s.core, i) <==> s.core.fetch.btb.hit && !HitFits(code, s)
    ensures var j := code(s.core.fetch.slot.pc);
            && (IdJal(s.core, i) <==> j.kind.KJal?) && (IdRet(s.core, i) <==> IsReturn(j))
            && (IdTaken(s.core, i) <==> Guessed(code, s) && !IsReturn(j))
            && IdTarget(s.core, i) == TargetOf(code, s)
  {
    hide SlotInv, BubbleInv, MulDivInv, MemInv, HaltInv, FetchInv, ExInv, Decode, IdFetch, IsReturn, Ready, IdDec,
         IdTarget, TargetOf, IdAtTarget, TargetMisaligned, IdInsn;
    ReadyIs(code, s, i);
    TargetIs(code, s, i);
    var j := code(s.core.fetch.slot.pc);
    FieldsExact(j);
    JumpsExact(j);
    HintsExact(j);
    ReturnIsJalr(j);
  }

  lemma ReturnIsJalr(i: Insn)
    ensures IsReturn(i) ==> i.kind.KJalr?
  {
  }

  lemma TurnsIs(bl: Blocks, code: Code, s: System, i: Inputs)
    requires Clock(bl, code, s, i)
    ensures IdRedirect(bl, s.core, i) <==> Turns(code, s, i)
    ensures Turns(code, s, i) ==>
              && FetchCtrlOf(bl, s.core, i).why == TurnWhy(code, s)
              && FetchCtrlOf(bl, s.core, i).target == IdRedirectPc(s.core, i)
  {
    hide SlotInv, BubbleInv, MulDivInv, MemInv, HaltInv, FetchInv, ExInv, IdFetch, Ready, IdMoves, IdGo, IdBtbOk,
         IdBtbFix, Guessed, HitFits, IdJal, IdRet, IsReturn, ExRedirect, IdRedirectPc, ExTarget, RedirectWhy,
         ExStall, Moves, IdTaken;
    MovesIs(bl, code, s, i);
    if Moves(code, s, i) {
      MovesReady(code, s, i);
      GuessIs(code, s, i);
      MovesNoFlush(bl, code, s, i);
      TakenHits(code, s, i);
    }
  }

  lemma MovesReady(code: Code, s: System, i: Inputs)
    requires CoreOk(s.core) && Moves(code, s, i)
    ensures Ready(s, i) && !Sends(s, i) && !Resumes(s, i) && !Stops(s, i)
  {
    hide Ready, Sends, Stops, Resumes, Advances;
  }

  lemma MovesNoFlush(bl: Blocks, code: Code, s: System, i: Inputs)
    requires Clock(bl, code, s, i) && Moves(code, s, i)
    ensures !ExRedirect(bl, s.core, i)
  {
    hide SlotInv, BubbleInv, MulDivInv, MemInv, HaltInv, FetchInv, ExInv, Ready, Sends, Stops, Resumes, Advances,
         ExRedirect;
    FlushIs(bl, code, s, i);
  }

  lemma TakenHits(code: Code, s: System, i: Inputs)
    requires Inv(code, s) && Ready(s, i)
    ensures s.core.fetch.btb.taken || HitFits(code, s) ==> s.core.fetch.btb.hit
  {
    hide BubbleInv, MulDivInv, MemInv, HaltInv, FetchInv, ExInv;
  }

  /** When ID trusts the branch target buffer: of an instruction that moves with a hit, a branch the buffer
    * lets go on and a branch or JAL for which fetch asks for the target stay as they are. Every other hit
    * is corrected: ID decides by itself, and sends fetch elsewhere for its guess or away from a wrong target.
    */
  lemma BufferTrusted(bl: Blocks, code: Code, s: System, i: Inputs)
    requires Clock(bl, code, s, i) && IdMoves(bl, s.core, i) && s.core.fetch.btb.hit
    ensures var f, j := s.core.fetch, code(s.core.fetch.slot.pc);
            var at := f.pc == (4 * f.slot.pc + j.imm) % 0x1_0000_0000 / 4;
            var turns, follows := IdRedirect(bl, s.core, i), IdExD(bl, s.core, i).redirected;
            if j.kind.KBranch? && !f.btb.taken then !turns && !follows
            else if (j.kind.KBranch? || j.kind.KJal?) && f.btb.taken && at then !turns && follows
            else
              && (turns <==> Guessed(code, s) || f.btb.taken) && (follows <==> Guessed(code, s))
              && (turns ==> FetchCtrlOf(bl, s.core, i).why == BBtbFix)
  {
    hide SlotInv, BubbleInv, MulDivInv, MemInv, HaltInv, FetchInv, ExInv, IdFetch, Ready, IdMoves, IdGo, IdBtbOk,
         IdBtbFix, Guessed, IdRedirect, FetchCtrlOf, IdDec, IdRs, IdInsn, Moves;
    MovesIs(bl, code, s, i);
    MovesReady(code, s, i);
    GuessIs(code, s, i);
    TurnsIs(bl, code, s, i);
  }

  /** Where fetch goes when ID sends it elsewhere: the target, for a return the top of the stack, else the
    * next instruction.
    */
  lemma TurnsTo(bl: Blocks, code: Code, s: System, i: Inputs)
    requires Clock(bl, code, s, i) && IdRedirect(bl, s.core, i)
    ensures var f, j := s.core.fetch, code(s.core.fetch.slot.pc);
            Next(bl, s.core, i).fetch.pc
            == if IsReturn(j) then i.rasTop
               else if Guessed(code, s) then (4 * f.slot.pc + j.imm) % 0x1_0000_0000 / 4
               else (4 * f.slot.pc + 4) % 0x1_0000_0000 / 4
  {
    hide SlotInv, BubbleInv, MulDivInv, MemInv, HaltInv, FetchInv, ExInv, IdFetch, Ready, IdGo, IdBtbOk, IdBtbFix,
         Guessed, IdRedirect, FetchCtrlOf, IdDec, IdRs, IdInsn, Moves, IdTaken, IdRet, IsReturn, IdTarget,
         NextIdEx, NextMulDiv, NextCsr, NextRegs, NextControl, ExMemD, MemWait, HitFits;
    TurnsIs(bl, code, s, i);
    MovesReady(code, s, i);
    GuessIs(code, s, i);
    RedirectIs(bl, s.core, i);
  }

  lemma RedirectIs(bl: Blocks, c: Core, i: Inputs)
    ensures IdRedirect(bl, c, i) ==> FetchCtrlOf(bl, c, i).redirect
  {
    hide IdRedirect, ExRedirect, ExTarget, IdRedirectPc, RedirectWhy, ExStall, IdHazard, IdBtbFix, IdJal, IdRet;
  }

  // ---------- The clock ----------

  lemma FetchIs(bl: Blocks, code: Code, s: System, i: Inputs)
    requires Clock(bl, code, s, i)
    ensures var k := FetchCtrlOf(bl, s.core, i);
            && (k.redirect <==> Sends(s, i) || Resumes(s, i) || Turns(code, s, i))
            && (k.run <==> Runs(s, i))
            && (k.stall <==> (!Advances(s, i) || ReadsLoad(code, s, i)) && !Flushes(s, i))
            && (Sends(s, i) ==> k.why == Why(s, i)) && (Resumes(s, i) ==> k.why == BFill)
            && (Turns(code, s, i) ==> k.why == TurnWhy(code, s))
  {
    hide SlotInv, BubbleInv, MulDivInv, MemInv, HaltInv, FetchInv, ExInv, ExRedirect, ExTarget, IdRedirectPc,
         RedirectWhy, ExStall, IdHazard, IdBtbFix, IdJal, IdRet, Sends, Stops, Resumes, Turns, ReadsLoad,
         Advances, IdRedirect, ExStop, Why, TurnWhy;
    FlushIs(bl, code, s, i);
    LeavesIs(bl, code, s, i);
    ReadsLoadIs(bl, code, s, i);
    TurnsIs(bl, code, s, i);
  }

  // A request that memory takes in this clock.
  predicate Asks(code: Code, s: System, i: Inputs)
    requires CoreOk(s.core)
  {
    Runs(s, i) && !Keeps(code, s, i) && Takes(s, i)
  }

  lemma AsksIs(bl: Blocks, code: Code, s: System, i: Inputs)
    requires Clock(bl, code, s, i)
    ensures ImemTaken(s.core.fetch, FetchCtrlOf(bl, s.core, i), i) <==> Asks(code, s, i)
  {
    hide SlotInv, BubbleInv, MulDivInv, MemInv, HaltInv, FetchInv, ExInv, Leaves, Sends, Stops, Resumes, ReadsLoad,
         Ready, Advances, Turns, FetchCtrlOf, Keeps, Runs;
    FetchIs(bl, code, s, i);
    KeepIs(bl, code, s, i);
    PendingIs(code, s);
    if ImemTaken(s.core.fetch, FetchCtrlOf(bl, s.core, i), i) {
      TakenEntersIfId(code, s.core.fetch, FetchCtrlOf(bl, s.core, i), i, s.env);
    }
  }

  /** Where fetch goes when nothing sends it elsewhere: with a request that memory takes, to the target the
    * buffer says or to the next instruction, and the slot holds the address asked for and what the buffer
    * said of it; without one it stays.
    */
  lemma FetchGoes(bl: Blocks, code: Code, s: System, i: Inputs)
    requires Clock(bl, code, s, i) && !Sends(s, i) && !Resumes(s, i) && !Turns(code, s, i)
    ensures var f, f' := s.core.fetch, Next(bl, s.core, i).fetch;
            if Asks(code, s, i) then
              && f'.pc == (if i.btb.taken then i.btbTarget else (4 * f.pc + 4) % 0x1_0000_0000 / 4)
              && f'.slot.valid && f'.slot.pc == f.pc && f'.btb == i.btb
            else f'.pc == f.pc
  {
    hide SlotInv, BubbleInv, MulDivInv, MemInv, HaltInv, FetchInv, ExInv, Leaves, Sends, Stops, Resumes, ReadsLoad,
         Ready, Advances, Turns, FetchCtrlOf, Keeps, Runs, ImemTaken, NextIdEx, NextMulDiv, NextCsr, NextRegs,
         NextControl, ExMemD, MemWait, Asks;
    FetchIs(bl, code, s, i);
    KeepIs(bl, code, s, i);
    AsksIs(bl, code, s, i);
    if Asks(code, s, i) {
      AskingKeepsNot(code, s, i);
    }
  }

  lemma AskingKeepsNot(code: Code, s: System, i: Inputs)
    requires CoreOk(s.core) && Asks(code, s, i)
    ensures !Keeps(code, s, i)
  {
    hide Keeps, Runs;
  }

  /** Where EX sends fetch: to the handler, to mepc, to the target of the jump, or to the next instruction. */
  lemma SendsTo(bl: Blocks, code: Code, s: System, i: Inputs)
    requires Clock(bl, code, s, i) && Sends(s, i)
    ensures var x := s.core.idEx;
            Next(bl, s.core, i).fetch.pc
            == if TrapDue(s, i).Some? then s.core.csr.csrs.mtvec
               else if x.insn.kind.KMret? then s.core.csr.csrs.mepc
               else if Jumps(x.insn, Rs1(s), Rs2(s)) then Target(x.insn, x.pc, Rs1(s)) / 4
               else (4 * x.pc + 4) % 0x1_0000_0000 / 4
  {
    hide SlotInv, BubbleInv, MulDivInv, MemInv, HaltInv, FetchInv, ExInv, Stops, Resumes, ReadsLoad, Ready,
         Advances, Turns, Keeps, Runs, NextIdEx, NextMulDiv, NextCsr, NextRegs, NextControl, ExMemD, MemWait,
         ExTrap, ExMret, ExWrong, ExStop, ExStall, Leaves, Jumps, Target, Misled, TrapOf, IdRedirect,
         RedirectWhy, IdHazard, BranchUnit, IdRedirectPc, Resuming, IdRet, IdJal, IdBtbFix, FlushId;
    FlushIs(bl, code, s, i);
    TrapIs(bl, code, s, i);
    Operands(code, s, i);
    BranchOfEx(code, s, i);
    NotResuming(s, i);
  }

  lemma NotResuming(s: System, i: Inputs)
    ensures Resuming(s.core, i) <==> Resumes(s, i)
  {
  }

  // A bubble goes on when EX takes what is before it.
  function Passes(s: System, i: Inputs, valid: bool, bubble: Bubble): Bubbles
    requires CoreOk(s.core)
  {
    if Advances(s, i) then Slot(valid, bubble) else multiset{}
  }

  function ShownBubbles(c: Core, i: Inputs): Bubbles { Slot(RetireValid(c, i), RetireBubble(c, i)) }

  lemma MemStage(bl: Blocks, code: Code, s: System, i: Inputs)
    requires Clock(bl, code, s, i)
    ensures var m, m' := s.core.exMem, Next(bl, s.core, i).exMem;
            ShownBubbles(s.core, i) + Slot(m'.valid, m'.bubble)
            == Slot(m.valid, m.bubble) + PortMakes(s, i) + ExMakes(s, i)
               + Passes(s, i, s.core.idEx.valid, s.core.idEx.bubble)
  {
    hide SlotInv, BubbleInv, MulDivInv, MemInv, HaltInv, FetchInv, ExInv, ExTrap, ExStall, ExRetire, ExAddr,
         Accesses, NextFetch, NextIdEx, NextMulDiv, NextCsr, NextRegs, NextControl, Stalls, DmemWait;
    WaitIs(code, s, i);
    LeavesIs(bl, code, s, i);
    DividesIs(code, s, i);
    if s.core.idEx.valid && !DataWait(s, i) && !Leaves(s, i) {
      assert Refused(s, i) || DivideHolds(s, i);
    }
  }

  lemma ExStage(bl: Blocks, code: Code, s: System, i: Inputs)
    requires Clock(bl, code, s, i)
    ensures var x, x', f := s.core.idEx, Next(bl, s.core, i).idEx, s.core.fetch.slot;
            Passes(s, i, x.valid, x.bubble) + Slot(x'.valid, x'.bubble)
            == Slot(x.valid, x.bubble) + IdMakes(code, s, i) + Passes(s, i, f.valid, f.bubble)
  {
    hide SlotInv, BubbleInv, MulDivInv, MemInv, HaltInv, FetchInv, ExInv, ExTrap, ExStall, ExMemD, NextFetch,
         NextMulDiv, NextCsr, NextRegs, NextControl, Stalls, DmemWait, Leaves, Sends, Stops, Resumes, ReadsLoad,
         Ready, ExRedirect, ExStop, Why, RedirectWhy, IdHazard, IdRs, IdRedirected, IdDec, IdWait, Advances,
         IdInsn;
    ReadyIs(code, s, i);
    LeavesIs(bl, code, s, i);
    FlushIs(bl, code, s, i);
    ReadsLoadIs(bl, code, s, i);
    SlotRuns(code, s, i);
    SlotOf(s.core.fetch, i);
    ReadyHasSlot(code, s, i);
  }

  lemma SlotOf(f: FetchState, i: Inputs)
    ensures var d := IdFetch(f, i); d.bubble == if IdWait(f, i) then BImem else f.slot.bubble
    ensures IdFetch(f, i).pc == f.slot.pc
  {
  }

  lemma ReadyHasSlot(code: Code, s: System, i: Inputs)
    ensures Ready(s, i) ==> s.core.fetch.slot.valid
    ensures ReadsLoad(code, s, i) ==> Ready(s, i)
  {
  }

  // With a slot in ID the core runs: nothing resumes it.
  lemma SlotRuns(code: Code, s: System, i: Inputs)
    requires Inv(code, s)
    ensures s.core.fetch.slot.valid ==>
              s.core.control.running && !s.core.control.memHalting && !Resumes(s, i)
  {
    hide SlotInv, BubbleInv, MulDivInv, MemInv, FetchInv, ExInv;
  }

  lemma FetchStage(bl: Blocks, code: Code, s: System, i: Inputs)
    requires Clock(bl, code, s, i)
    ensures var f, f' := s.core.fetch.slot, Next(bl, s.core, i).fetch.slot;
            Passes(s, i, f.valid, f.bubble) + Slot(f'.valid, f'.bubble)
            == Slot(f.valid, f.bubble) + IfMakes(code, s, i)
  {
    hide SlotInv, BubbleInv, MulDivInv, MemInv, HaltInv, FetchInv, ExInv, ExMemD, NextIdEx, NextMulDiv, NextCsr,
         NextRegs, NextControl, Leaves, Sends, Stops, Resumes, ReadsLoad, Ready, Why, Advances, Turns, TurnWhy,
         FetchCtrlOf, IdWait;
    FetchIs(bl, code, s, i);
    ReadyIs(code, s, i);
    SlotRuns(code, s, i);
    ReadyHasSlot(code, s, i);
    PendingIs(code, s);
    KeepIs(bl, code, s, i);
  }

  lemma PendingIs(code: Code, s: System)
    requires Inv(code, s)
    ensures s.core.fetch.pending == s.env.iBusy
  {
    hide SlotInv, BubbleInv, MulDivInv, MemInv, HaltInv, ExInv;
  }

  lemma KeepIs(bl: Blocks, code: Code, s: System, i: Inputs)
    requires Clock(bl, code, s, i)
    ensures IdKeep(s.core.fetch, FetchCtrlOf(bl, s.core, i), i) <==> Keeps(code, s, i)
  {
    hide SlotInv, BubbleInv, MulDivInv, MemInv, HaltInv, FetchInv, ExInv, Leaves, Sends, Stops, Resumes, ReadsLoad,
         Ready, Why, Advances, Turns, TurnWhy, FetchCtrlOf, IdWait;
    FetchIs(bl, code, s, i);
    ReadyIs(code, s, i);
    SlotRuns(code, s, i);
    ReadyHasSlot(code, s, i);
    TurnsReady(code, s, i);
    StallsNothing(bl, code, s, i);
  }

  lemma TurnsReady(code: Code, s: System, i: Inputs)
    requires CoreOk(s.core)
    ensures Turns(code, s, i) ==> Ready(s, i)
  {
    hide Ready, Advances, Sends, Stops, Resumes, ReadsLoad, HitFits, Guessed;
  }

  // While EX stalls nothing flushes.
  lemma StallsNothing(bl: Blocks, code: Code, s: System, i: Inputs)
    requires Clock(bl, code, s, i)
    ensures !Advances(s, i) ==> !Flushes(s, i)
  {
    hide SlotInv, BubbleInv, MulDivInv, MemInv, HaltInv, FetchInv, ExInv, Advances, Sends, Stops, Resumes,
         ExRedirect, ExStop, ExStall;
    LeavesIs(bl, code, s, i);
    FlushIs(bl, code, s, i);
    if ExStall(bl, s.core, i) {
      StallStays(bl, code, s, i);
    }
  }

  // Three stages that pass bubbles on.
  lemma Balance(f: Bubbles, x: Bubbles, m: Bubbles, f': Bubbles, x': Bubbles, m': Bubbles, toId: Bubbles,
                toEx: Bubbles, shown: Bubbles, port: Bubbles, ex: Bubbles, id: Bubbles, fetch: Bubbles)
    requires shown + m' == m + port + ex + toEx && toEx + x' == x + id + toId && toId + f' == f + fetch
    ensures shown + (f' + x' + m') == f + x + m + (port + ex + id + fetch)
  {
    forall b: Bubble
      ensures (shown + (f' + x' + m'))[b] == (f + x + m + (port + ex + id + fetch))[b]
    {
      assert (shown + m')[b] == (m + port + ex + toEx)[b];
      assert (toEx + x')[b] == (x + id + toId)[b];
      assert (toId + f')[b] == (f + fetch)[b];
    }
  }

  /** A clock shows or keeps exactly the bubbles there were and the ones its causes make. */
  lemma ClockBubbles(bl: Blocks, code: Code, s: System, i: Inputs)
    requires Clock(bl, code, s, i)
    ensures ShownBubbles(s.core, i) + Held(Next(bl, s.core, i)) == Held(s.core) + Makes(code, s, i)
  {
    hide SlotInv, BubbleInv, MulDivInv, MemInv, HaltInv, FetchInv, ExInv, Legal, Wellformed, Next, PortMakes,
         ExMakes, IdMakes, IfMakes, Passes, Slot, ShownBubbles;
    MemStage(bl, code, s, i);
    ExStage(bl, code, s, i);
    FetchStage(bl, code, s, i);
    var c, d := s.core, Next(bl, s.core, i);
    Balance(Slot(c.fetch.slot.valid, c.fetch.slot.bubble), Slot(c.idEx.valid, c.idEx.bubble),
            Slot(c.exMem.valid, c.exMem.bubble), Slot(d.fetch.slot.valid, d.fetch.slot.bubble),
            Slot(d.idEx.valid, d.idEx.bubble), Slot(d.exMem.valid, d.exMem.bubble),
            Passes(s, i, c.fetch.slot.valid, c.fetch.slot.bubble), Passes(s, i, c.idEx.valid, c.idEx.bubble),
            ShownBubbles(c, i), PortMakes(s, i), ExMakes(s, i), IdMakes(code, s, i), IfMakes(code, s, i));
  }

  // ---------- Runs ----------

  // The bubbles the causes of a run make.
  function Caused(bl: Blocks, code: Code, s: System, ins: seq<Inputs>): Bubbles
    requires CoreOk(s.core)
  {
    if ins == [] then multiset{}
    else
      var pre := ins[..|ins| - 1];
      Caused(bl, code, s, pre) + Makes(code, Run(bl, s, pre).0, ins[|ins| - 1])
  }

  lemma OneBubbleMore(bs: seq<Bubble>, valid: bool, b: Bubble)
    ensures multiset(bs + (if valid then [] else [b])) == multiset(bs) + Slot(valid, b)
  {
  }

  /** The bubbles a run has shown and still holds are those it began with and those its causes made: none is
    * lost, none has another reason, and every clock without a retirement has its cause.
    */
  lemma {:induction false} RunBubbles(bl: Blocks, code: Code, s: System, ins: seq<Inputs>)
    requires CoreOk(s.core) && Inv(code, s) && Wellformed(code) && LegalRun(bl, code, s, ins)
    ensures var (t, log) := Run(bl, s, ins);
            && multiset(log.bubbles) + Held(t.core) == Held(s.core) + Caused(bl, code, s, ins)
            && |ins| == |log.retired| + |log.bubbles|
    decreases |ins|
  {
    hide FetchInv, SlotInv, ExInv, MemInv, HaltInv, BubbleInv, MulDivInv, Legal, Wellformed, NextSystem, EventOf,
         RetireBubble, RetireValid, Makes, Held, RequestOf, Dropped, ImemTaken, DmemTaken, IdMoves, FetchCtrlOf,
         RetireEntry, Starts, IdInsn, ExLsu, Seen;
    if ins != [] {
      var pre, i := ins[..|ins| - 1], ins[|ins| - 1];
      RunBubbles(bl, code, s, pre);
      RunAgrees(bl, code, s, pre);
      var (t, log) := Run(bl, s, pre);
      ClockBubbles(bl, code, t, i);
      NextIs(bl, t, i);
      OneBubbleMore(log.bubbles, RetireValid(t.core, i), RetireBubble(t.core, i));
      Carry(multiset(log.bubbles), Held(t.core), Held(s.core), Caused(bl, code, s, pre), ShownBubbles(t.core, i),
            Held(Next(bl, t.core, i)), Makes(code, t, i));
    }
  }

  lemma NextIs(bl: Blocks, s: System, i: Inputs)
    requires CoreOk(s.core)
    ensures NextSystem(bl, s, i).core == Next(bl, s.core, i)
  {
  }

  lemma Carry(log: Bubbles, held: Bubbles, first: Bubbles, caused: Bubbles, shown: Bubbles, next: Bubbles,
              made: Bubbles)
    requires log + held == first + caused && shown + next == held + made
    ensures (log + shown) + next == first + (caused + made)
  {
    forall b: Bubble
      ensures ((log + shown) + next)[b] == (first + (caused + made))[b]
    {
      assert (log + held)[b] == (first + caused)[b];
      assert (shown + next)[b] == (held + made)[b];
    }
  }

  // Clocks of a run with a data wait or a refused request, and clocks in which a division held EX.
  function DataClocks(bl: Blocks, s: System, ins: seq<Inputs>): nat
    requires CoreOk(s.core)
  {
    if ins == [] then 0
    else
      var pre, i := ins[..|ins| - 1], ins[|ins| - 1];
      var t := Run(bl, s, pre).0;
      DataClocks(bl, s, pre) + Arith.Bit(DataWait(t, i) || Refused(t, i))
  }

  function DivideClocks(bl: Blocks, s: System, ins: seq<Inputs>): nat
    requires CoreOk(s.core)
  {
    if ins == [] then 0
    else
      var pre, i := ins[..|ins| - 1], ins[|ins| - 1];
      DivideClocks(bl, s, pre) + Arith.Bit(DivideHolds(Run(bl, s, pre).0, i))
  }

  lemma DataMakes(code: Code, s: System, i: Inputs)
    requires CoreOk(s.core)
    ensures Makes(code, s, i)[BDmem] == Arith.Bit(DataWait(s, i) || Refused(s, i))
    ensures Makes(code, s, i)[BDiv] == Arith.Bit(DivideHolds(s, i))
  {
    hide IdMakes, IfMakes, DataWait, Refused, DivideHolds;
    IdMakesNone(code, s, i);
    IfMakesNone(code, s, i);
    Exclusive(s, i);
  }

  lemma IdMakesNone(code: Code, s: System, i: Inputs)
    requires CoreOk(s.core)
    ensures IdMakes(code, s, i)[BDmem] == IdMakes(code, s, i)[BDiv] == 0
  {
    hide Sends, Stops, ReadsLoad, Ready, Advances, TrapDue, IsReturn;
    assert Why(s, i) != BDmem && Why(s, i) != BDiv;
  }

  lemma IfMakesNone(code: Code, s: System, i: Inputs)
    requires CoreOk(s.core)
    ensures IfMakes(code, s, i)[BDmem] == IfMakes(code, s, i)[BDiv] == 0
  {
    hide Sends, Resumes, Turns, Keeps, Runs, Takes, TrapDue, IsReturn;
    assert Why(s, i) != BDmem && Why(s, i) != BDiv && TurnWhy(code, s) != BDmem && TurnWhy(code, s) != BDiv;
  }

  lemma Exclusive(s: System, i: Inputs)
    requires CoreOk(s.core)
    ensures Refused(s, i) ==> !DataWait(s, i) && !DivideHolds(s, i)
    ensures DivideHolds(s, i) ==> !DataWait(s, i)
  {
  }

  lemma {:induction false} CountedClocks(bl: Blocks, code: Code, s: System, ins: seq<Inputs>)
    requires CoreOk(s.core)
    ensures Caused(bl, code, s, ins)[BDmem] == DataClocks(bl, s, ins)
    ensures Caused(bl, code, s, ins)[BDiv] == DivideClocks(bl, s, ins)
    decreases |ins|
  {
    hide Makes, DataWait, Refused, DivideHolds, Run;
    if ins != [] {
      CountedClocks(bl, code, s, ins[..|ins| - 1]);
      DataMakes(code, Run(bl, s, ins[..|ins| - 1]).0, ins[|ins| - 1]);
    }
  }

  /** Out of reset: the data bubbles shown, with the one in EX/MEM, are the clocks in which a read had no
    * answer or memory did not take a request; the division bubbles are the clocks in which a division held EX.
    */
  lemma DataBubbles(bl: Blocks, code: Code, s: System, ins: seq<Inputs>, resetPc: Addr)
    requires AfterReset(s.core, resetPc) && !s.env.iBusy && !s.env.dBusy && Wellformed(code)
    requires CoreOk(s.core) && LegalRun(bl, code, s, ins)
    ensures var (t, log) := Run(bl, s, ins);
            && multiset(log.bubbles)[BDmem] + Held(t.core)[BDmem] == DataClocks(bl, s, ins)
            && multiset(log.bubbles)[BDiv] + Held(t.core)[BDiv] == DivideClocks(bl, s, ins)
            && multiset(log.bubbles) + Held(t.core) == multiset{BFill, BFill, BFill} + Caused(bl, code, s, ins)
  {
    hide Inv, Wellformed, LegalRun, Run, Caused, DataClocks, DivideClocks;
    ResetInv(code, s, resetPc);
    RunBubbles(bl, code, s, ins);
    CountedClocks(bl, code, s, ins);
    var (t, log) := Run(bl, s, ins);
    assert (multiset(log.bubbles) + Held(t.core))[BDmem] == (Held(s.core) + Caused(bl, code, s, ins))[BDmem];
    assert (multiset(log.bubbles) + Held(t.core))[BDiv] == (Held(s.core) + Caused(bl, code, s, ins))[BDiv];
  }
}
