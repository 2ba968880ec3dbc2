/** Mig2 as objects: the blocks with their registers, connected and clocked by Mig2Core, on memories
  * and with the state of the sequential machine beside it as ghost state.
  */
module Mig2Rtl {
  import opened Isa
  import opened Parts
  import opened Csr
  import opened MulDiv
  import opened Registers
  import opened Mig2
  import Divider
  import S2 = Mig2System
  import C2 = Mig2Commit
  import R2 = Mig2Refinement
  import P2 = Mig2Step

  /** Mig2Fetch: the program counter, the request in flight and its answer, and the slot of ID. */
  class FetchUnit {
    var pc: Addr
    var pending: bool
    var drop: bool
    var got: bool
    var wordQ: Insn
    var slot: Fetch
    var btbPred: BtbPred

    function Value(): FetchState
      reads this
    {
      FetchState(pc, pending, drop, got, wordQ, slot, btbPred)
    }

    constructor (resetPc: Addr, word: Insn, btb: BtbPred)
      ensures Value() == FetchState(resetPc, false, false, false, word, Fetch(false, BFill, resetPc), btb)
    {
      pc, pending, drop, got, wordQ := resetPc, false, false, false, word;
      slot, btbPred := Fetch(false, BFill, resetPc), btb;
    }

    // The program counter: a redirect first, then the prediction, then the next address.
    method ClockPc(k: FetchCtrl, taken: bool, i: Inputs)
      modifies this`pc
      ensures pc == if k.redirect then k.target else if taken && i.btb.taken then i.btbTarget
                    else if taken then NextAddr(old(pc)) else old(pc)
    {
      if k.redirect {
        pc := k.target;
      } else if taken && i.btb.taken {
        pc := i.btbTarget;
      } else if taken {
        pc := NextAddr(pc);
      }
    }

    // The reason of a slot without an instruction.
    function WhyNoInsn(k: FetchCtrl, taken: bool): Bubble {
      if k.redirect then k.why else if !k.run then BFill else if taken then BNone else BImem
    }

    // IF/ID: the slot and what the branch target buffer said for it.
    method ClockSlot(k: FetchCtrl, taken: bool, keep: bool, at: Addr, i: Inputs)
      modifies this`slot, this`btbPred
      ensures btbPred == if keep then old(btbPred) else i.btb
      ensures slot == if keep then old(slot)
                      else Fetch(taken && !k.redirect, WhyNoInsn(k, taken), at)
    {
      if !keep {
        slot := Fetch(taken && !k.redirect, WhyNoInsn(k, taken), at);
        btbPred := i.btb;
      }
    }

    // The request in flight, whether its answer is thrown away, and the word kept for ID.
    method ClockRequest(k: FetchCtrl, taken: bool, keep: bool, haveWord: bool, i: Inputs)
      modifies this`pending, this`drop, this`got, this`wordQ
      ensures pending == (taken || (old(pending) && !i.iValid))
      ensures drop == if taken then k.redirect else old(pending) && !i.iValid && (old(drop) || !keep)
      ensures got == (keep && haveWord)
      ensures wordQ == if i.iValid then i.iData else old(wordQ)
    {
      drop := if taken then k.redirect else pending && !i.iValid && (drop || !keep);
      pending := taken || (pending && !i.iValid);
      got := keep && haveWord;
      if i.iValid {
        wordQ := i.iData;
      }
    }

    method Clock(k: FetchCtrl, i: Inputs)
      modifies this
      ensures Value() == NextFetch(old(Value()), k, i)
    {
      hide ImemTaken, IdKeep, HaveWord;
      var f := Value();
      var taken, keep := ImemTaken(f, k, i), IdKeep(f, k, i);
      ClockRequest(k, taken, keep, HaveWord(f, i), i);
      ClockSlot(k, taken, keep, pc, i);
      ClockPc(k, taken, i);
    }
  }

  datatype PipeCtrl = PipeCtrl(exStall: bool, exFlush: bool, exWhy: Bubble, memStall: bool)

  function PipeCtrlOf(bl: Blocks, c: Core, i: Inputs): PipeCtrl {
    var why := if ExRedirect(bl, c, i) then RedirectWhy(bl, c, i) else if ExStop(c, i) then BFill else BLoadUse;
    PipeCtrl(ExStall(bl, c, i), !ExStall(bl, c, i) && (IdHazard(c, i) || FlushId(bl, c, i)), why, MemWait(c, i))
  }

  /** Mig2Pipe: the registers ID/EX and EX/MEM. */
  class Pipe {
    const idEx: PipeReg<IdEx>
    const exMem: PipeReg<ExMem>

    // The slots, with the valid and bubble fields of the registers.
    function InEx(): IdEx
      reads this, idEx
    {
      idEx.data.(valid := idEx.valid, bubble := idEx.bubble)
    }

    function InMem(): ExMem
      reads this, exMem
    {
      exMem.data.(valid := exMem.valid, bubble := exMem.bubble)
    }

    constructor (x: IdEx, m: ExMem)
      ensures fresh(idEx) && fresh(exMem)
      ensures InEx() == x.(valid := false, bubble := BFill) && InMem() == m.(valid := false, bubble := BFill)
    {
      idEx := new PipeReg<IdEx>(x);
      exMem := new PipeReg<ExMem>(m);
    }

    method Clock(k: PipeCtrl, x: IdEx, m: ExMem)
      modifies idEx, exMem
      ensures InEx() == if k.exFlush then old(InEx()).(valid := false, bubble := if x.valid then k.exWhy else x.bubble)
                        else if k.exStall then old(InEx()) else x
      ensures InMem() == if k.memStall then old(InMem()) else m
    {
      idEx.Clock(k.exStall, k.exFlush, k.exWhy, x.valid, x.bubble, x);
      exMem.Clock(k.memStall, false, BNone, m.valid, m.bubble, m);
    }
  }

  // What the retire port shows in a clock.
  datatype Retire = Retire(valid: bool, bubble: Bubble, order: Order, entry: Entry)

  function RetireOf(c: Core, i: Inputs): Retire {
    Retire(RetireValid(c, i), RetireBubble(c, i), c.order, RetireEntry(c, i))
  }

  // A load that waits for its word shows a bubble of the data memory.
  lemma PortExact(c: Core, i: Inputs)
    ensures var m, r := c.exMem, RetireOf(c, i);
            var waits := m.valid && m.load && !i.dValid;
            r.valid == (m.valid && !waits) && r.bubble == (if waits then BDmem else m.bubble) && r.order == c.order
  {
  }

  /** Mig2Core: it connects its parts and clocks them. */
  class MigCore {
    const fetch: FetchUnit
    const halt: HaltUnit
    const pipe: Pipe
    const muldiv: MulDivUnit
    const csr: CsrFile
    const regs: RegFile
    var retireOrder: Order

    ghost const Repr: set<object>

    // The parts are distinct objects.
    ghost predicate Valid()
      reads this, Repr, muldiv
    {
      && Repr == {this, fetch, halt, pipe, pipe.idEx, pipe.exMem, muldiv, csr, regs, regs.file}
      && regs.file.Length == 32 && muldiv.early && Divider.DivInv(muldiv.div)
    }

    function Value(): (c: Core)
      reads this, fetch, halt, pipe, pipe.idEx, pipe.exMem, muldiv, csr, regs, regs.file
    {
      Core(fetch.Value(), halt.Value(), pipe.InEx(), pipe.InMem(), muldiv.Value(), csr.Value(), regs.file[..],
              retireOrder)
    }

    constructor (resetPc: Addr, word: Insn, btb: BtbPred, x: IdEx, m: ExMem, file: seq<Word>)
      requires |file| == 32
      ensures Valid() && fresh(Repr) && AfterReset(Value(), resetPc)
    {
      fetch := new FetchUnit(resetPc, word, btb);
      halt := new HaltUnit();
      var p := new Pipe(x, m);
      pipe := p;
      muldiv := new MulDivUnit(true);
      csr := new CsrFile();
      var r := new RegFile(file);
      regs := r;
      retireOrder := 0;
      Repr := {this, fetch, halt, p, p.idEx, p.exMem, muldiv, csr, r, r.file};
    }

    /** A clock: the state after it is that of the step function, and the retire port shows what that
      * says.
      */
    method Clock(bl: Blocks, i: Inputs) returns (retire: Retire)
      requires Valid()
      modifies Repr
      ensures Valid() && CoreOk(old(Value())) && Value() == Next(bl, old(Value()), i)
      ensures retire == RetireOf(old(Value()), i)
      ensures var m := old(pipe.InMem());
              var waits := m.valid && m.load && !i.dValid;
              && retire.valid == (m.valid && !waits) && retire.bubble == (if waits then BDmem else m.bubble)
              && retire.order == old(retireOrder)
    {
      hide NextFetch, NextCsr, NextMulDiv, NextIdEx, NextControl, NextRegs, FetchCtrlOf, ExMemD, ExDone, ExTrap,
           RetireOf, RetireValid, MemWait, Divider.DivInv, FetchUnit.Value, Pipe.InEx, Pipe.InMem, CsrFile.Value,
           HaltUnit.Value;
      var c := Value();
      retire := RetireOf(c, i);
      PortExact(c, i);
      ClockStages(bl, c, i);
      ClockUnits(bl, c, i);
      if RetireValid(c, i) {
        retireOrder := (retireOrder + 1) % ORDERS;
      }
    }

    // The registers of the stages, from the values c before the clock.
    method ClockStages(bl: Blocks, c: Core, i: Inputs)
      requires CoreOk(c) && c.fetch == fetch.Value() && c.control == halt.Value() && c.idEx == pipe.InEx()
               && c.exMem == pipe.InMem()
      modifies fetch, halt, pipe.idEx, pipe.exMem
      ensures fetch.Value() == NextFetch(c.fetch, FetchCtrlOf(bl, c, i), i) && halt.Value() == NextControl(c, i)
      ensures pipe.InEx() == NextIdEx(bl, c, i)
      ensures pipe.InMem() == if MemWait(c, i) then c.exMem else ExMemD(bl, c, i)
    {
      hide NextFetch, NextIdEx, NextHalt, FetchCtrlOf, PipeCtrlOf, IdExD, ExMemD, ExStop, MemWait, FetchUnit.Value,
           Pipe.InEx, Pipe.InMem;
      PartsExact(bl, c, i);
      pipe.Clock(PipeCtrlOf(bl, c, i), IdExD(bl, c, i), ExMemD(bl, c, i));
      fetch.Clock(FetchCtrlOf(bl, c, i), i);
      halt.Clock(ExStop(c, i), c.idEx.pc, i.resume);
    }

    // The units of EX and the register file.
    method ClockUnits(bl: Blocks, c: Core, i: Inputs)
      requires CoreOk(c) && c.muldiv == muldiv.Value() && c.csr == csr.Value() && regs.file.Length == 32
               && c.regs == regs.file[..]
      requires muldiv.early
      modifies muldiv, csr, regs.file
      ensures muldiv.Value()
              == NextMulDiv(c.muldiv, true, MemWait(c, i), c.idEx.valid, c.idEx.dec, c.idEx.rs1Data, c.idEx.rs2Data)
      ensures csr.Value() == NextCsr(c.csr, ExDone(bl, c, i), c.idEx.dec, c.idEx.rs1Data, c.idEx.pc, ExTrap(bl, c, i))
      ensures regs.file[..] == NextRegs(c, i)
    {
      hide NextCsr, NextMulDiv, NextFile, ExDone, ExTrap, MemRd, MemRdData, MemWait, Divider.DivInv, CsrFile.Value;
      var x := c.idEx;
      PartsExact(bl, c, i);
      muldiv.Clock(MemWait(c, i), x.valid, x.dec, x.rs1Data, x.rs2Data);
      csr.Clock(ExDone(bl, c, i), x.dec, x.rs1Data, x.pc, ExTrap(bl, c, i));
      regs.Clock(!c.control.running, MemRd(c, i), MemRdData(c, i), i.dbgWrite, i.dbgReg, i.dbgData);
    }
  }

  // What the parts are told, in terms of the step function.
  lemma PartsExact(bl: Blocks, c: Core, i: Inputs)
    requires CoreOk(c)
    ensures var k, d := PipeCtrlOf(bl, c, i), IdExD(bl, c, i);
            && k.memStall == MemWait(c, i)
            && NextIdEx(bl, c, i)
               == if k.exFlush then c.idEx.(valid := false, bubble := if d.valid then k.exWhy else d.bubble)
                  else if k.exStall then c.idEx else d
  {
    hide ExStall, IdHazard, FlushId, ExRedirect, RedirectWhy, ExStop, IdExD, WriteReg, MemRd, MemRdData, MemWait;
  }

  /** Mig2 on its memories, with the sequential machine beside it: ghost state that steps when an
    * instruction leaves EX.
    */
  class Machine {
    const core: MigCore
    ghost const code: Code
    ghost var env: S2.Env
    ghost var arch: Arch

    ghost function State(): (s: S2.System)
      reads this, core, core.Repr
      requires core.Valid()
      ensures CoreOk(s.core)
    {
      S2.System(core.Value(), env)
    }

    // The machine is what the core stands for.
    ghost predicate Valid()
      reads this, core, core.Repr, core.muldiv
    {
      && core.Valid() && this !in core.Repr
      && S2.Inv(code, State()) && C2.Wellformed(code)
      && arch == S2.ArchOf(State())
    }

    constructor (core: MigCore, resetPc: Addr, ghost code: Code, ghost mem: Mem)
      requires core.Valid() && AfterReset(core.Value(), resetPc) && C2.Wellformed(code)
      ensures Valid() && this.core == core && this.code == code
      ensures arch.pc == resetPc && arch.mem == mem && arch.csrs == RESET_CSRS && !arch.halted
    {
      this.core, this.code := core, code;
      env := S2.Env(false, 0, false, 0, mem);
      var s := S2.System(core.Value(), S2.Env(false, 0, false, 0, mem));
      arch := S2.ArchOf(s);
      new;
      P2.ResetInv(code, State(), resetPc);
    }

    /** A clock, with any answers the channels may give: the machine executes an instruction exactly when
      * one leaves EX.
      */
    method Clock(bl: Blocks, i: Inputs) returns (retire: Retire)
      requires Valid() && S2.Legal(code, State(), i)
      modifies this, core.Repr
      ensures Valid() && State() == S2.NextSystem(bl, old(State()), i)
      ensures arch == Apply(bl, code, old(arch), R2.EventOf(bl, old(State()), i))
      ensures retire == RetireOf(old(core.Value()), i)
    {
      hide Next, S2.Inv, S2.ArchOf, S2.NextEnv, R2.EventOf, Apply, S2.Legal, RetireOf, C2.Wellformed;
      ghost var s := State();
      P2.StepKeepsInv(bl, code, s, i);
      P2.ClockRefines(bl, code, s, i);
      env := S2.NextEnv(bl, s, i);
      arch := Apply(bl, code, arch, R2.EventOf(bl, s, i));
      retire := core.Clock(bl, i);
    }
  }
}
