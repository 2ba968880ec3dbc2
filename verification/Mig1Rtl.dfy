/** Mig1 as objects, clocked by Mig1Core, on its memories and with the state of the sequential machine
  * beside it as ghost state.
  */
module Mig1Rtl {
  import opened Isa
  import opened Parts
  import opened Csr
  import opened MulDiv
  import opened Registers
  import opened Mig1
  import Divider
  import S1 = Mig1System
  import P1 = Mig1Step

  /** Mig1Fetch: the program counter and the IF/ID register. */
  class FetchUnit {
    var pc: Addr
    var slot: Fetch

    constructor (resetPc: Addr)
      ensures pc == resetPc && slot == Fetch(false, BFill, resetPc)
    {
      pc, slot := resetPc, Fetch(false, BFill, resetPc);
    }

    // enable: the request to the instruction memory.
    method Clock(k: FetchCtrl) returns (enable: bool, addr: Addr)
      modifies this
      ensures pc == NextFetchPc(old(pc), k) && slot == NextSlot(old(pc), old(slot), k)
      ensures enable == ImemEnable(k) && addr == old(pc)
    {
      enable, addr := k.run && !k.stall, pc;
      if !k.stall {
        slot := Fetch(k.run && !k.redirect, if k.redirect then k.why else if k.run then BNone else BFill, pc);
      }
      if k.redirect {
        pc := k.target;
      } else if enable {
        pc := NextAddr(pc);
      }
    }
  }

  datatype Retire = Retire(valid: bool, bubble: Bubble, order: Order, entry: Entry)

  function RetireOf(c: Core, i: Inputs): Retire {
    Retire(c.exMem.valid, c.exMem.bubble, c.order, RetireEntry(c, i))
  }

  /** Mig1Core: it connects its parts and clocks them. */
  class MigCore {
    const fetch: FetchUnit
    const halt: HaltUnit
    const idEx: PipeReg<IdEx>
    const exMem: PipeReg<ExMem>
    const muldiv: MulDivUnit
    const csr: CsrFile
    const regs: RegFile
    var retireOrder: Order

    ghost const Repr: set<object>

    ghost predicate Valid()
      reads this, Repr, muldiv
    {
      && Repr == {this, fetch, halt, idEx, exMem, muldiv, csr, regs, regs.file}
      && regs.file.Length == 32 && !muldiv.early && Divider.DivInv(muldiv.div)
    }

    function InEx(): IdEx
      reads idEx
    {
      idEx.data.(valid := idEx.valid, bubble := idEx.bubble)
    }

    function InMem(): ExMem
      reads exMem
    {
      exMem.data.(valid := exMem.valid, bubble := exMem.bubble)
    }

    function Value(): (c: Core)
      reads this, fetch, halt, idEx, exMem, muldiv, csr, regs, regs.file
    {
      Core(fetch.pc, fetch.slot, halt.Value(), InEx(), InMem(), muldiv.Value(), csr.Value(), regs.file[..], retireOrder)
    }

    constructor (resetPc: Addr, x: IdEx, m: ExMem, file: seq<Word>)
      requires |file| == 32
      ensures Valid() && fresh(Repr) && AfterReset(Value(), resetPc)
    {
      fetch := new FetchUnit(resetPc);
      halt := new HaltUnit();
      idEx := new PipeReg<IdEx>(x);
      exMem := new PipeReg<ExMem>(m);
      muldiv := new MulDivUnit(false);
      csr := new CsrFile();
      var r := new RegFile(file);
      regs := r;
      retireOrder := 0;
      Repr := {this, fetch, halt, idEx, exMem, muldiv, csr, r, r.file};
    }

    /** A clock: the state after it is that of the step function; the retire port and the request to the
      * instruction memory are what that says.
      */
    method Clock(bl: Blocks, i: Inputs) returns (retire: Retire, enable: bool, addr: Addr)
      requires Valid()
      modifies Repr
      ensures Valid() && CoreOk(old(Value())) && Value() == Next(bl, old(Value()), i)
      ensures retire == RetireOf(old(Value()), i)
      ensures enable == ImemEnable(FetchCtrlOf(bl, old(Value()), i)) && addr == old(Value()).pc
    {
      hide NextFetchPc, NextSlot, ImemEnable, NextCsr, NextMulDiv, NextIdEx, NextControl, NextRegs, FetchCtrlOf,
           ExMemD, ExDone, ExTrap, RetireOf, ExStop, Divider.DivInv, CsrFile.Value, InEx, InMem, HaltUnit.Value;
      var c := Value();
      retire := RetireOf(c, i);
      ClockStages(bl, c, i);
      enable, addr := fetch.Clock(FetchCtrlOf(bl, c, i));
      ClockUnits(bl, c, i);
      if c.exMem.valid {
        retireOrder := (retireOrder + 1) % ORDERS;
      }
    }

    // The units of EX and the register file.
    method ClockUnits(bl: Blocks, c: Core, i: Inputs)
      requires CoreOk(c) && c.muldiv == muldiv.Value() && c.csr == csr.Value() && regs.file.Length == 32
               && c.regs == regs.file[..]
      requires !muldiv.early
      modifies muldiv, csr, regs.file
      ensures muldiv.Value()
              == NextMulDiv(c.muldiv, false, false, c.idEx.valid, c.idEx.dec, c.idEx.rs1Data, c.idEx.rs2Data)
      ensures csr.Value() == NextCsr(c.csr, ExDone(bl, c, i), c.idEx.dec, c.idEx.rs1Data, c.idEx.pc, ExTrap(bl, c, i))
      ensures regs.file[..] == NextRegs(c, i)
    {
      hide NextCsr, NextMulDiv, NextFile, ExDone, ExTrap, MemRd, MemRdData, Divider.DivInv, CsrFile.Value;
      var x := c.idEx;
      PartsExact(bl, c, i);
      muldiv.Clock(false, x.valid, x.dec, x.rs1Data, x.rs2Data);
      csr.Clock(ExDone(bl, c, i), x.dec, x.rs1Data, x.pc, ExTrap(bl, c, i));
      regs.Clock(!c.control.running, MemRd(c), MemRdData(c, i), i.dbgWrite, i.dbgReg, i.dbgData);
    }

    // Mig1Pipe, the registers ID/EX and EX/MEM; and the halt state.
    method ClockStages(bl: Blocks, c: Core, i: Inputs)
      requires CoreOk(c) && c.idEx == InEx() && c.exMem == InMem() && c.control == halt.Value()
      modifies idEx, exMem, halt
      ensures InEx() == NextIdEx(bl, c, i) && InMem() == ExMemD(bl, c, i) && halt.Value() == NextControl(c, i)
    {
      hide IdExD, ExMemD, ExStall, IdHazard, FlushId, ExWhy, ExStop, NextHalt;
      PartsExact(bl, c, i);
      var d, m := IdExD(bl, c, i), ExMemD(bl, c, i);
      var flush := !ExStall(c) && (IdHazard(c, i) || FlushId(bl, c, i));
      idEx.Clock(ExStall(c), flush, ExWhy(bl, c, i), d.valid, d.bubble, d);
      exMem.Clock(false, false, BNone, m.valid, m.bubble, m);
      halt.Clock(ExStop(c, i), c.idEx.pc, i.resume);
    }
  }

  // The reason of a bubble in EX.
  function ExWhy(bl: Blocks, c: Core, i: Inputs): Bubble {
    if ExRedirect(bl, c, i) then RedirectWhy(bl, c, i) else if ExStop(c, i) then BFill else BLoadUse
  }

  // What the parts are told, in terms of the step function.
  lemma PartsExact(bl: Blocks, c: Core, i: Inputs)
    requires CoreOk(c)
    ensures var d := IdExD(bl, c, i);
            NextIdEx(bl, c, i)
            == if !ExStall(c) && (IdHazard(c, i) || FlushId(bl, c, i)) then
                 c.idEx.(valid := false, bubble := if d.valid then ExWhy(bl, c, i) else d.bubble)
               else if ExStall(c) then c.idEx else d
  {
    hide ExStall, IdHazard, FlushId, ExRedirect, RedirectWhy, ExStop, IdExD, WriteReg, MemRd, MemRdData;
  }

  /** Mig1 on its memories, with the sequential machine beside it. */
  class Machine {
    const core: MigCore
    ghost const code: Code
    ghost var env: S1.Env
    ghost var arch: Arch

    ghost function State(): (s: S1.System)
      reads this, core, core.Repr
      requires core.Valid()
      ensures CoreOk(s.core)
    {
      S1.System(core.Value(), env)
    }

    ghost predicate Valid()
      reads this, core, core.Repr, core.muldiv
    {
      && core.Valid() && this !in core.Repr
      && S1.Inv(code, State()) && P1.Wellformed(code)
      && arch == S1.ArchOf(State())
    }

    constructor (core: MigCore, resetPc: Addr, ghost code: Code, ghost insn: Insn, ghost mem: Mem)
      requires core.Valid() && AfterReset(core.Value(), resetPc) && P1.Wellformed(code)
      ensures Valid() && this.core == core && this.code == code
      ensures arch.pc == resetPc && arch.mem == mem && arch.csrs == RESET_CSRS && !arch.halted
    {
      this.core, this.code := core, code;
      env := S1.Env(insn, 0, mem);
      var s := S1.System(core.Value(), S1.Env(insn, 0, mem));
      arch := S1.ArchOf(s);
      new;
      P1.ResetInv(code, State(), resetPc);
    }

    /** A clock: the machine executes an instruction exactly when one leaves EX. */
    method Clock(bl: Blocks, i: Inputs) returns (retire: Retire)
      requires Valid() && S1.Legal(State(), i)
      modifies this, core.Repr
      ensures Valid() && State() == S1.NextSystem(bl, code, old(State()), i)
      ensures arch == Apply(bl, code, old(arch), P1.EventOf(bl, old(State()), i))
      ensures retire == RetireOf(old(core.Value()), i)
    {
      hide Next, S1.Inv, S1.ArchOf, S1.NextEnv, P1.EventOf, Apply, S1.Legal, RetireOf, P1.Wellformed;
      ghost var s := State();
      P1.StepKeepsInv(bl, code, s, i);
      P1.ClockRefines(bl, code, s, i);
      env := S1.NextEnv(bl, code, s, i);
      arch := Apply(bl, code, arch, P1.EventOf(bl, s, i));
      var enable, addr;
      retire, enable, addr := core.Clock(bl, i);
    }
  }
}
