/** The clocked blocks that Mig1 and Mig2 share, as objects updated once a clock: pipeline register,
  * register file, CSRs, multiply/divide unit, and the halt state of Control. Every new value comes
  * from the values before the clock.
  */
module Registers {
  import opened Isa
  import opened Parts
  import opened Csr
  import opened MulDiv
  import Divider

  /** Mig1PipeReg, Mig2PipeReg: one slot of the pipeline, an instruction or a bubble with its reason,
    * and the other fields of the stage boundary.
    */
  class PipeReg<T> {
    var valid: bool
    var bubble: Bubble
    var data: T

    constructor (data: T)
      ensures !valid && bubble == BFill && this.data == data
    {
      valid, bubble, this.data := false, BFill, data;
    }

    // A flush clears only valid; a slot that already was to be a bubble keeps its reason.
    method Clock(stall: bool, flush: bool, why: Bubble, dValid: bool, dBubble: Bubble, d: T)
      modifies this
      ensures flush ==> !valid && bubble == (if dValid then why else dBubble) && data == old(data)
      ensures !flush && stall ==> valid == old(valid) && bubble == old(bubble) && data == old(data)
      ensures !flush && !stall ==> valid == dValid && bubble == dBubble && data == d
    {
      if flush {
        valid, bubble := false, if dValid then why else dBubble;
      } else if !stall {
        valid, bubble, data := dValid, dBubble, d;
      }
    }
  }

  /** Mig1Regs, Mig2Regs: x0 is never written and reads 0; the debug port owns the write port while the
    * core is halted.
    */
  class RegFile {
    const file: array<Word>

    constructor (regs: seq<Word>)
      requires |regs| == 32
      ensures fresh(file) && file.Length == 32 && file[..] == regs
    {
      file := new Word[32](k requires 0 <= k < 32 => regs[k]);
      new;
      assert file[..] == regs;
    }

    function Read(r: RegId): (v: Word)
      requires file.Length == 32
      reads file
      ensures v == ReadReg(file[..], r)
    {
      if r == 0 then 0 else file[r]
    }

    method Clock(halt: bool, rd: RegId, rdData: Word, dbgWrite: bool, dbgReg: RegId, dbgData: Word)
      requires file.Length == 32
      modifies file
      ensures file[..] == NextFile(old(file[..]), halt, rd, rdData, dbgWrite, dbgReg, dbgData)
    {
      var id := if halt then dbgReg else rd;
      var data := if halt then dbgData else rdData;
      if (dbgWrite || !halt) && id != 0 {
        file[id] := data;
      }
    }
  }

  /** Mig1Csr, Mig2Csr: the registers of the block. */
  class CsrFile {
    var mcycle: Dword
    var minstret: Dword
    var mscratch: Word
    var mie: bool
    var mpie: bool
    var mtvec: Addr
    var mepc: Addr
    var mcause: Word
    var mtval: Word

    function Value(): CsrState
      reads this
    {
      CsrState(Csrs(minstret, mscratch, mie, mpie, mtvec, mepc, mcause, mtval), mcycle)
    }

    constructor ()
      ensures Value() == CsrState(RESET_CSRS, Dword(0, 0))
    {
      mcycle, minstret, mscratch, mie, mpie := Dword(0, 0), Dword(0, 0), 0, false, false;
      mtvec, mepc, mcause, mtval := 0, 0, 0, 0;
    }

    method ClockCounters(done: bool, we: bool, a: CsrAddr, v: Word)
      modifies this`mcycle, this`minstret
      ensures mcycle == NextCycle(old(mcycle), we, a, v)
      ensures minstret == NextInstret(old(minstret), done, we, a, v)
    {
      if we && a == 0xB00 {
        mcycle := mcycle.(lo := v);
      } else if we && a == 0xB80 {
        mcycle := mcycle.(hi := v);
      } else {
        mcycle := Increment(mcycle);
      }
      if we && a == 0xB02 {
        minstret := minstret.(lo := v);
      } else if we && a == 0xB82 {
        minstret := minstret.(hi := v);
      } else if done {
        minstret := Increment(minstret);
      }
    }

    // mstatus: a trap saves MIE, MRET restores it.
    method ClockStatus(mret: bool, we: bool, a: CsrAddr, v: Word, trap: TrapOut)
      modifies this`mie, this`mpie
      ensures mie == if trap.valid then false else if mret then old(mpie)
                     else if we && a == 0x300 then v / 8 % 2 == 1 else old(mie)
      ensures mpie == if trap.valid then old(mie) else if mret then true
                      else if we && a == 0x300 then v / 0x80 % 2 == 1 else old(mpie)
    {
      if trap.valid {
        mie, mpie := false, mie;
      } else if mret {
        mie, mpie := mpie, true;
      } else if we && a == 0x300 {
        mie, mpie := v / 8 % 2 == 1, v / 0x80 % 2 == 1;
      }
    }

    method ClockTrap(we: bool, a: CsrAddr, v: Word, pc: Addr, trap: TrapOut)
      modifies this`mepc, this`mcause, this`mtval
      ensures mepc == if trap.valid then pc else if we && a == 0x341 then WordAddr(v) else old(mepc)
      ensures mcause == if trap.valid then trap.cause else if we && a == 0x342 then v else old(mcause)
      ensures mtval == if trap.valid then trap.tval else if we && a == 0x343 then v else old(mtval)
    {
      if trap.valid {
        mepc, mcause, mtval := pc, trap.cause, trap.tval;
      } else if we && a == 0x341 {
        mepc := WordAddr(v);
      } else if we && a == 0x342 {
        mcause := v;
      } else if we && a == 0x343 {
        mtval := v;
      }
    }

    method Clock(done: bool, d: Decoded, rs1: Word, pc: Addr, trap: TrapOut)
      modifies this
      ensures Value() == NextCsr(old(Value()), done, d, rs1, pc, trap)
    {
      hide NewValue, Csr.Read, AddrOf, Writes, NextCycle, NextInstret, WordAddr;
      var a := AddrOf(d);
      var we := done && d.csr && Writes(d);
      var v := NewValue(Csr.Read(Value(), a), d, rs1);
      ClockCounters(done, we, a, v);
      ClockStatus(done && d.mret, we, a, v, trap);
      ClockTrap(we, a, v, pc, trap);
      if we && a == 0x340 {
        mscratch := v;
      }
      if we && a == 0x305 {
        mtvec := WordAddr(v);
      }
    }
  }

  /** Mig1MulDiv (early = false, hold never) and Mig2MulDiv. */
  class MulDivUnit {
    const early: bool
    var ready: bool
    var div: Divider.Int32Div

    function Value(): MulDivState
      reads this
    {
      MulDivState(ready, div)
    }

    constructor (early: bool)
      ensures this.early == early && Value() == RESET_MULDIV
    {
      this.early, ready, div := early, false, Divider.IDLE;
    }

    method Clock(hold: bool, valid: bool, d: Decoded, rs1: Word, rs2: Word)
      requires Divider.DivInv(div)
      modifies this`ready, this`div
      ensures Value() == NextMulDiv(old(Value()), early, hold, valid, d, rs1, rs2)
    {
      var start := IsDiv(valid, d) && !div.busy && !ready;
      ready := Divider.Done(div) || (ready && hold);
      div := Divider.Tick(div, early, start, rs1, rs2, d.muldiv.divSigned);
    }
  }

  /** The halt state of Mig1Control and Mig2Control. */
  class HaltUnit {
    var running: bool
    var memHalting: bool
    var haltPc: Addr

    function Value(): ControlState
      reads this
    {
      ControlState(running, memHalting, haltPc)
    }

    constructor ()
      ensures running && !memHalting
    {
      running, memHalting := true, false;
    }

    method Clock(exStop: bool, exPc: Addr, resume: bool)
      modifies this
      ensures Value() == NextHalt(old(Value()), exStop, exPc, resume)
    {
      if memHalting {
        running := false;
      } else if !running && resume {
        running := true;
      }
      memHalting := exStop;
      if exStop {
        haltPc := exPc;
      }
    }
  }
}
