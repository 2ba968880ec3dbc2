/** What Mig2 promises from reset on: the retired stream is the run of the sequential machine, and no
  * prediction and no timing of the memories shows in it.
  */
module Mig2Theorems {
  import opened Isa
  import opened Parts
  import opened Csr
  import opened Mig2
  import opened Mig2System
  import opened Mig2FetchProofs
  import opened Mig2Commit
  import opened Mig2Refinement
  import opened Mig2Flow
  import opened Mig2Step
  import opened Mig2Runs
  import opened Outside
  import Adders
  import Divider

  // Out of reset, with nothing in the channels.
  predicate Started(s: System, resetPc: Addr) { AfterReset(s.core, resetPc) && !s.env.iBusy && !s.env.dBusy }

  // ---------- The machine without time ----------

  // The machine after n instructions, and their entries.
  function Steps(bl: Blocks, code: Code, a: Arch, cx: Context, n: nat): (a': Arch)
    requires |a.regs| == 32
    ensures |a'.regs| == 32
  {
    if n == 0 then a else var b := Steps(bl, code, a, cx, n - 1); Execute(bl, b, code(b.pc), cx).0
  }

  function StepEntries(bl: Blocks, code: Code, a: Arch, cx: Context, n: nat): (es: seq<Entry>)
    requires |a.regs| == 32
    ensures |es| == n
  {
    if n == 0 then []
    else
      var b := Steps(bl, code, a, cx, n - 1);
      StepEntries(bl, code, a, cx, n - 1) + [Execute(bl, b, code(b.pc), cx).1]
  }

  lemma {:induction false} LongerSteps(bl: Blocks, code: Code, a: Arch, cx: Context, m: nat, n: nat)
    requires |a.regs| == 32 && m <= n
    ensures StepEntries(bl, code, a, cx, m) <= StepEntries(bl, code, a, cx, n)
    decreases n - m
  {
    hide Execute;
    if m < n {
      LongerSteps(bl, code, a, cx, m, n - 1);
    }
  }

  // Code that never reads the cycle counter: its entries do not depend on time.
  predicate TimeBlind(code: Code) { forall a: Addr :: !ReadsTime(code(a)) }

  // No debugger takes EBREAK.
  predicate Undebugged(ins: seq<Inputs>) { forall k :: 0 <= k < |ins| ==> !ins[k].ebreakHalt }

  lemma NeverHalts(bl: Blocks, a: Arch, i: Insn, cx: Context)
    requires |a.regs| == 32 && !cx.ebreakHalt && !a.halted
    ensures !Execute(bl, a, i, cx).0.halted
  {
    hide LoadValue, StoreValue, Divide, Multiply, CsrNewValue, CsrAt, Misaligned, Target, Jumps, InPlace,
         AccessMask, OnlyBytes, CsrWrite, WriteReg, Value, CsrsAfter, NextPc, CompleteEntry, TrapEntry;
  }

  const NO_TIME := Context(false, Dword(0, 0))

  /** Whatever the memories, the branch target buffer and the return stack answered: the machine made
    * some number of steps, and the core shows exactly their entries.
    */
  lemma {:induction false} ShowsSteps(bl: Blocks, code: Code, s: System, ins: seq<Inputs>, resetPc: Addr)
    requires Started(s, resetPc) && Wellformed(code) && TimeBlind(code)
    requires LegalRun(bl, code, s, ins) && Undebugged(ins)
    ensures var (t, log) := Run(bl, s, ins);
            var n := |log.retired| + |InFlight(t)|;
            && log.retired + InFlight(t) == StepEntries(bl, code, ArchOf(s), NO_TIME, n)
            && ArchOf(t) == Steps(bl, code, ArchOf(s), NO_TIME, n) && !ArchOf(t).halted
    decreases |ins|
  {
    hide ArchOf, InFlight, NextSystem, NextLog, Execute, Legal, Wellformed, TimeBlind, Inv, Agrees, Started, Steps,
         StepEntries;
    StartsClean(code, s, resetPc);
    if ins == [] {
      NoSteps(bl, code, ArchOf(s));
    } else {
      var pre := ins[..|ins| - 1];
      var i := ins[|ins| - 1];
      ShowsSteps(bl, code, s, pre, resetPc);
      RunAgrees(bl, code, s, pre);
      OneMore(bl, code, s, Run(bl, s, pre).0, Run(bl, s, pre).1, i);
    }
  }

  lemma StartsClean(code: Code, s: System, resetPc: Addr)
    requires Started(s, resetPc)
    ensures CoreOk(s.core) && Inv(code, s) && InFlight(s) == [] && !ArchOf(s).halted
  {
    ResetInv(code, s, resetPc);
  }

  lemma NoSteps(bl: Blocks, code: Code, a: Arch)
    requires |a.regs| == 32
    ensures StepEntries(bl, code, a, NO_TIME, 0) == [] && Steps(bl, code, a, NO_TIME, 0) == a
  {
  }

  lemma OneMore(bl: Blocks, code: Code, s: System, t: System, log: Log, i: Inputs)
    requires CoreOk(s.core) && Clock(bl, code, t, i) && TimeBlind(code) && !i.ebreakHalt
    requires var n := |log.retired| + |InFlight(t)|;
             && log.retired + InFlight(t) == StepEntries(bl, code, ArchOf(s), NO_TIME, n)
             && ArchOf(t) == Steps(bl, code, ArchOf(s), NO_TIME, n) && !ArchOf(t).halted
    ensures var u, log' := NextSystem(bl, t, i), NextLog(bl, t, i, log);
            var n := |log'.retired| + |InFlight(u)|;
            && log'.retired + InFlight(u) == StepEntries(bl, code, ArchOf(s), NO_TIME, n)
            && ArchOf(u) == Steps(bl, code, ArchOf(s), NO_TIME, n) && !ArchOf(u).halted
  {
    hide FetchInv, SlotInv, ExInv, MemInv, HaltInv, BubbleInv, MulDiv.MulDivInv, ArchOf, InFlight, NextSystem,
         Execute, Legal, Wellformed, TimeBlind, Seen, RetireValid, RetireEntry, Commits, Now, StepEntries,
         Steps, EventOf;
    var n := |log.retired| + |InFlight(t)|;
    var u, log' := NextSystem(bl, t, i), NextLog(bl, t, i, log);
    var now := Now(bl, code, t, i);
    RetireStep(bl, code, t, i);
    ClockRefines(bl, code, t, i);
    NowIs(bl, code, t, i);
    assert log'.retired + InFlight(u) == log.retired + (InFlight(t) + now);
    assert log.retired + (InFlight(t) + now) == (log.retired + InFlight(t)) + now;
    StepOne(bl, code, ArchOf(s), n);
    RunningStays(bl, t, i);
    if Commits(bl, t.core, i) {
      var b := ArchOf(t);
      Blind(code, b.pc);
      SameExecution(bl, b, code(b.pc), ContextOf(t, i));
      NeverHalts(bl, b, code(b.pc), NO_TIME);
    } else {
      assert log.retired + InFlight(t) + now == log.retired + InFlight(t);
    }
  }

  lemma NowIs(bl: Blocks, code: Code, s: System, i: Inputs)
    requires CoreOk(s.core)
    ensures Now(bl, code, s, i)
            == if Commits(bl, s.core, i) then [Execute(bl, ArchOf(s), code(ArchOf(s).pc), ContextOf(s, i)).1] else []
  {
    hide ArchOf, Execute, Commits;
  }

  lemma Blind(code: Code, a: Addr)
    requires TimeBlind(code)
    ensures !ReadsTime(code(a))
  {
  }

  lemma StepOne(bl: Blocks, code: Code, a: Arch, n: nat)
    requires |a.regs| == 32
    ensures var b := Steps(bl, code, a, NO_TIME, n);
            && Steps(bl, code, a, NO_TIME, n + 1) == Execute(bl, b, code(b.pc), NO_TIME).0
            && StepEntries(bl, code, a, NO_TIME, n + 1)
               == StepEntries(bl, code, a, NO_TIME, n) + [Execute(bl, b, code(b.pc), NO_TIME).1]
  {
    hide Execute;
  }

  // Without a commit a machine that is not halted stays as it is.
  lemma RunningStays(bl: Blocks, s: System, i: Inputs)
    requires CoreOk(s.core) && !ArchOf(s).halted
    ensures EventOf(bl, s, i) == if Commits(bl, s.core, i) then Exec(ContextOf(s, i)) else Stutter
  {
    hide ArchRegs, ArchPc, Commits;
  }

  /** No prediction and no timing shows: of two runs of the same program from the same state, with any two
    * memories, predictors and debuggers, the one that heard the beginning of what the other heard from
    * outside shows the beginning of what the other shows; and if both heard the same, both show the same
    * and are in the same state.
    */
  lemma NothingShows(bl: Blocks, code: Code, s: System, t: System, ins: seq<Inputs>, jns: seq<Inputs>)
    requires CoreOk(s.core) && CoreOk(t.core) && Inv(code, s) && Inv(code, t) && Wellformed(code)
    requires LegalRun(bl, code, s, ins) && LegalRun(bl, code, t, jns)
    requires ArchOf(s) == ArchOf(t) && InFlight(s) == InFlight(t)
    requires Heard(bl, code, ArchOf(s), Run(bl, s, ins).1.events)
             <= Heard(bl, code, ArchOf(s), Run(bl, t, jns).1.events)
    ensures var (s', log) := Run(bl, s, ins);
            var (t', mog) := Run(bl, t, jns);
            var a, b := log.retired + InFlight(s'), mog.retired + InFlight(t');
            && a <= b
            && (Heard(bl, code, ArchOf(s), log.events) == Heard(bl, code, ArchOf(s), mog.events) ==>
                  a == b && ArchOf(s') == ArchOf(t'))
  {
    hide Inv, Wellformed, LegalRun, ArchOf, InFlight, Run, Heard, After, Entries, Runnable;
    RunAgrees(bl, code, s, ins);
    RunAgrees(bl, code, t, jns);
    SameHeard(bl, code, ArchOf(s), Run(bl, s, ins).1.events, Run(bl, t, jns).1.events);
  }

  /** Code that never reads the cycle counter shows no timing at all: of two runs, one shows the beginning
    * of what the other shows.
    */
  lemma UntimedShows(bl: Blocks, code: Code, s: System, t: System, ins: seq<Inputs>, jns: seq<Inputs>, resetPc: Addr)
    requires Started(s, resetPc) && Started(t, resetPc) && ArchOf(s) == ArchOf(t)
    requires Wellformed(code) && TimeBlind(code)
    requires LegalRun(bl, code, s, ins) && Undebugged(ins) && LegalRun(bl, code, t, jns) && Undebugged(jns)
    ensures var (s', log) := Run(bl, s, ins);
            var (t', mog) := Run(bl, t, jns);
            var a, b := log.retired + InFlight(s'), mog.retired + InFlight(t');
            a <= b || b <= a
  {
    hide Run, ArchOf, InFlight, LegalRun, Wellformed, TimeBlind, Steps, StepEntries;
    ShowsSteps(bl, code, s, ins, resetPc);
    ShowsSteps(bl, code, t, jns, resetPc);
    var (s', log) := Run(bl, s, ins);
    var (t', mog) := Run(bl, t, jns);
    var m, n := |log.retired| + |InFlight(s')|, |mog.retired| + |InFlight(t')|;
    if m <= n {
      LongerSteps(bl, code, ArchOf(s), NO_TIME, m, n);
    } else {
      LongerSteps(bl, code, ArchOf(s), NO_TIME, n, m);
    }
  }

  // ---------- Traps and the debugger ----------

  /** A trap is precise: the instruction writes no register, no memory and no CSR but those of the trap;
    * nothing behind it stays in the pipeline, and the handler comes next.
    */
  lemma PreciseTrap(bl: Blocks, code: Code, s: System, i: Inputs)
    requires Clock(bl, code, s, i) && ExTrap(bl, s.core, i).valid
    ensures var a, b := ArchOf(s), ArchOf(NextSystem(bl, s, i));
            && b.regs == a.regs && b.mem == a.mem && b.pc == a.csrs.mtvec && !b.halted
            && TrapDue(s, i).Some? && b.csrs == CsrsTrap(a, TrapDue(s, i).value)
    ensures var c := Next(bl, s.core, i); !c.idEx.valid && !c.fetch.slot.valid && c.fetch.pc == s.core.csr.csrs.mtvec
  {
    hide FetchInv, SlotInv, ExInv, MemInv, MulDiv.MulDivInv, BubbleInv, HaltInv, Next, NextEnv, ExTrap, TrapOf,
         ArchRegs, ArchPc, Halted;
    TrapActs(bl, code, s, i);
    RegsTrap(bl, code, s, i);
    MemExact(bl, code, s, i);
    CsrsTrapped(bl, code, s, i);
    PcTrap(bl, code, s, i);
    TrapRedirects(bl, s.core, i);
    BehindFlushed(bl, code, s, i);
  }

  lemma TrapRedirects(bl: Blocks, c: Core, i: Inputs)
    requires ExTrap(bl, c, i).valid
    ensures FlushId(bl, c, i) && ExRedirect(bl, c, i) && ExTarget(bl, c, i) == c.csr.csrs.mtvec
  {
    hide ExTrap;
  }

  // While the core is halted its register file holds the registers of the machine.
  lemma HaltedRead(code: Code, s: System, r: RegId)
    requires Inv(code, s) && !s.core.control.running
    ensures ReadReg(s.core.regs, r) == ArchOf(s).regs[r]
  {
  }

  // ---------- Dropped requests ----------

  /** A request of fetch is dropped only when EX sends fetch elsewhere or halts, or when ID does. */
  lemma DroppedWhy(bl: Blocks, code: Code, s: System, i: Inputs)
    requires Clock(bl, code, s, i) && Dropped(bl, s.core, i) > 0
    ensures FlushId(bl, s.core, i) || IdRedirect(bl, s.core, i)
    ensures var keep := IdKeep(s.core.fetch, FetchCtrlOf(bl, s.core, i), i);
            s.core.fetch.slot.valid && !keep && !IdMoves(bl, s.core, i) ==> FlushId(bl, s.core, i)
  {
    hide FetchInv, SlotInv, ExInv, MemInv, MulDiv.MulDivInv, BubbleInv, ExTrap, ExRedirect, ExStop, IdGo, IdBtbFix,
         IdRedirectPc, ExTarget, RedirectWhy, IdHazard, ExStall;
    RunningSlot(code, s);
  }

  lemma RunningSlot(code: Code, s: System)
    requires Inv(code, s)
    ensures s.core.fetch.slot.valid ==> s.core.control.running && !s.core.control.memHalting
  {
  }

  // ---------- The check of the branch target buffer ----------

  /** The check without carries that ID makes is the comparison with its target. */
  lemma CheckedByAddCmp(c: Core, i: Inputs)
    ensures var pc := Adders.BitsOf(30, c.fetch.slot.pc);
            var imm := Adders.BitsOf(30, WordAddr(IdDec(c, i).imm));
            var at := Adders.BitsOf(30, c.fetch.pc);
            && (Adders.AddCmp(pc, imm, at) <==> IdAtTarget(c, i))
            && (IdAtTarget(c, i) <==> c.fetch.pc == WordAddr(IdTarget(c, i)))
  {
    hide IdDec, Adders.AddCmp, Adders.BitsOf, Adders.Num, Pow2, WordAddr;
    var imm := IdDec(c, i).imm;
    var pc, offset := Adders.BitsOf(30, c.fetch.slot.pc), Adders.BitsOf(30, WordAddr(imm));
    Adders.AddCmpExact(pc, offset, Adders.BitsOf(30, c.fetch.pc));
    Adders.NumOfBits(30, c.fetch.slot.pc);
    Adders.NumOfBits(30, WordAddr(imm));
    Adders.NumOfBits(30, c.fetch.pc);
    Pow30();
    Small(c.fetch.slot.pc);
    Small(WordAddr(imm));
    Small(c.fetch.pc);
    AtTarget(c.fetch.slot.pc, imm);
  }

  lemma Pow30()
    ensures Pow2(30) == 0x4000_0000
  {
    assert Pow2(6) == 0x40 && Pow2(8) == 0x100;
    Divider.PowSum(8, 8);
    Divider.PowSum(16, 8);
    Divider.PowSum(24, 6);
  }

  lemma Small(a: Addr)
    ensures a % 0x4000_0000 == a
  {
  }

  // ---------- The cycle counter ----------

  // Code that never writes the cycle counter.
  predicate LeavesTime(code: Code) {
    forall a: Addr :: code(a).kind.KCsr? && (code(a).imm % 0x1000 == 0xB00 || code(a).imm % 0x1000 == 0xB80) ==>
      code(a).rs1 == 0 && code(a).funct3 != 1 && code(a).funct3 != 5
  }

  lemma TicksOnce(bl: Blocks, code: Code, s: System, i: Inputs)
    requires Clock(bl, code, s, i) && LeavesTime(code)
    ensures Count64(Next(bl, s.core, i).csr.mcycle) == (Count64(s.core.csr.mcycle) + 1) % 0x1_0000_0000_0000_0000
  {
    hide FetchInv, SlotInv, MemInv, HaltInv, BubbleInv, MulDiv.MulDivInv, NextFetch, NextIdEx, NextControl,
         NextRegs, ExMemD, FetchCtrlOf, ExTrap, ExStall, NextCsr, Count64, NewValue, Decode;
    var x := s.core.idEx;
    CycleExact(s.core.csr, ExDone(bl, s.core, i), x.dec, x.rs1Data, x.pc, ExTrap(bl, s.core, i));
    FieldsExact(x.insn);
    SystemExact(x.insn);
  }

  /** mcycle counts the clocks of every run of code that does not write it. */
  lemma {:induction false} CountsClocks(bl: Blocks, code: Code, s: System, ins: seq<Inputs>)
    requires CoreOk(s.core) && Inv(code, s) && Wellformed(code) && LeavesTime(code) && LegalRun(bl, code, s, ins)
    ensures Count64(Run(bl, s, ins).0.core.csr.mcycle)
            == (Count64(s.core.csr.mcycle) + |ins|) % 0x1_0000_0000_0000_0000
    decreases |ins|
  {
    hide FetchInv, SlotInv, ExInv, MemInv, HaltInv, BubbleInv, MulDiv.MulDivInv, Legal, Wellformed, LeavesTime,
         NextLog, Count64, Next, NextEnv;
    if ins == [] {
      CountFits(s.core.csr.mcycle);
    } else {
      var pre := ins[..|ins| - 1];
      CountsClocks(bl, code, s, pre);
      RunAgrees(bl, code, s, pre);
      TicksOnce(bl, code, Run(bl, s, pre).0, ins[|ins| - 1]);
    }
  }

  lemma CountFits(d: Dword)
    ensures Count64(d) % 0x1_0000_0000_0000_0000 == Count64(d)
  {
  }

  /** Out of reset the cycle counter is the number of clocks, and the retire order the number of retired
    * instructions.
    */
  lemma CountsFromReset(bl: Blocks, code: Code, s: System, ins: seq<Inputs>, resetPc: Addr)
    requires Started(s, resetPc) && CoreOk(s.core) && Wellformed(code) && LegalRun(bl, code, s, ins)
    ensures var (t, log) := Run(bl, s, ins);
            && t.core.order == |log.retired| % 0x1_0000_0000_0000_0000
            && (LeavesTime(code) ==> Count64(t.core.csr.mcycle) == |ins| % 0x1_0000_0000_0000_0000)
  {
    hide Inv, Wellformed, LegalRun, Run, LeavesTime, Agrees, Started, Count64;
    StartCounts(code, s, resetPc);
    RunAgrees(bl, code, s, ins);
    OrderOf(bl, code, s, Run(bl, s, ins).0, Run(bl, s, ins).1);
    if LeavesTime(code) {
      CountsClocks(bl, code, s, ins);
    }
  }

  lemma StartCounts(code: Code, s: System, resetPc: Addr)
    requires Started(s, resetPc)
    ensures CoreOk(s.core) && Inv(code, s) && s.core.order == 0 && Count64(s.core.csr.mcycle) == 0
  {
    hide Inv;
    ResetInv(code, s, resetPc);
  }

  lemma OrderOf(bl: Blocks, code: Code, s: System, t: System, log: Log)
    requires CoreOk(s.core) && CoreOk(t.core) && Agrees(bl, code, s, t, log)
    ensures t.core.order == (s.core.order + |log.retired|) % 0x1_0000_0000_0000_0000
  {
    hide ArchOf, InFlight, InEx, Dividing, Entries, After, Runnable, Issued, AccessesOf, Divides;
  }
}
