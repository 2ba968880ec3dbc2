/** The two cores against each other: whatever Mig2 predicts and however its memories behave, it shows what
  * Mig1 shows.
  */
module BothCores {
  import opened Isa
  import opened Outside
  import C1 = Mig1
  import S1 = Mig1System
  import P1 = Mig1Step
  import R1 = Mig1Runs
  import C2 = Mig2
  import S2 = Mig2System
  import M2 = Mig2Commit
  import P2 = Mig2Step
  import R2 = Mig2Runs

  // Everything a core has shown: the retired entries and the one in MEM/WB.
  function Shown1(bl: Blocks, code: Code, s: S1.System, pins: seq<R1.Pins>): seq<Entry>
    requires C1.CoreOk(s.core)
  {
    var (t, log) := R1.Run(bl, code, s, pins);
    log.retired + R1.InFlight(t)
  }

  function Shown2(bl: Blocks, s: S2.System, ins: seq<C2.Inputs>): seq<Entry>
    requires C2.CoreOk(s.core)
  {
    var (t, log) := R2.Run(bl, s, ins);
    log.retired + R2.InFlight(t)
  }

  function Heard1(bl: Blocks, code: Code, s: S1.System, pins: seq<R1.Pins>): seq<Event>
    requires C1.CoreOk(s.core)
  {
    Heard(bl, code, S1.ArchOf(s), R1.Run(bl, code, s, pins).1.events)
  }

  function Heard2(bl: Blocks, code: Code, s: S2.System, ins: seq<C2.Inputs>): seq<Event>
    requires C2.CoreOk(s.core)
  {
    Heard(bl, code, S2.ArchOf(s), R2.Run(bl, s, ins).1.events)
  }

  lemma Shows1(bl: Blocks, code: Code, s: S1.System, pins: seq<R1.Pins>)
    requires C1.CoreOk(s.core) && S1.Inv(code, s) && P1.Wellformed(code) && R1.InFlight(s) == []
    ensures var (t, log) := R1.Run(bl, code, s, pins);
            && Runnable(bl, code, S1.ArchOf(s), log.events)
            && S1.ArchOf(t) == After(bl, code, S1.ArchOf(s), log.events)
            && Shown1(bl, code, s, pins) == Entries(bl, code, S1.ArchOf(s), log.events)
  {
    hide S1.Inv, P1.Wellformed, S1.ArchOf, R1.Run, R1.InFlight, After, Entries, Runnable;
    R1.RunAgrees(bl, code, s, pins);
  }

  lemma Shows2(bl: Blocks, code: Code, s: S2.System, ins: seq<C2.Inputs>)
    requires C2.CoreOk(s.core) && S2.Inv(code, s) && M2.Wellformed(code) && R2.LegalRun(bl, code, s, ins)
    requires R2.InFlight(s) == []
    ensures var (t, log) := R2.Run(bl, s, ins);
            && Runnable(bl, code, S2.ArchOf(s), log.events)
            && S2.ArchOf(t) == After(bl, code, S2.ArchOf(s), log.events)
            && Shown2(bl, s, ins) == Entries(bl, code, S2.ArchOf(s), log.events)
  {
    hide S2.Inv, M2.Wellformed, S2.ArchOf, R2.Run, R2.LegalRun, R2.InFlight, After, Entries, Runnable;
    R2.RunAgrees(bl, code, s, ins);
  }

  // Both cores out of reset at the same address, with the same registers and memory.
  predicate StartTogether(s: S1.System, t: S2.System, resetPc: Addr) {
    && C1.AfterReset(s.core, resetPc) && C2.AfterReset(t.core, resetPc) && !t.env.iBusy && !t.env.dBusy
    && s.core.regs == t.core.regs && s.env.mem == t.env.mem
  }

  lemma SameStart(code: Code, s: S1.System, t: S2.System, resetPc: Addr)
    requires StartTogether(s, t, resetPc)
    ensures C1.CoreOk(s.core) && C2.CoreOk(t.core) && S1.Inv(code, s) && S2.Inv(code, t)
    ensures S1.ArchOf(s) == S2.ArchOf(t) && R1.InFlight(s) == [] && R2.InFlight(t) == []
  {
    hide S1.Inv, S2.Inv, S1.ArchOf, S2.ArchOf;
    P1.ResetInv(code, s, resetPc);
    P2.ResetInv(code, t, resetPc);
  }

  lemma Decodable(code: Code)
    requires P1.Wellformed(code)
    ensures M2.Wellformed(code)
  {
  }

  /** Out of reset the core that heard the beginning of what the other heard from outside shows the beginning
    * of what the other shows; if both heard the same, both show the same and are in the same state.
    */
  lemma CoresShowSame(bl: Blocks, code: Code, s: S1.System, t: S2.System, pins: seq<R1.Pins>, ins: seq<C2.Inputs>,
                      resetPc: Addr)
    requires StartTogether(s, t, resetPc) && P1.Wellformed(code)
    requires C1.CoreOk(s.core) && C2.CoreOk(t.core) && R2.LegalRun(bl, code, t, ins)
    ensures var hs, gs := Heard1(bl, code, s, pins), Heard2(bl, code, t, ins);
            var a, b := Shown1(bl, code, s, pins), Shown2(bl, t, ins);
            && (hs <= gs ==> a <= b) && (gs <= hs ==> b <= a)
            && (hs == gs ==>
                  a == b && S1.ArchOf(R1.Run(bl, code, s, pins).0) == S2.ArchOf(R2.Run(bl, t, ins).0))
  {
    hide StartTogether, S1.Inv, S2.Inv, P1.Wellformed, S1.ArchOf, S2.ArchOf, R1.Run, R2.Run, R2.LegalRun, R1.InFlight,
         R2.InFlight, After, Entries, Runnable, Heard, Shown1, Shown2;
    SameStart(code, s, t, resetPc);
    Decodable(code);
    Shows1(bl, code, s, pins);
    Shows2(bl, code, t, ins);
    var a, es, fs := S1.ArchOf(s), R1.Run(bl, code, s, pins).1.events, R2.Run(bl, t, ins).1.events;
    if Heard(bl, code, a, es) <= Heard(bl, code, a, fs) {
      SameHeard(bl, code, a, es, fs);
    }
    if Heard(bl, code, a, fs) <= Heard(bl, code, a, es) {
      SameHeard(bl, code, a, fs, es);
    }
  }
}
