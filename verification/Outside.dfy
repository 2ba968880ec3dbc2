/** What a run of the machine takes from outside, and that nothing else decides what it executes. */
module Outside {
  import opened Isa

  // A CSR instruction that names the cycle counter.
  predicate ReadsTime(i: Insn) {
    i.kind.KCsr? && (CsrAt(CsrAddrOf(i)) == Some(Cycle) || CsrAt(CsrAddrOf(i)) == Some(CycleH))
  }

  // The part of the context an instruction looks at, the rest blank.
  function Used(i: Insn, cx: Context): Context {
    Context(i.kind.KEbreak? && cx.ebreakHalt, if ReadsTime(i) then cx.cycle else Dword(0, 0))
  }

  lemma SameExecution(bl: Blocks, a: Arch, i: Insn, cx: Context)
    requires |a.regs| == 32
    ensures Execute(bl, a, i, cx) == Execute(bl, a, i, Used(i, cx))
  {
    hide LoadValue, StoreValue, Divide, Multiply, CsrNewValue, CsrAt, Misaligned, Target, Jumps, InPlace, AccessMask,
         OnlyBytes, CsrWrite, WriteReg;
  }

  // What one event takes from outside: an instruction, what it looks at; a debugger, its write and its
  // resume; waiting, nothing.
  function HeardNow(i: Insn, ev: Event): seq<Event> {
    match ev
    case Exec(cx) => [Exec(Used(i, cx))]
    case Debug(w, resume) => if w.None? && !resume then [] else [ev]
    case Stutter => []
  }

  function Heard(bl: Blocks, code: Code, a: Arch, evs: seq<Event>): seq<Event>
    requires |a.regs| == 32
  {
    if evs == [] then []
    else
      var pre := evs[..|evs| - 1];
      Heard(bl, code, a, pre) + HeardNow(code(After(bl, code, a, pre).pc), evs[|evs| - 1])
  }

  lemma HeardStep(bl: Blocks, code: Code, a: Arch, ev: Event)
    requires |a.regs| == 32 && Enabled(a, ev)
    ensures var hs := HeardNow(code(a.pc), ev);
            if hs == [] then Apply(bl, code, a, ev) == a && Executed(bl, code, a, ev) == []
            else
              && hs == [hs[0]] && Apply(bl, code, a, hs[0]) == Apply(bl, code, a, ev)
              && Executed(bl, code, a, hs[0]) == Executed(bl, code, a, ev) && Enabled(a, hs[0])
  {
    hide Execute, Used;
    if ev.Exec? {
      SameExecution(bl, a, code(a.pc), ev.cx);
    }
  }

  /** The machine and its entries are those of what it heard. */
  lemma {:induction false} HeardDecides(bl: Blocks, code: Code, a: Arch, evs: seq<Event>)
    requires |a.regs| == 32 && Runnable(bl, code, a, evs)
    ensures var hs := Heard(bl, code, a, evs);
            && Runnable(bl, code, a, hs) && After(bl, code, a, hs) == After(bl, code, a, evs)
            && Entries(bl, code, a, hs) == Entries(bl, code, a, evs)
    decreases |evs|
  {
    hide Apply, Executed, Enabled, HeardNow;
    if evs != [] {
      var pre, ev := evs[..|evs| - 1], evs[|evs| - 1];
      HeardDecides(bl, code, a, pre);
      var b, hs := After(bl, code, a, pre), Heard(bl, code, a, pre);
      HeardStep(bl, code, b, ev);
      var now := HeardNow(code(b.pc), ev);
      if now == [] {
        assert hs + now == hs;
      } else {
        Unfold(bl, code, a, hs, now[0]);
      }
    }
  }

  // The machine that heard more has executed more.
  lemma {:induction false} LongerRun(bl: Blocks, code: Code, a: Arch, hs: seq<Event>, gs: seq<Event>)
    requires |a.regs| == 32 && hs <= gs
    ensures Entries(bl, code, a, hs) <= Entries(bl, code, a, gs)
    decreases |gs|
  {
    hide Executed, After;
    if |hs| < |gs| {
      LongerRun(bl, code, a, hs, gs[..|gs| - 1]);
    } else {
      assert hs == gs;
    }
  }

  /** Of two runs from the same state, one having heard the beginning of what the other heard, it has
    * executed the beginning of what the other has; and if both heard the same, they are in the same state.
    */
  lemma SameHeard(bl: Blocks, code: Code, a: Arch, evs: seq<Event>, fvs: seq<Event>)
    requires |a.regs| == 32 && Runnable(bl, code, a, evs) && Runnable(bl, code, a, fvs)
    requires Heard(bl, code, a, evs) <= Heard(bl, code, a, fvs)
    ensures Entries(bl, code, a, evs) <= Entries(bl, code, a, fvs)
    ensures Heard(bl, code, a, evs) == Heard(bl, code, a, fvs) ==>
              && Entries(bl, code, a, evs) == Entries(bl, code, a, fvs)
              && After(bl, code, a, evs) == After(bl, code, a, fvs)
  {
    hide After, Entries, Heard, Runnable;
    HeardDecides(bl, code, a, evs);
    HeardDecides(bl, code, a, fvs);
    LongerRun(bl, code, a, Heard(bl, code, a, evs), Heard(bl, code, a, fvs));
  }
}
