/** Every bubble of Mig1 has its cause, through halts and resumes too: Mig1 makes the bubbles of a Mig2 whose
  * memories never wait and whose buffer never hits, but follows no return from ID.
  */
module Mig1Bubbles {
  import opened Isa
  import opened Parts
  import opened Csr
  import opened MulDiv
  import opened Mig1
  import opened Mig1System
  import opened Mig1Step
  import opened Mig1Runs
  import M2 = Mig2
  import S2 = Mig2System
  import B2 = Mig2Bubbles

  type Bubbles = B2.Bubbles

  function Held(c: Core): Bubbles {
    B2.Slot(c.slot.valid, c.slot.bubble) + B2.Slot(c.idEx.valid, c.idEx.bubble)
    + B2.Slot(c.exMem.valid, c.exMem.bubble)
  }

  function Shown(c: Core): Bubbles { B2.Slot(c.exMem.valid, c.exMem.bubble) }

  // A return leaves ID; nothing sends fetch elsewhere for it before EX.
  predicate LetsReturn(code: Code, s: System, i: Inputs)
    requires CoreOk(s.core)
  {
    IsReturn(code(s.core.slot.pc)) && B2.Moves(code, View(s), InputView(s, i))
  }

  function Makes(code: Code, s: System, i: Inputs): Bubbles
    requires CoreOk(s.core)
  {
    var all := B2.Makes(code, View(s), InputView(s, i));
    if LetsReturn(code, s, i) then all - multiset{BPredRet} else all
  }

  lemma ReturnIs(bl: Blocks, code: Code, s: System, i: Inputs)
    requires Clock(code, s, i)
    ensures CoreOk(s.core) && (ReturnMoves(bl, s.core, i) <==> LetsReturn(code, s, i))
  {
    hide S2.FetchInv, S2.SlotInv, MulDivInv, S2.MemInv, S2.HaltInv, S2.BubbleInv, S2.ExInv, Wellformed, IdMoves,
         M2.IdMoves, Decode, IsReturn, B2.Moves, M2.IdHazard, IdHazard, M2.IdTaken, IdTaken, M2.IdTarget,
         IdTarget;
    ViewClock(bl, code, s, i);
    IdSame(bl, code, s, i);
    B2.MovesIs(bl, code, View(s), InputView(s, i));
    HintsExact(i.insn);
    MovesSlot(bl, s.core, i);
    if LetsReturn(code, s, i) {
      MovesSlot(bl, s.core, i);
    }
  }

  lemma MovesSlot(bl: Blocks, c: Core, i: Inputs)
    ensures IdMoves(bl, c, i) ==> c.slot.valid && !FlushId(bl, c, i) && !ExStall(c) && !IdHazard(c, i)
  {
    hide ExStall, FlushId, IdHazard;
  }

  lemma ViewHeld(s: System)
    ensures B2.Held(CoreView(s)) == Held(s.core)
  {
  }

  lemma ViewShown(bl: Blocks, code: Code, s: System, i: Inputs)
    requires Clock(code, s, i)
    ensures B2.ShownBubbles(CoreView(s), InputView(s, i)) == Shown(s.core)
  {
    hide S2.Inv, Wellformed;
    ViewClock(bl, code, s, i);
  }

  // But for a return that leaves ID the slots after the clock are those of the view.
  lemma NextHeld(bl: Blocks, code: Code, s: System, i: Inputs)
    requires Clock(code, s, i) && CoreOk(s.core) && !ReturnMoves(bl, s.core, i)
    ensures Held(Next(bl, s.core, i)) == B2.Held(M2.Next(bl, CoreView(s), InputView(s, i)))
  {
    hide S2.FetchInv, S2.SlotInv, MulDivInv, S2.MemInv, S2.HaltInv, S2.BubbleInv, S2.ExInv, Wellformed, Next,
         M2.Next, NextEnv, S2.NextEnv, ReturnMoves;
    BackSame(bl, code, s, i);
    FetchSame(bl, code, s, i);
    IdExSame(bl, code, s, i);
    ViewHeld(NextSystem(bl, code, s, i));
  }

  // A return that leaves ID: fetch goes on, where the view turns to the stack.
  lemma ReturnHeld(bl: Blocks, code: Code, s: System, i: Inputs)
    requires Clock(code, s, i) && CoreOk(s.core) && ReturnMoves(bl, s.core, i)
    ensures B2.Held(M2.Next(bl, CoreView(s), InputView(s, i))) == Held(Next(bl, s.core, i)) + multiset{BPredRet}
    ensures BPredRet in B2.Makes(code, View(s), InputView(s, i))
  {
    hide S2.FetchInv, S2.SlotInv, MulDivInv, S2.MemInv, S2.HaltInv, S2.BubbleInv, S2.ExInv, Wellformed, Next,
         M2.Next, NextEnv, S2.NextEnv, Decode;
    BackSame(bl, code, s, i);
    IdExSame(bl, code, s, i);
    MineGoesOn(bl, code, s, i);
    TheirsTurns(bl, code, s, i);
    ViewClock(bl, code, s, i);
    MakesTurn(code, View(s), InputView(s, i));
    ViewHeld(NextSystem(bl, code, s, i));
  }

  lemma MineGoesOn(bl: Blocks, code: Code, s: System, i: Inputs)
    requires Clock(code, s, i) && CoreOk(s.core) && ReturnMoves(bl, s.core, i)
    ensures Next(bl, s.core, i).slot.valid
  {
    hide S2.FetchInv, S2.SlotInv, MulDivInv, S2.MemInv, S2.BubbleInv, S2.ExInv, Wellformed, IdMoves, Decode,
         ExRedirect, ExStall, IdHazard, NextCsr, NextMulDiv, NextRegs, ExMemD, NextIdEx, ExTarget, IdTarget,
         RedirectWhy, ExStop;
    MovesSlot(bl, s.core, i);
    ReturnNotTaken(bl, s.core, i);
  }

  lemma TheirsTurns(bl: Blocks, code: Code, s: System, i: Inputs)
    requires Clock(code, s, i) && CoreOk(s.core) && ReturnMoves(bl, s.core, i)
    ensures var f := M2.Next(bl, CoreView(s), InputView(s, i)).fetch.slot; !f.valid && f.bubble == BPredRet
    ensures B2.Turns(code, View(s), InputView(s, i)) && B2.TurnWhy(code, View(s)) == BPredRet
  {
    hide S2.FetchInv, S2.SlotInv, MulDivInv, S2.MemInv, S2.HaltInv, S2.BubbleInv, S2.ExInv, Wellformed, Decode,
         M2.NextIdEx, M2.ExMemD, NextCsr, NextMulDiv, M2.NextRegs, M2.NextControl, M2.FetchCtrlOf, B2.Moves,
         B2.Sends, B2.Stops, B2.Resumes, B2.Advances, B2.ReadsLoad, IsReturn, M2.MemWait, B2.Flushes;
    var v, j := View(s), InputView(s, i);
    ViewClock(bl, code, s, i);
    ReturnIs(bl, code, s, i);
    B2.MovesReady(code, v, j);
    B2.ReturnIsJalr(code(s.core.slot.pc));
    assert B2.Turns(code, v, j) && B2.TurnWhy(code, v) == BPredRet;
    B2.FetchIs(bl, code, v, j);
    B2.KeepIs(bl, code, v, j);
    TurnKeeps(code, v, j);
    TurnedSlot(v.core.fetch, M2.FetchCtrlOf(bl, v.core, j), j);
  }

  lemma TurnKeeps(code: Code, s: S2.System, i: M2.Inputs)
    requires M2.CoreOk(s.core) && B2.Turns(code, s, i)
    ensures !B2.Keeps(code, s, i)
  {
    hide B2.Ready, B2.Sends, B2.Stops, B2.Resumes, B2.Advances, B2.ReadsLoad, B2.HitFits, B2.Guessed;
  }

  lemma MakesTurn(code: Code, s: S2.System, i: M2.Inputs)
    requires M2.CoreOk(s.core) && B2.Turns(code, s, i)
    ensures B2.TurnWhy(code, s) in B2.Makes(code, s, i)
  {
    hide B2.Keeps, B2.Sends, B2.Stops, B2.Resumes, B2.Ready, B2.Advances, B2.ReadsLoad, B2.TurnWhy, B2.PortMakes,
         B2.ExMakes, B2.IdMakes, B2.HitFits, B2.Guessed;
    TurnKeeps(code, s, i);
  }

  lemma TurnedSlot(f: M2.FetchState, k: FetchCtrl, i: M2.Inputs)
    requires k.redirect && !M2.IdKeep(f, k, i)
    ensures !M2.NextFetch(f, k, i).slot.valid && M2.NextFetch(f, k, i).slot.bubble == k.why
  {
  }

  /** A clock of Mig1 shows or keeps exactly the bubbles there were and those its causes make. */
  lemma ClockBubbles(bl: Blocks, code: Code, s: System, i: Inputs)
    requires Clock(code, s, i) && CoreOk(s.core)
    ensures Shown(s.core) + Held(Next(bl, s.core, i)) == Held(s.core) + Makes(code, s, i)
  {
    hide Inv, Wellformed, Next, M2.Next, B2.Makes, B2.Held, Held, Shown, LetsReturn, ReturnMoves, B2.ShownBubbles;
    ViewClock(bl, code, s, i);
    B2.ClockBubbles(bl, code, View(s), InputView(s, i));
    ViewHeld(s);
    ViewShown(bl, code, s, i);
    ReturnIs(bl, code, s, i);
    if ReturnMoves(bl, s.core, i) {
      ReturnHeld(bl, code, s, i);
      OneLess(Shown(s.core), Held(Next(bl, s.core, i)), Held(s.core), B2.Makes(code, View(s), InputView(s, i)));
    } else {
      NextHeld(bl, code, s, i);
    }
  }

  lemma OneLess(shown: Bubbles, next: Bubbles, held: Bubbles, made: Bubbles)
    requires shown + (next + multiset{BPredRet}) == held + made && BPredRet in made
    ensures shown + next == held + (made - multiset{BPredRet})
  {
    forall b: Bubble
      ensures (shown + next)[b] == (held + (made - multiset{BPredRet}))[b]
    {
      assert (shown + (next + multiset{BPredRet}))[b] == (held + made)[b];
    }
  }

  // ---------- Runs ----------

  // The bubbles the causes of a run make.
  function Caused(bl: Blocks, code: Code, s: System, pins: seq<Pins>): Bubbles
    requires CoreOk(s.core)
  {
    if pins == [] then multiset{}
    else
      var pre := pins[..|pins| - 1];
      var t := Run(bl, code, s, pre).0;
      Caused(bl, code, s, pre) + Makes(code, t, InputOf(t, pins[|pins| - 1]))
  }

  /** The bubbles a run of Mig1 has shown and still holds are those it began with and those its causes made,
    * whatever traps, halts and resumes there were.
    */
  lemma {:induction false} RunBubbles(bl: Blocks, code: Code, s: System, pins: seq<Pins>)
    requires CoreOk(s.core) && Inv(code, s) && Wellformed(code)
    ensures var (t, log) := Run(bl, code, s, pins);
            && multiset(log.bubbles) + Held(t.core) == Held(s.core) + Caused(bl, code, s, pins)
            && |pins| == |log.retired| + |log.bubbles|
    decreases |pins|
  {
    hide Inv, Wellformed, Makes, Held, Next, NextEnv, EventOf, Seen, RetireEntry;
    if pins != [] {
      var pre := pins[..|pins| - 1];
      RunBubbles(bl, code, s, pre);
      RunAgrees(bl, code, s, pre);
      var (t, log) := Run(bl, code, s, pre);
      var i := InputOf(t, pins[|pins| - 1]);
      IsLegal(t, pins[|pins| - 1]);
      ClockBubbles(bl, code, t, i);
      B2.OneBubbleMore(log.bubbles, t.core.exMem.valid, t.core.exMem.bubble);
      B2.Carry(multiset(log.bubbles), Held(t.core), Held(s.core), Caused(bl, code, s, pre), Shown(t.core),
               Held(Next(bl, t.core, i)), Makes(code, t, i));
    }
  }

  lemma IsLegal(s: System, p: Pins)
    ensures Legal(s, InputOf(s, p))
  {
  }
}
