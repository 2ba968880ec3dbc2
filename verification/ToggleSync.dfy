/** The synchronizer between two clock domains: a request toggles a flip-flop of the source domain, the
  * destination samples it twice and turns every change back into a pulse of one clock.
  */
module ToggleSync {
  import opened Arith

  datatype State = State(toggle: bool, q1: bool, q2: bool, q3: bool)

  // A rising edge of one of the clocks, in any order, with what is on the inputs then.
  datatype Edge = Src(rst: bool, req: bool) | Dst(rst: bool)

  const RESET := State(false, false, false, false)

  function Step(s: State, e: Edge): State {
    match e
    case Src(rst, req) => s.(toggle := if rst then false else if req then !s.toggle else s.toggle)
    case Dst(rst) => if rst then s.(q1 := false, q2 := false, q3 := false)
                     else s.(q1 := s.toggle, q2 := s.q1, q3 := s.q2)
  }

  // The request of the destination domain, until its next edge.
  predicate DstReq(s: State) { s.q3 != s.q2 }

  /** Jtag2MemiSync: each flip-flop changes on the edges of its own clock only. */
  class Jtag2MemiSync {
    var srcToggle: bool
    var q1: bool
    var q2: bool
    var q3: bool

    function Value(): State
      reads this
    {
      State(srcToggle, q1, q2, q3)
    }

    constructor ()
      ensures Value() == RESET
    {
      srcToggle, q1, q2, q3 := false, false, false, false;
    }

    method SrcEdge(rst: bool, req: bool)
      modifies this`srcToggle
      ensures Value() == Step(old(Value()), Src(rst, req))
    {
      if rst {
        srcToggle := false;
      } else if req {
        srcToggle := !srcToggle;
      }
    }

    method DstEdge(rst: bool) returns (dstReq: bool)
      modifies this`q1, this`q2, this`q3
      ensures Value() == Step(old(Value()), Dst(rst)) && dstReq == DstReq(Value())
    {
      if rst {
        q1, q2, q3 := false, false, false;
      } else {
        q1, q2, q3 := srcToggle, q1, q2;
      }
      dstReq := q3 != q2;
    }
  }

  // ---------- Runs out of reset ----------

  predicate NoReset(es: seq<Edge>) { forall k :: 0 <= k < |es| ==> !es[k].rst }

  function Run(s: State, es: seq<Edge>): State {
    if es == [] then s else Step(Run(s, es[..|es| - 1]), es[|es| - 1])
  }

  // The request after every edge of the destination.
  function Requests(es: seq<Edge>): seq<bool> {
    if es == [] then []
    else
      var n := |es| - 1;
      Requests(es[..n]) + (if es[n].Dst? then [DstReq(Run(RESET, es))] else [])
  }

  // Source pulses since the last edge of the destination.
  function Since(es: seq<Edge>): nat {
    if es == [] then 0
    else
      var n := |es| - 1;
      if es[n].Dst? then 0 else Since(es[..n]) + Bit(es[n].req)
  }

  // Source pulses before each edge of the destination, since the one before it.
  function Arrived(es: seq<Edge>): seq<nat> {
    if es == [] then []
    else
      var n := |es| - 1;
      Arrived(es[..n]) + (if es[n].Dst? then [Since(es[..n])] else [])
  }

  function Pulses(es: seq<Edge>): nat {
    if es == [] then 0 else Pulses(es[..|es| - 1]) + Bit(es[|es| - 1].Src? && es[|es| - 1].req)
  }

  function Sum(ns: seq<nat>): nat { if ns == [] then 0 else Sum(ns[..|ns| - 1]) + ns[|ns| - 1] }

  function Trues(bs: seq<bool>): nat { if bs == [] then 0 else Trues(bs[..|bs| - 1]) + Bit(bs[|bs| - 1]) }

  predicate Odd(n: nat) { n % 2 == 1 }

  // The request n destination edges ago, counted back from the last.
  function Back(ns: seq<nat>, n: nat): nat { if n < |ns| then ns[|ns| - 1 - n] else 0 }

  // The flip-flops hold the parities of what arrived: q1 lags the source, q2 and q3 follow.
  lemma {:induction false} FlopsFollow(es: seq<Edge>)
    requires NoReset(es)
    ensures var s := Run(RESET, es);
            var ns := Arrived(es);
            && (s.toggle != s.q1 <==> Odd(Since(es)))
            && (s.q1 != s.q2 <==> Odd(Back(ns, 0)))
            && (s.q2 != s.q3 <==> Odd(Back(ns, 1)))
    decreases |es|
  {
    if es != [] {
      FlopsFollow(es[..|es| - 1]);
    }
  }

  /** A request is raised after a destination edge exactly when an odd number of pulses arrived at the
    * edge before it: one edge after they were sampled, for one clock.
    */
  lemma {:induction false} RequestExact(es: seq<Edge>)
    requires NoReset(es)
    ensures |Requests(es)| == |Arrived(es)|
    ensures forall k :: 0 <= k < |Requests(es)| ==>
              (Requests(es)[k] <==> k > 0 && Odd(Arrived(es)[k - 1]))
    decreases |es|
  {
    if es != [] {
      RequestExact(es[..|es| - 1]);
      FlopsFollow(es);
    }
  }

  /** With a destination edge between any two pulses every pulse comes out once, one destination edge
    * after it was sampled, and is never lost or doubled.
    */
  lemma DeliversOnce(es: seq<Edge>)
    requires NoReset(es) && forall k :: 0 <= k < |Arrived(es)| ==> Arrived(es)[k] <= 1
    ensures |Requests(es)| == |Arrived(es)|
    ensures forall k :: 0 <= k < |Requests(es)| ==>
              (Requests(es)[k] <==> k > 0 && Arrived(es)[k - 1] == 1)
  {
    RequestExact(es);
  }

  // Each pulse arrived at an edge, or waits for the next one.
  lemma {:induction false} PulsesArrive(es: seq<Edge>)
    requires NoReset(es)
    ensures Pulses(es) == Sum(Arrived(es)) + Since(es)
    decreases |es|
  {
    if es != [] {
      var n := |es| - 1;
      PulsesArrive(es[..n]);
      if es[n].Dst? {
        assert Arrived(es)[..|Arrived(es)| - 1] == Arrived(es[..n]);
      } else {
        assert Arrived(es) == Arrived(es[..n]);
      }
    }
  }

  lemma {:induction false} OddPulses(ns: seq<nat>, bs: seq<bool>)
    requires |ns| == |bs| && forall k :: 0 <= k < |ns| ==> (bs[k] <==> Odd(ns[k]))
    ensures Trues(bs) <= Sum(ns)
    ensures Trues(bs) == Sum(ns) <==> forall k :: 0 <= k < |ns| ==> ns[k] <= 1
    decreases |ns|
  {
    if ns != [] {
      var n := |ns| - 1;
      OddPulses(ns[..n], bs[..n]);
      if forall k :: 0 <= k < |ns| ==> ns[k] <= 1 {
        assert forall k :: 0 <= k < n ==> ns[..n][k] == ns[k];
      }
      if Trues(bs) == Sum(ns) {
        assert forall k :: 0 <= k < n ==> ns[..n][k] <= 1;
      }
    }
  }

  lemma {:induction false} Shifted(bs: seq<bool>)
    requires bs != [] && !bs[0]
    ensures Trues(bs) == Trues(bs[1..])
    decreases |bs|
  {
    if |bs| > 1 {
      var n := |bs| - 1;
      Shifted(bs[..n]);
      assert bs[..n][1..] == bs[1..][..n - 1];
    } else {
      assert bs[..0] == [];
    }
  }

  /** For every order of the edges: no pulse is doubled, and none is lost of those that had time to come
    * out, if and only if at most one arrived at each destination edge.
    */
  lemma NoneLost(es: seq<Edge>)
    requires NoReset(es) && Arrived(es) != []
    ensures var due := Arrived(es)[..|Arrived(es)| - 1];
            && Trues(Requests(es)) <= Sum(due)
            && (Trues(Requests(es)) == Sum(due) <==> forall k :: 0 <= k < |due| ==> due[k] <= 1)
            && Pulses(es) == Sum(due) + Back(Arrived(es), 0) + Since(es)
  {
    RequestExact(es);
    PulsesArrive(es);
    Shifted(Requests(es));
    OddPulses(Arrived(es)[..|Arrived(es)| - 1], Requests(es)[1..]);
  }

  // ---------- Reset ----------

  lemma RunStep(s: State, es: seq<Edge>, e: Edge)
    ensures Run(s, es + [e]) == Step(Run(s, es), e)
  {
    assert (es + [e])[..|es|] == es;
  }

  // One edge of each clock in reset clears everything, in either order, whatever was on the request input.
  lemma ResetClears(s: State, es: seq<Edge>, req: bool)
    ensures Run(s, es + [Src(true, req)] + [Dst(true)]) == State(false, false, false, false)
    ensures Run(s, es + [Dst(true)] + [Src(true, req)]) == State(false, false, false, false)
  {
    RunStep(s, es, Src(true, req));
    RunStep(s, es + [Src(true, req)], Dst(true));
    RunStep(s, es, Dst(true));
    RunStep(s, es + [Dst(true)], Src(true, req));
  }

  /** A reset of the destination alone forgets what it sampled, not the toggle: two edges later it shows a
    * request exactly when the source had toggled an odd number of times since its own reset.
    */
  lemma ResetAlone(s: State)
    ensures var a := Step(s, Dst(true));
            var b := Step(Step(a, Dst(false)), Dst(false));
            && !DstReq(a) && !DstReq(Step(a, Dst(false)))
            && (DstReq(b) <==> s.toggle) && !DstReq(Step(b, Dst(false)))
  {
  }

  // A reset of the source alone is a change like a pulse, if the toggle was set.
  lemma SourceReset(s: State, req: bool)
    ensures Step(s, Src(true, req)) == s.(toggle := false)
    ensures s.toggle ==> Step(s, Src(true, req)) == Step(s, Src(false, true))
  {
  }
}
