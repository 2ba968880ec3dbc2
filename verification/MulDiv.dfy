/** Mig1MulDiv and Mig2MulDiv: the multiplier and the divider in EX, and the handshake that keeps a
  * divide in EX until its result is there. Mig2 starts early (early) and keeps a finished result
  * while EX waits for another reason (hold).
  */
module MulDiv {
  import opened Isa
  import opened Parts
  import opened Divider

  datatype MulDivState = MulDivState(ready: bool, div: Int32Div)

  const RESET_MULDIV := MulDivState(false, IDLE)

  predicate IsDiv(valid: bool, d: Decoded) { valid && d.muldiv.en && d.muldiv.div }

  predicate Starts(s: MulDivState, valid: bool, d: Decoded) {
    IsDiv(valid, d) && !s.div.busy && !s.ready
  }

  // The division of the instruction in EX is not done yet.
  predicate Stalls(s: MulDivState, valid: bool, d: Decoded) { IsDiv(valid, d) && !s.ready }

  function MulDivResult(bl: Blocks, s: MulDivState, d: Decoded, rs1: Word, rs2: Word): Word {
    if !d.muldiv.div then
      var product := bl.mul(d.muldiv.aSigned, d.muldiv.bSigned, rs1, rs2);
      if d.muldiv.mulLo then product.lo else product.hi
    else Result(s.div, d.muldiv.rem, rs1)
  }

  function NextMulDiv(s: MulDivState, early: bool, hold: bool, valid: bool, d: Decoded, rs1: Word,
                      rs2: Word): (r: MulDivState)
    requires DivInv(s.div)
    ensures DivInv(r.div)
  {
    MulDivState(Done(s.div) || (s.ready && hold),
                Tick(s.div, early, Starts(s, valid, d), rs1, rs2, d.muldiv.divSigned))
  }

  /** A division in the unit is that of the divide in EX, with the operands EX holds: it runs, or
    * its result is ready. Without a divide in EX the unit rests.
    */
  predicate MulDivInv(s: MulDivState, valid: bool, d: Decoded, rs1: Word, rs2: Word) {
    && DivInv(s.div)
    && (s.div.busy || s.ready ==>
          IsDiv(valid, d) && s.div.dividend == rs1 && s.div.divisor == rs2
          && s.div.signed == d.muldiv.divSigned)
    && !(s.div.busy && s.ready)
  }

  // While the divide stays in EX the unit keeps its invariant.
  lemma HeldKeeps(s: MulDivState, early: bool, hold: bool, valid: bool, d: Decoded, rs1: Word, rs2: Word)
    requires MulDivInv(s, valid, d, rs1, rs2) && (s.ready ==> hold)
    ensures MulDivInv(NextMulDiv(s, early, hold, valid, d, rs1, rs2), valid, d, rs1, rs2)
  {
  }

  // When EX moves on, the unit is free: whatever comes into EX next finds it at rest.
  lemma MovedKeeps(s: MulDivState, early: bool, valid: bool, d: Decoded, rs1: Word, rs2: Word,
                   valid': bool, d': Decoded, rs1': Word, rs2': Word)
    requires MulDivInv(s, valid, d, rs1, rs2) && !Stalls(s, valid, d)
    ensures MulDivInv(NextMulDiv(s, early, false, valid, d, rs1, rs2), valid', d', rs1', rs2')
  {
  }

  // A result that EX takes is the machine's.
  lemma MulDivExact(bl: Blocks, s: MulDivState, i: Insn, rs1: Word, rs2: Word)
    requires i.kind.KMulDiv? && MulDivInv(s, true, Decode(i), rs1, rs2) && !Stalls(s, true, Decode(i))
    ensures MulDivResult(bl, s, Decode(i), rs1, rs2)
            == if IsDivide(i.funct3) then Divide(i.funct3, rs1, rs2) else Multiply(bl, i.funct3, rs1, rs2)
  {
    if IsDivide(i.funct3) {
      ResultExact(s.div, i.funct3);
    }
  }

  lemma DivControls(i: Insn)
    ensures IsDivInsn(i) <==> IsDiv(true, Decode(i))
  {
  }
}
