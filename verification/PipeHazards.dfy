/** Where the pipeline departs from the instruction set, and exactly when: the cases the side
    conditions of `PipeProof.PipeRun` exclude. */
module PipeHazards {
  import opened Words
  import opened Memory
  import opened Isa
  import opened Pipe
  import opened PipeIdeal
  import opened PipeProof

  /** A load into the base register of the `rmmovq` behind it causes no stall, and the store's address is
      computed from the register's value before the load: it is right exactly when the load does not
      change the register. */
  lemma LoadThenStoreBase(d: IfId, e: IdEx, reg: RegFile, m': ExMem, m: ExMem, w': MemWb, w: MemWb, loaded: Word)
    requires d.icode == I_RMMOVQ && RegValid(d.rb)
    requires (e.icode == I_MRMOVQ || e.icode == I_POPQ) && e.dstM == m'.dstM == d.rb
    ensures var e' := DecodeStage(d, reg, m', m, w', w);
            var r := Drained(reg, m', m, w', w);
            && !LoadUse(d, e, e')
            && e'.valB == GetReg(r, d.rb)
            && (e'.valB == GetReg(SetReg(r, m'.dstM, loaded), d.rb) <==> loaded == GetReg(r, d.rb))
  {
    ForwardExact(d.rb, reg, m', m, w', w);
    RegReadWrite(Drained(reg, m', m, w', w), m'.dstM, loaded, d.rb);
    hide GetReg, SetReg, Drained;
  }

  /** Popping the register that the next `rmmovq` stores: decode takes the old value without a stall, and
      execute, which repairs the store data behind an `mrmovq` only, passes it on. */
  lemma PopThenStore(d: IfId, e: IdEx, reg: RegFile, m': ExMem, m: ExMem, w': MemWb, w: MemWb,
                     nextW: MemWb, cc: CC, loaded: Word)
    requires d.icode == I_RMMOVQ && RegValid(d.ra)
    requires e.icode == m'.icode == I_POPQ && e.dstM == m'.dstM == d.ra
    ensures var e' := DecodeStage(d, reg, m', m, w', w);
            var r := Drained(reg, m', m, w', w);
            && !LoadUse(d, e, e')
            && ExStage(e', m', nextW, cc).valA == GetReg(r, d.ra)
            && (ExStage(e', m', nextW, cc).valA == GetReg(SetReg(r, m'.dstM, loaded), d.ra) <==>
                loaded == GetReg(r, d.ra))
  {
    ForwardExact(d.ra, reg, m', m, w', w);
    RegReadWrite(Drained(reg, m', m, w', w), m'.dstM, loaded, d.ra);
    hide GetReg, SetReg, Drained, ComputeAlu, CondHolds;
  }

  /** Behind an `mrmovq` the same pair is repaired: execute takes the loaded value. */
  lemma LoadThenStoreData(d: IfId, reg: RegFile, m': ExMem, m: ExMem, w': MemWb, w: MemWb, nextW: MemWb, cc: CC)
    requires d.icode == I_RMMOVQ && m'.icode == I_MRMOVQ && m'.dstM == d.ra
    ensures ExStage(DecodeStage(d, reg, m', m, w', w), m', nextW, cc).valA == nextW.valM
  {
    hide GetReg, ComputeAlu, CondHolds, Forward;
  }

  /** The pending writes in the order the forwarding network compares them, youngest first. */
  function Writes(m': ExMem, m: ExMem, w': MemWb, w: MemWb): seq<(Nibble, Word)> {
    [(m'.dstE, m'.valE), (m.dstM, w'.valM), (m.dstE, m.valE), (w.dstM, w.valM), (w.dstE, w.valE)]
  }

  ghost predicate FirstEmpty(writes: seq<(Nibble, Word)>, i: int) {
    0 <= i < |writes| && writes[i].0 == REG_NONE && forall k :: 0 <= k < i ==> writes[k].0 != REG_NONE
  }

  /** The first write without a destination, if there is one, carries 0. */
  ghost predicate FirstEmptyIsZero(writes: seq<(Nibble, Word)>) {
    forall i :: FirstEmpty(writes, i) ==> writes[i].1 == 0
  }

  /** "No register" matches a pending write that has none. For any stage contents an operand that names no
      register, base register or ALU operand, is the 0 the instruction set reads exactly when the first
      pending write without a destination carries 0, and a memory access without a base register goes to the
      address it names exactly then. */
  lemma NoBaseForwarded(d: IfId, reg: RegFile, m': ExMem, m: ExMem, w': MemWb, w: MemWb, nextW: MemWb, cc: CC)
    requires UsesNone(d)
    ensures var e' := DecodeStage(d, reg, m', m, w', w);
            var right := FirstEmptyIsZero(Writes(m', m, w', w));
            && (UsesA(d.icode) && d.icode != I_CALL && d.icode != I_JMP && e'.srcA == REG_NONE ==>
                  (e'.valA == 0 <==> right))
            && (UsesB(d.icode) && e'.srcB == REG_NONE ==> (e'.valB == 0 <==> right))
            && ((d.icode == I_RMMOVQ || d.icode == I_MRMOVQ) && d.rb == REG_NONE ==>
                  (ExStage(e', m', nextW, cc).valE == d.valC <==> right))
  {
    hide GetReg, ComputeAlu, CondHolds, FirstEmptyIsZero;
    Seq.NoRegisterReadsZero(reg);
    ForwardsFirstEmpty(m', m, w', w);
    var e' := DecodeStage(d, reg, m', m, w', w);
    AddsNothing(d.valC, e'.valB);
  }

  lemma ForwardsFirstEmpty(m': ExMem, m: ExMem, w': MemWb, w: MemWb)
    ensures Forward(REG_NONE, 0, m', m, w', w) == 0 <==> FirstEmptyIsZero(Writes(m', m, w', w))
  {
    var ws := Writes(m', m, w', w);
    var before2 := m'.dstE != REG_NONE && m.dstM != REG_NONE;
    var before3 := before2 && m.dstE != REG_NONE;
    assert FirstEmpty(ws, 0) <==> m'.dstE == REG_NONE;
    assert FirstEmpty(ws, 1) <==> m'.dstE != REG_NONE && m.dstM == REG_NONE;
    assert FirstEmpty(ws, 2) <==> before2 && m.dstE == REG_NONE;
    assert FirstEmpty(ws, 3) <==> before3 && w.dstM == REG_NONE;
    assert FirstEmpty(ws, 4) <==> before3 && w.dstM != REG_NONE && w.dstE == REG_NONE;
  }

  lemma AddsNothing(x: Word, y: Word)
    ensures ComputeAlu(A_ADD, x, y) == x <==> y == 0
  {
  }

  /** The pipeline reports an address error exactly when the byte at pc or the one at pc + 5 is missing, so
      a short instruction at the very end of memory faults where the instruction set executes it. */
  lemma FetchWindow(m: Mem, pc: Word)
    requires |m| <= 0x7FFF_FFFF
    ensures FetchStage(m, pc).stat == ADR <==> !(0 <= pc && pc + 5 < |m|)
    ensures FetchAt(m, pc).None? <==> !(0 <= pc < |m|)
  {
    assert 0 <= pc < |m| ==> Wrap(pc + 5) == pc + 5;
    hide GetWord, Wrap;
  }
}
