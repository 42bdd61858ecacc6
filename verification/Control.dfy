/** The control logic that `seq-full.c` and `pipe-full.c` state in the same words: one function of
    the instruction fields per signal. Signals that differ between the two are in `Seq` and `Pipe`. */
module Control {
  import opened Words
  import opened Memory
  import opened Isa

  predicate InstrValid(icode: Nibble) {
    icode == I_NOP || icode == I_HALT || icode == I_RRMOVQ || icode == I_IRMOVQ ||
    icode == I_RMMOVQ || icode == I_MRMOVQ || icode == I_ALU || icode == I_JMP ||
    icode == I_CALL || icode == I_RET || icode == I_PUSHQ || icode == I_POPQ || icode == I_IADDQ
  }

  function SrcA(icode: Nibble, ra: Nibble): Nibble {
    if icode == I_RRMOVQ || icode == I_RMMOVQ || icode == I_ALU || icode == I_PUSHQ then ra
    else if icode == I_POPQ || icode == I_RET then REG_RSP
    else REG_NONE
  }

  function SrcB(icode: Nibble, rb: Nibble): Nibble {
    if icode == I_ALU || icode == I_RMMOVQ || icode == I_MRMOVQ || icode == I_IADDQ then rb
    else if icode == I_PUSHQ || icode == I_POPQ || icode == I_CALL || icode == I_RET then REG_RSP
    else REG_NONE
  }

  function DstM(icode: Nibble, ra: Nibble): Nibble {
    if icode == I_MRMOVQ || icode == I_POPQ then ra else REG_NONE
  }

  function AluA(icode: Nibble, valA: Word, valC: Word): Word {
    if icode == I_RRMOVQ || icode == I_ALU then valA
    else if icode == I_IRMOVQ || icode == I_RMMOVQ || icode == I_MRMOVQ || icode == I_IADDQ then valC
    else if icode == I_CALL || icode == I_PUSHQ then -8
    else if icode == I_RET || icode == I_POPQ then 8
    else 0
  }

  function AluB(icode: Nibble, valB: Word): Word {
    if icode == I_RMMOVQ || icode == I_MRMOVQ || icode == I_ALU || icode == I_CALL ||
       icode == I_PUSHQ || icode == I_RET || icode == I_POPQ || icode == I_IADDQ then valB
    else 0
  }

  function AluFun(icode: Nibble, ifun: Nibble): Nibble {
    if icode == I_ALU || icode == I_IADDQ then ifun else A_ADD
  }

  predicate SetsCC(icode: Nibble) { icode == I_ALU || icode == I_IADDQ }

  predicate MemRead(icode: Nibble) { icode == I_MRMOVQ || icode == I_POPQ || icode == I_RET }

  predicate MemWrite(icode: Nibble) { icode == I_RMMOVQ || icode == I_PUSHQ || icode == I_CALL }

  function MemAddr(icode: Nibble, valE: Word, valA: Word): Word {
    if icode == I_RMMOVQ || icode == I_PUSHQ || icode == I_CALL || icode == I_MRMOVQ then valE
    else if icode == I_POPQ || icode == I_RET then valA
    else 0
  }

  /** Both machines take the ALU function of `iaddq` from the instruction's function field, where the
      instruction set always adds. They agree on all operands exactly when that field is 0. */
  lemma IaddqFunction(ifun: Nibble)
    ensures (forall valC: Word, valB: Word ::
               ComputeAlu(AluFun(I_IADDQ, ifun), valC, valB) == Wrap(valB + valC)) <==> ifun == 0
  {
    if ifun != 0 {
      IaddqOneOne(ifun);
      assert ComputeAlu(AluFun(I_IADDQ, ifun), 1, 1) != Wrap(1 + 1);
    }
  }

  /** The operands 1 and 1 tell every other function apart from addition. */
  lemma IaddqOneOne(ifun: Nibble)
    requires ifun != 0
    ensures ComputeAlu(ifun, 1, 1) != 2
  {
    ZeroBits(63);
    assert BitAnd(1, 1, 64) == 1 + 2 * BitAnd(0, 0, 63);
    assert BitXor(1, 1, 64) == 0 + 2 * BitXor(0, 0, 63);
  }

  lemma {:induction false} ZeroBits(n: nat)
    ensures BitAnd(0, 0, n) == 0 && BitXor(0, 0, n) == 0
  {
    if n > 0 {
      ZeroBits(n - 1);
    }
  }
}
