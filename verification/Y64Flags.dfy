/** The overflow flag of `compute_cc` in y64sim.c, which compares with zero by `>`. */
module Y64Flags {
  import opened Words
  import opened Isa

  const MIN_WORD: Word := -0x8000_0000_0000_0000

  /** `ovf` of y64sim.c. */
  predicate Overflow(op: Nibble, argA: Word, argB: Word) {
    var val := ComputeAlu(op, argA, argB);
    || (op == A_ADD && (argA > 0) == (argB > 0) && (argA > 0) != (val > 0))
    || (op == A_SUB && (argB > 0) == (argA < 0) && (argB > 0) != (val > 0))
  }

  /** The flag shows whether the exact result is out of range, except for the two results it misses: the sum of
      the least word with itself, and zero minus the least word. */
  lemma OverflowExactIff(op: Nibble, argA: Word, argB: Word)
    requires op == A_ADD || op == A_SUB
    ensures (Overflow(op, argA, argB) <==> !Representable(if op == A_ADD then argA + argB else argB - argA)) <==>
            !(argA == MIN_WORD && argB == if op == A_ADD then MIN_WORD else 0)
  {
    OverflowExact(argA, argB);
  }

  /** Both versions of the flag agree in exactly the other cases. */
  lemma FlagsAgreeIff(op: Nibble, argA: Word, argB: Word)
    requires op == A_ADD || op == A_SUB
    ensures (Overflow(op, argA, argB) == ComputeCC(op, argA, argB).of) <==>
            !(argA == MIN_WORD && argB == if op == A_ADD then MIN_WORD else 0)
  {
    OverflowExactIff(op, argA, argB);
    OverflowExact(argA, argB);
  }
}
