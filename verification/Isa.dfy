/** The Y86-64 instruction set: encodings, the ALU, condition codes and the one-instruction
    interpreter that the hardware models are compared with. */
module Isa {
  import opened Words
  import opened Memory

  const I_HALT: Nibble := 0
  const I_NOP: Nibble := 1
  const I_RRMOVQ: Nibble := 2
  const I_IRMOVQ: Nibble := 3
  const I_RMMOVQ: Nibble := 4
  const I_MRMOVQ: Nibble := 5
  const I_ALU: Nibble := 6
  const I_JMP: Nibble := 7
  const I_CALL: Nibble := 8
  const I_RET: Nibble := 9
  const I_PUSHQ: Nibble := 10
  const I_POPQ: Nibble := 11
  const I_IADDQ: Nibble := 12

  const A_ADD: Nibble := 0
  const A_SUB: Nibble := 1
  const A_AND: Nibble := 2
  const A_XOR: Nibble := 3

  const C_YES: Nibble := 0
  const C_LE: Nibble := 1
  const C_L: Nibble := 2
  const C_E: Nibble := 3
  const C_NE: Nibble := 4
  const C_GE: Nibble := 5
  const C_G: Nibble := 6

  datatype Stat = BUB | AOK | HLT | ADR | INS | PIP

  /** The three condition bits that the C code packs into one byte. */
  datatype CC = CC(zf: bool, sf: bool, of: bool)

  const DEFAULT_CC := CC(true, false, false)

  // ---------- ALU and conditions ----------

  function ComputeAlu(op: Nibble, argA: Word, argB: Word): Word {
    if op == A_ADD then Wrap(argA + argB)
    else if op == A_SUB then Wrap(argB - argA)
    else if op == A_AND then And(argA, argB)
    else if op == A_XOR then Xor(argA, argB)
    else 0
  }

  function ComputeCC(op: Nibble, argA: Word, argB: Word): CC {
    var val := ComputeAlu(op, argA, argB);
    var ovf :=
      if op == A_ADD then (argA < 0) == (argB < 0) && (val < 0) != (argA < 0)
      else if op == A_SUB then (argA > 0) == (argB < 0) && (val < 0) != (argB < 0)
      else false;
    CC(val == 0, val < 0, ovf)
  }

  predicate CondHolds(cc: CC, cond: Nibble) {
    if cond == C_YES then true
    else if cond == C_LE then (cc.sf != cc.of) || cc.zf
    else if cond == C_L then cc.sf != cc.of
    else if cond == C_E then cc.zf
    else if cond == C_NE then !cc.zf
    else if cond == C_GE then cc.sf == cc.of
    else if cond == C_G then cc.sf == cc.of && !cc.zf
    else false
  }

  predicate Representable(x: int) { -TWO_63 <= x < TWO_63 }

  /** The overflow flag is set exactly when the exact result does not fit in 64 bits, for every
      pair of operands, and the other two flags describe the wrapped result. */
  lemma OverflowExact(argA: Word, argB: Word)
    ensures ComputeCC(A_ADD, argA, argB).of <==> !Representable(argB + argA)
    ensures ComputeCC(A_SUB, argA, argB).of <==> !Representable(argB - argA)
    ensures ComputeCC(A_SUB, argA, argB).zf <==> argA == argB
    ensures Representable(argB + argA) ==> ComputeAlu(A_ADD, argA, argB) == argB + argA
    ensures Representable(argB - argA) ==> ComputeAlu(A_SUB, argA, argB) == argB - argA
  {
  }

  /** After `subq rA, rB` each condition is the mathematical signed comparison of rB with rA. */
  lemma ConditionsCompare(argA: Word, argB: Word)
    ensures var cc := ComputeCC(A_SUB, argA, argB);
            && (CondHolds(cc, C_LE) <==> argB <= argA)
            && (CondHolds(cc, C_L) <==> argB < argA)
            && (CondHolds(cc, C_E) <==> argB == argA)
            && (CondHolds(cc, C_NE) <==> argB != argA)
            && (CondHolds(cc, C_GE) <==> argB >= argA)
            && (CondHolds(cc, C_G) <==> argB > argA)
  {
    OverflowExact(argA, argB);
  }

  // ---------- one instruction ----------

  datatype State = State(pc: Word, r: RegFile, m: Mem, cc: CC)

  predicate NeedRegids(icode: Nibble) {
    icode == I_RRMOVQ || icode == I_ALU || icode == I_PUSHQ || icode == I_POPQ ||
    icode == I_IRMOVQ || icode == I_RMMOVQ || icode == I_MRMOVQ || icode == I_IADDQ
  }

  predicate NeedValC(icode: Nibble) {
    icode == I_IRMOVQ || icode == I_RMMOVQ || icode == I_MRMOVQ ||
    icode == I_JMP || icode == I_CALL || icode == I_IADDQ
  }

  /** What the interpreter has read before it dispatches: `ok1` and `okc` say whether the register
      byte and the immediate could be read, `next` is the fall-through address. */
  datatype Fetched = Fetched(icode: Nibble, ifun: Nibble, ok1: bool, hi1: Nibble, lo1: Nibble,
                             okc: bool, cval: Word, next: Word)

  function FetchAt(m: Mem, pc: Word): (f: Option<Fetched>)
    ensures f.Some? <==> 0 <= pc < |m|
  {
    match GetByte(m, pc)
    case None => None
    case Some(byte0) =>
      var icode := Hi4(byte0);
      var p1 := Wrap(pc + 1);
      var byte1 := GetByte(m, p1);
      var regs := NeedRegids(icode);
      var p2 := if regs then Wrap(p1 + 1) else p1;
      var word := GetWord(m, p2);
      var imm := NeedValC(icode);
      Some(Fetched(
             icode, Lo4(byte0),
             !regs || byte1.Some?,
             // an unreadable register byte leaves byte1 == 0
             if !regs then REG_NONE else if byte1.Some? then Hi4(byte1.value) else 0,
             if !regs then REG_NONE else if byte1.Some? then Lo4(byte1.value) else 0,
             !imm || word.Some?,
             if imm && word.Some? then word.value else 0,
             if imm then Wrap(p2 + 8) else p2))
  }

  /** The dispatch of `step_state`, error exits included. */
  function Execute(s: State, f: Fetched): (State, Stat) {
    if f.icode == I_NOP then (s.(pc := f.next), AOK)
    else if f.icode == I_HALT then (s, HLT)
    else if f.icode == I_RRMOVQ then
      if !f.ok1 then (s, ADR)
      else if !RegValid(f.hi1) || !RegValid(f.lo1) then (s, INS)
      else
        var val := GetReg(s.r, f.hi1);
        (s.(r := if CondHolds(s.cc, f.ifun) then SetReg(s.r, f.lo1, val) else s.r, pc := f.next), AOK)
    else if f.icode == I_IRMOVQ then
      if !f.ok1 then (s, ADR)
      else if !f.okc || !RegValid(f.lo1) then (s, INS)
      else (s.(r := SetReg(s.r, f.lo1, f.cval), pc := f.next), AOK)
    else if f.icode == I_RMMOVQ then
      if !f.ok1 then (s, ADR)
      else if !f.okc || !RegValid(f.hi1) then (s, INS)
      else
        var addr := if RegValid(f.lo1) then Wrap(f.cval + GetReg(s.r, f.lo1)) else f.cval;
        (match SetWord(s.m, addr, GetReg(s.r, f.hi1))
         case None => (s, ADR)
         case Some(m') => (s.(m := m', pc := f.next), AOK))
    else if f.icode == I_MRMOVQ then
      if !f.ok1 then (s, ADR)
      else if !f.okc || !RegValid(f.hi1) then (s, INS)
      else
        var addr := if RegValid(f.lo1) then Wrap(f.cval + GetReg(s.r, f.lo1)) else f.cval;
        (match GetWord(s.m, addr)
         case None => (s, ADR)
         case Some(val) => (s.(r := SetReg(s.r, f.hi1, val), pc := f.next), AOK))
    else if f.icode == I_ALU then
      if !f.ok1 then (s, ADR)
      else
        var argA, argB := GetReg(s.r, f.hi1), GetReg(s.r, f.lo1);
        (s.(r := SetReg(s.r, f.lo1, ComputeAlu(f.ifun, argA, argB)),
            cc := ComputeCC(f.ifun, argA, argB), pc := f.next), AOK)
    else if f.icode == I_JMP then
      if !f.ok1 || !f.okc then (s, ADR)
      else (s.(pc := if CondHolds(s.cc, f.ifun) then f.cval else f.next), AOK)
    else if f.icode == I_CALL then
      if !f.ok1 || !f.okc then (s, ADR)
      else
        var sp := Wrap(GetReg(s.r, REG_RSP) - 8);
        var s' := s.(r := SetReg(s.r, REG_RSP, sp));
        (match SetWord(s.m, sp, f.next)
         case None => (s', ADR)
         case Some(m') => (s'.(m := m', pc := f.cval), AOK))
    else if f.icode == I_RET then
      var sp := GetReg(s.r, REG_RSP);
      (match GetWord(s.m, sp)
       case None => (s, ADR)
       case Some(val) => (s.(r := SetReg(s.r, REG_RSP, Wrap(sp + 8)), pc := val), AOK))
    else if f.icode == I_PUSHQ then
      if !f.ok1 then (s, ADR)
      else if !RegValid(f.hi1) then (s, INS)
      else
        var val := GetReg(s.r, f.hi1);
        var sp := Wrap(GetReg(s.r, REG_RSP) - 8);
        var s' := s.(r := SetReg(s.r, REG_RSP, sp));
        (match SetWord(s.m, sp, val)
         case None => (s', ADR)
         case Some(m') => (s'.(m := m', pc := f.next), AOK))
    else if f.icode == I_POPQ then
      if !f.ok1 then (s, ADR)
      else if !RegValid(f.hi1) then (s, INS)
      else
        var sp := GetReg(s.r, REG_RSP);
        var s' := s.(r := SetReg(s.r, REG_RSP, Wrap(sp + 8)));
        (match GetWord(s.m, sp)
         case None => (s', ADR)
         case Some(val) => (s'.(r := SetReg(s'.r, f.hi1, val), pc := f.next), AOK))
    else if f.icode == I_IADDQ then
      if !f.ok1 then (s, ADR)
      else if !f.okc || !RegValid(f.lo1) then (s, INS)
      else
        var argB := GetReg(s.r, f.lo1);
        (s.(r := SetReg(s.r, f.lo1, Wrap(argB + f.cval)),
            cc := ComputeCC(A_ADD, f.cval, argB), pc := f.next), AOK)
    else (s, INS)
  }

  function Step(s: State): (State, Stat) {
    match FetchAt(s.m, s.pc)
    case None => (s, ADR)
    case Some(f) => Execute(s, f)
  }

  /** The operand bytes can be read and the registers the interpreter checks are real ones. */
  predicate WellFormed(s: State) {
    match FetchAt(s.m, s.pc)
    case None => false
    case Some(g) =>
      && g.ok1 && g.okc
      && (g.icode == I_RRMOVQ ==> RegValid(g.hi1) && RegValid(g.lo1))
      && (g.icode == I_IRMOVQ || g.icode == I_IADDQ ==> RegValid(g.lo1))
      && (g.icode == I_RMMOVQ || g.icode == I_MRMOVQ || g.icode == I_PUSHQ || g.icode == I_POPQ ==> RegValid(g.hi1))
  }

  lemma FetchDefaults(m: Mem, pc: Word)
    ensures match FetchAt(m, pc)
            case None => true
            case Some(g) => (!NeedRegids(g.icode) ==> g.ok1) && (!NeedValC(g.icode) ==> g.okc)
  {
  }

  // ---------- whole runs ----------

  /** Where a program starts once its image is loaded: pc 0, registers cleared. */
  function InitState(m: Mem): State { State(0, seq(128, _ => 0), m, DEFAULT_CC) }

  /** The states of a run, each instruction completing with status AOK. */
  ghost predicate IsTrace(run: seq<State>) {
    |run| > 0 && forall i :: 0 <= i < |run| - 1 ==> Step(run[i]) == (run[i + 1], AOK)
  }

  /** A run whose last state is about to execute `halt`. */
  ghost predicate HaltingTrace(run: seq<State>) {
    IsTrace(run) && Step(run[|run| - 1]).1 == HLT
  }

  lemma TraceStep(run: seq<State>, i: nat)
    requires IsTrace(run) && i + 1 < |run|
    ensures Step(run[i]) == (run[i + 1], AOK)
  {
  }

  lemma HaltKeepsState(s: State)
    requires Step(s).1 == HLT
    ensures Step(s).0 == s
  {
    hide FetchAt, GetReg, SetReg, GetWord, SetWord, ComputeAlu, ComputeCC, CondHolds;
  }

  /** Stepping until a status other than AOK, at most `limit` times. */
  function RunFor(s: State, limit: nat): (State, Stat)
    decreases limit
  {
    if limit == 0 then (s, AOK)
    else
      var (t, stat) := Step(s);
      if stat == AOK then RunFor(t, limit - 1) else (t, stat)
  }

  /** A limit that covers a run up to its halt or fault ends it as that instruction does. */
  lemma {:induction false} RunForEnds(run: seq<State>, i: nat, limit: nat)
    requires IsTrace(run) && Step(run[|run| - 1]).1 != AOK && i < |run| && |run| - i <= limit
    ensures RunFor(run[i], limit) == Step(run[|run| - 1])
    decreases |run| - i
  {
    hide Step;
    if i + 1 < |run| {
      TraceStep(run, i);
      RunForEnds(run, i + 1, limit - 1);
    }
  }
}
