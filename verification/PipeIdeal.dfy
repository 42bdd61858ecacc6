/** What each pipe register holds for one instruction executed on its own from state `s`, and the fact
    that those contents, written back, are one step of the instruction set. */
module PipeIdeal {
  import opened Words
  import opened Memory
  import opened Isa
  import opened Control
  import opened Pipe
  import Seq

  function IdealD(s: State): IfId { FetchStage(s.m, s.pc) }

  function IdealE(s: State): IdEx {
    var d := IdealD(s);
    var srcA, srcB := SrcA(d.icode, d.ra), SrcB(d.icode, d.rb);
    IdEx(d.icode, d.ifun, d.valC,
         if d.icode == I_CALL || d.icode == I_JMP then d.valP else GetReg(s.r, srcA), GetReg(s.r, srcB),
         srcA, srcB, GenDstE(d.icode, d.rb), DstM(d.icode, d.ra), d.stat, d.stagePc)
  }

  function IdealM(s: State): ExMem {
    var e := IdealE(s);
    var take := CondHolds(s.cc, e.ifun);
    ExMem(e.icode, e.ifun, take,
          ComputeAlu(AluFun(e.icode, e.ifun), AluA(e.icode, e.valA, e.valC), AluB(e.icode, e.valB)),
          e.valA, GenEDstE(e, take), e.dstM, e.srcA, e.stat, e.stagePc)
  }

  function IdealW(s: State): MemWb { MemStage(IdealM(s), s.m) }

  function WriteBack(r: RegFile, w: MemWb): RegFile {
    SetReg(SetReg(r, w.dstE, w.valE), w.dstM, w.valM)
  }

  function Store(mem: Mem, m: ExMem): Mem {
    if MemWrite(m.icode) then
      match SetWord(mem, MemAddr(m.icode, m.valE, m.valA), m.valA) case Some(m') => m' case None => mem
    else mem
  }

  function NextPc(m: ExMem, d: IfId, w: MemWb): Word {
    if d.icode == I_CALL || (d.icode == I_JMP && m.takeBranch) then d.valC
    else if d.icode == I_RET then w.valM
    else d.valP
  }

  /** The state the ideal contents lead to. */
  function After(s: State): State {
    State(NextPc(IdealM(s), IdealD(s), IdealW(s)), WriteBack(s.r, IdealW(s)), Store(s.m, IdealM(s)),
          if SetsCC(IdealE(s).icode) then ExCC(IdealE(s)) else s.cc)
  }

  // ---------- agreement with the single-cycle machine and the instruction set ----------

  /** The pipeline fetches what the single-cycle machine fetches when the byte at pc + 5 exists.
      (`mem->len` is a C `int`.) */
  predicate Fetchable(s: State) { 0 <= s.pc && s.pc + 5 < |s.m| <= 0x7FFF_FFFF }

  lemma FetchIsSeqFetch(s: State)
    requires Fetchable(s)
    ensures var d, f := IdealD(s), Seq.FetchStage(s.m, s.pc);
            && !f.imemError && d.icode == f.icode && d.ifun == f.ifun && d.ra == f.ra && d.rb == f.rb
            && d.valC == f.valC && d.valP == f.valP && d.stat == GenFStat(false, d.icode)
  {
    assert Wrap(s.pc + 5) == s.pc + 5;
    hide Wrap, GetWord;
  }

  lemma IdealIsSeq(s: State)
    requires Fetchable(s)
    ensures After(s) == Seq.UpdateState(s, Seq.Compute(s, 0).0)
    ensures IdealW(s).stat == Seq.Compute(s, 0).1
  {
    FetchIsSeqFetch(s);
    hide FetchStage, Seq.FetchStage, ComputeAlu, ComputeCC, GetReg, SetWord, GetWord, CondHolds;
    SetNone(s.r, IdealW(s).valE);
    SetNone(SetReg(s.r, IdealW(s).dstE, IdealW(s).valE), IdealW(s).valM);
  }

  lemma SetNone(r: RegFile, v: Word)
    ensures SetReg(r, REG_NONE, v) == r
  {
  }

  /** What the pipeline asks of an instruction that completes: the byte five places after its first one
      exists, and `iaddq` has function field 0. */
  predicate PipeOk(s: State) { Fetchable(s) && Seq.IaddqAdds(s) }

  /** A load names a real register. */
  predicate LoadOk(d: IfId) { d.icode == I_MRMOVQ || d.icode == I_POPQ ==> RegValid(d.ra) }

  predicate UsesA(icode: Nibble) {
    icode == I_RRMOVQ || icode == I_RMMOVQ || icode == I_ALU || icode == I_PUSHQ || icode == I_POPQ ||
    icode == I_RET || icode == I_CALL || icode == I_JMP
  }

  predicate UsesB(icode: Nibble) {
    icode == I_ALU || icode == I_RMMOVQ || icode == I_MRMOVQ || icode == I_IADDQ || icode == I_PUSHQ ||
    icode == I_POPQ || icode == I_CALL || icode == I_RET
  }

  /** The instruction reads "no register": an access without a base register, an ALU operand field of 15. */
  predicate UsesNone(d: IfId) {
    || (UsesA(d.icode) && d.icode != I_CALL && d.icode != I_JMP && SrcA(d.icode, d.ra) == REG_NONE)
    || (UsesB(d.icode) && SrcB(d.icode, d.rb) == REG_NONE)
  }

  lemma LoadOkIfCompletes(s: State)
    requires PipeOk(s) && Step(s).1 == AOK
    ensures LoadOk(IdealD(s))
  {
    FetchIsSeqFetch(s);
    Seq.FetchAgrees(s.m, s.pc);
    hide FetchStage, Seq.FetchStage, FetchAt;
  }

  /** One completed instruction: its ideal contents carry status AOK and lead to the next state. */
  lemma IdealMatchesIsa(s: State)
    requires PipeOk(s) && Step(s).1 == AOK
    ensures After(s) == Step(s).0
    ensures IdealD(s).stat == AOK && IdealW(s).stat == AOK
    ensures IdealD(s).icode != I_HALT
    ensures LoadOk(IdealD(s))
  {
    IdealIsSeq(s);
    Seq.ComputeMatchesIsa(s, 0);
    LoadOkIfCompletes(s);
    hide After, Seq.UpdateState, Seq.Compute, Step, FetchStage;
  }

  /** The halting instruction: icode HALT, status HLT in every stage, no effect. */
  lemma IdealHalt(s: State)
    requires Fetchable(s) && Step(s).1 == HLT
    ensures IdealD(s).icode == I_HALT && IdealD(s).stat == HLT && IdealW(s).stat == HLT
  {
    FetchIsSeqFetch(s);
    Seq.FetchAgrees(s.m, s.pc);
    HaltOnlyOnHalt(s);
    hide FetchStage, Seq.FetchStage, FetchAt, Step;
  }

  lemma HaltOnlyOnHalt(s: State)
    requires Step(s).1 == HLT
    ensures FetchAt(s.m, s.pc).Some? && FetchAt(s.m, s.pc).value.icode == I_HALT
  {
    hide FetchAt, GetReg, SetReg, GetWord, SetWord, ComputeAlu, ComputeCC, CondHolds;
  }

  /** A well-formed instruction ends with the interpreter's status: completed, halted, address error or
      invalid instruction. The interpreter rejects every other one; the pipeline, which gives missing
      operands default values, completes it unless its memory access fails. */
  lemma StatusExact(s: State)
    requires PipeOk(s)
    ensures WellFormed(s) ==> IdealW(s).stat == Step(s).1
    ensures !WellFormed(s) ==> Step(s).1 == INS || Step(s).1 == ADR
    ensures !WellFormed(s) ==> IdealW(s).stat == if AccessFails(s.m, IdealM(s)) then ADR else AOK
  {
    hide IdealD, IdealW, IdealM, After, Seq.UpdateState, AccessFails, Seq.Compute, Step, WellFormed, PipeOk;
    PipeOkParts(s);
    AccessStatus(s);
    if !WellFormed(s) {
      IllFormedFetch(s);
    }
    IdealIsSeq(s);
    Seq.StatusExact(s, 0);
  }

  lemma PipeOkParts(s: State)
    requires PipeOk(s)
    ensures Fetchable(s) && FetchAt(s.m, s.pc).Some?
  {
  }

  predicate AccessFails(mem: Mem, m: ExMem) {
    (MemRead(m.icode) || MemWrite(m.icode)) && GetWord(mem, MemAddr(m.icode, m.valE, m.valA)).None?
  }

  lemma AccessStatus(s: State)
    ensures IdealW(s).stat == if AccessFails(s.m, IdealM(s)) then ADR else IdealD(s).stat
  {
    hide GetWord, GetReg, ComputeAlu, CondHolds, FetchStage;
  }

  /** An ill-formed instruction has a valid code that is not `halt`. */
  lemma IllFormedFetch(s: State)
    requires Fetchable(s) && !WellFormed(s)
    ensures IdealD(s).stat == AOK
  {
    FetchIsSeqFetch(s);
    Seq.FetchAgrees(s.m, s.pc);
    FetchDefaults(s.m, s.pc);
    hide FetchStage, Seq.FetchStage, FetchAt;
  }

  /** The status an instruction ends with is its fetch status, unless its memory access fails. */
  lemma IdealStatus(s: State)
    ensures IdealD(s).stat == AOK || Bad(IdealD(s).stat)
    ensures IdealW(s).stat == IdealD(s).stat || (IdealD(s).stat == AOK && IdealW(s).stat == ADR)
    ensures IdealD(s).stat == HLT <==> IdealW(s).stat == HLT
    ensures IdealD(s).icode == I_HALT <==> IdealD(s).stat == HLT
    ensures Bad(IdealW(s).stat) ==> !SetsCC(IdealD(s).icode) && IdealD(s).icode != I_JMP
    ensures Bad(IdealW(s).stat) ==> Store(s.m, IdealM(s)) == s.m
  {
    hide GetWord, SetWord, GetReg, ComputeAlu, CondHolds, Wrap, GetByte;
    StoreFails(s.m, IdealM(s));
  }

  /** A store that fails changes nothing. */
  lemma StoreFails(mem: Mem, m: ExMem)
    ensures MemWrite(m.icode) && GetWord(mem, MemAddr(m.icode, m.valE, m.valA)).None? ==> Store(mem, m) == mem
  {
    GetAfterSet(mem, MemAddr(m.icode, m.valE, m.valA), m.valA);
    hide GetWord, SetWord;
  }
}
