/** The side conditions of the pipeline theorem can be met, by a program that halts (`nop; halt`) and by one
    that never does (`jmp 0`). */
module PipeExample {
  import opened Words
  import opened Memory
  import opened Isa
  import opened Pipe
  import opened PipeIdeal
  import opened PipeProof

  function Image(): Mem { [0x10] + seq(31, _ => 0) }

  function Run(): seq<State> {
    var s := InitState(Image());
    [s, State(1, s.r, s.m, s.cc)]
  }

  lemma Fetches()
    ensures FetchAt(Image(), 0).Some? && FetchAt(Image(), 0).value.icode == I_NOP && FetchAt(Image(), 0).value.next == 1
    ensures FetchAt(Image(), 1).Some? && FetchAt(Image(), 1).value.icode == I_HALT
    ensures IdealD(Run()[0]).icode == I_NOP && IdealD(Run()[1]).icode == I_HALT
  {
    assert Image()[0] == 0x10 && Image()[1] == 0;
  }

  /** A halting run within the pipeline's means, so that `PipelineMatchesIsa` applies to it. */
  lemma RunMeetsConditions()
    ensures PipeRun(Run()) && Ends(Run()) && Run()[0] == InitState(Image())
  {
    Fetches();
    IdealHalt(Run()[1]);
    hide FetchAt, FetchStage, IdealW;
  }

  function Loop(): Mem { [0x70] + seq(31, _ => 0) }

  lemma {:induction false} Zeros(n: nat)
    ensures FromBytes(seq(n, _ => 0)) == 0
  {
    if n > 0 {
      assert seq<Byte>(n, _ => 0)[1..] == seq(n - 1, _ => 0);
      Zeros(n - 1);
    }
  }

  lemma LoopBytes()
    ensures GetByte(Loop(), 0) == Some(0x70) && GetWord(Loop(), 1) == Some(0) && |Loop()| == 32
    ensures Hi4(0x70) == I_JMP && Lo4(0x70) == C_YES
  {
    assert Loop()[1..9] == seq<Byte>(8, _ => 0);
    Zeros(8);
  }

  lemma LoopFetches()
    ensures FetchAt(Loop(), 0) == Some(Fetched(I_JMP, C_YES, true, REG_NONE, REG_NONE, true, 0, 9))
    ensures FetchStage(Loop(), 0).icode == I_JMP
  {
    hide GetWord, Loop, Hi4, Lo4;
    LoopBytes();
  }

  lemma LoopStays()
    ensures var s := InitState(Loop()); Step(s) == (s, AOK) && IdealD(s).icode == I_JMP && PipeOk(s)
  {
    LoopFetches();
    hide FetchAt, FetchStage, GetReg, SetReg, GetWord, SetWord, ComputeAlu, ComputeCC;
  }

  /** Every number of rounds of the loop is within the pipeline's means. */
  lemma LoopMeetsConditions(n: nat)
    requires n > 0
    ensures PipeRun(seq(n, _ => InitState(Loop())))
  {
    LoopStays();
    hide Step, FetchStage, FetchAt, NoneValue, PipeOk;
  }
}
