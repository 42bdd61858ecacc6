/** The pipelined simulator with its pipe registers and global signals, as `psim.c` runs it, and the
    `-t` comparison with the interpreter. */
module PipeSim {
  import opened Words
  import opened Memory
  import opened Isa
  import opened Control
  import opened Pipe
  import opened PipeIdeal
  import PipeProof
  import PipeRuns
  import IsaSim

  class PipeMachine {
    // program-visible state
    const reg: array<Byte>
    const mem: array<Byte>
    var cc: CC
    var status: Stat
    // pipe registers: current and next halves, and the operation for the next clock edge
    var pcCurr: PcReg
    var pcNext: PcReg
    var pcOp: Op
    var ifIdCurr: IfId
    var ifIdNext: IfId
    var ifIdOp: Op
    var idExCurr: IdEx
    var idExNext: IdEx
    var idExOp: Op
    var exMemCurr: ExMem
    var exMemNext: ExMem
    var exMemOp: Op
    var memWbCurr: MemWb
    var memWbNext: MemWb
    var memWbOp: Op
    // pending updates
    var ccIn: CC
    var wbDestE: Nibble
    var wbValE: Word
    var wbDestM: Nibble
    var wbValM: Word
    var memAddr: Word
    var memData: Word
    var memWrite: bool

    ghost predicate Valid() { reg.Length == 128 && reg != mem }

    ghost function Cur(): Core
      reads this, reg, mem
      requires Valid()
    {
      Core(pcCurr, ifIdCurr, idExCurr, exMemCurr, memWbCurr, reg[..], mem[..], cc)
    }

    ghost function Pend(): Pending
      reads this
    {
      Pending(pcNext, ifIdNext, idExNext, exMemNext, memWbNext, pcOp, ifIdOp, idExOp, exMemOp, memWbOp,
              wbDestE, wbValE, wbDestM, wbValM, memWrite, memAddr, memData, ccIn)
    }

    ghost function Value(): Machine
      reads this, reg, mem
      requires Valid()
    {
      Machine(Cur(), Pend())
    }

    /** `sim_init`, then an image loaded into memory. */
    constructor (image: seq<Byte>)
      ensures Valid() && fresh(reg) && fresh(mem)
      ensures Value() == Reset(image) && status == AOK
    {
      pcCurr, pcNext, pcOp := BUBBLE_F, BUBBLE_F, LOAD;
      ifIdCurr, ifIdNext, ifIdOp := BUBBLE_D, BUBBLE_D, LOAD;
      idExCurr, idExNext, idExOp := BUBBLE_E, BUBBLE_E, LOAD;
      exMemCurr, exMemNext, exMemOp := BUBBLE_M, BUBBLE_M, LOAD;
      memWbCurr, memWbNext, memWbOp := BUBBLE_W, BUBBLE_W, LOAD;
      cc, ccIn, status := DEFAULT_CC, DEFAULT_CC, AOK;
      wbDestE, wbValE, wbDestM, wbValM := REG_NONE, 0, REG_NONE, 0;
      memAddr, memData, memWrite := 0, 0, false;
      var r0 := new Byte[128](_ => 0);
      var m0 := new Byte[|image|](i requires 0 <= i < |image| => image[i]);
      reg := r0;
      mem := m0;
      new;
      assert reg[..] == InitState(image).r && mem[..] == image;
    }

    method UpdateState(updateMem: bool, updateCC: bool)
      requires Valid()
      modifies this`cc, reg, mem
      ensures reg[..] == UpdateReg(old(reg[..]), Pend())
      ensures mem[..] == UpdateMem(old(mem[..]), Pend(), updateMem)
      ensures cc == if updateCC then ccIn else old(cc)
    {
      hide SetReg, SetWord;
      if wbDestE != REG_NONE {
        SetRegVal(reg, wbDestE, wbValE);
      }
      if wbDestM != REG_NONE {
        SetRegVal(reg, wbDestM, wbValM);
      }
      if updateMem && memWrite {
        var ok := SetWordVal(mem, memAddr, memData);
      }
      if updateCC {
        cc := ccIn;
      }
    }

    /** Move every pipe register by its operation. */
    method MovePipes()
      modifies this`pcCurr, this`ifIdCurr, this`idExCurr, this`exMemCurr, this`memWbCurr
      ensures pcCurr == UpdatePipe(pcOp, old(pcCurr), pcNext, BUBBLE_F, BUBBLE_F.(stat := PIP))
      ensures ifIdCurr == UpdatePipe(ifIdOp, old(ifIdCurr), ifIdNext, BUBBLE_D, BUBBLE_D.(stat := PIP))
      ensures idExCurr == UpdatePipe(idExOp, old(idExCurr), idExNext, BUBBLE_E, BUBBLE_E.(stat := PIP))
      ensures exMemCurr == UpdatePipe(exMemOp, old(exMemCurr), exMemNext, BUBBLE_M, BUBBLE_M.(stat := PIP))
      ensures memWbCurr == UpdatePipe(memWbOp, old(memWbCurr), memWbNext, BUBBLE_W, BUBBLE_W.(stat := PIP))
    {
      hide UpdatePipe;
      pcCurr, ifIdCurr, idExCurr, exMemCurr, memWbCurr :=
        UpdatePipe(pcOp, pcCurr, pcNext, BUBBLE_F, BUBBLE_F.(stat := PIP)),
        UpdatePipe(ifIdOp, ifIdCurr, ifIdNext, BUBBLE_D, BUBBLE_D.(stat := PIP)),
        UpdatePipe(idExOp, idExCurr, idExNext, BUBBLE_E, BUBBLE_E.(stat := PIP)),
        UpdatePipe(exMemOp, exMemCurr, exMemNext, BUBBLE_M, BUBBLE_M.(stat := PIP)),
        UpdatePipe(memWbOp, memWbCurr, memWbNext, BUBBLE_W, BUBBLE_W.(stat := PIP));
    }

    /** Every operation goes back to "load", except that the error state persists. */
    method ResetOps()
      modifies this`pcOp, this`ifIdOp, this`idExOp, this`exMemOp, this`memWbOp
    {
      pcOp := if pcOp != ERROR then LOAD else ERROR;
      ifIdOp := if ifIdOp != ERROR then LOAD else ERROR;
      idExOp := if idExOp != ERROR then LOAD else ERROR;
      exMemOp := if exMemOp != ERROR then LOAD else ERROR;
      memWbOp := if memWbOp != ERROR then LOAD else ERROR;
    }

    /** Fetch and align the instruction at `fpc`. */
    method FetchInstruction(fpc: Word) returns (d: IfId)
      requires Valid()
      ensures d == FetchStage(mem[..], fpc)
    {
      hide GetByte, GetWord, Wrap, GenFStat;
      var valP: Word := fpc;
      var ok, instr := GetByteVal(mem, valP);
      if !ok { instr := Pack(I_NOP, 0); }
      var imemError := !ok;
      if !imemError {
        var ok5, junk := GetByteVal(mem, Wrap(valP as int + 5));
        imemError := !ok5;
      }
      var icode: Nibble := if imemError then I_NOP else Hi4(instr);
      var ifun: Nibble := if imemError then 0 else Lo4(instr);
      valP := Wrap(valP as int + 1);
      var ra: Nibble, rb: Nibble := REG_NONE, REG_NONE;
      if NeedRegids(icode) {
        var ok1, regids := GetByteVal(mem, valP);
        if ok1 {
          ra, rb := Hi4(regids), Lo4(regids);
        }
        valP := Wrap(valP as int + 1);
      }
      var valC: Word := 0;
      if NeedValC(icode) {
        var okc, word := GetWordVal(mem, valP);
        if okc {
          valC := word;
        }
        valP := Wrap(valP as int + 8);
      }
      d := IfId(icode, ifun, ra, rb, valC, valP, GenFStat(imemError, icode), fpc);
    }

    method DoIfStage()
      requires Valid()
      modifies this`ifIdNext, this`pcNext
      ensures ifIdNext == FetchStage(mem[..], GenFPc(Cur())) && pcNext == FetchPc(ifIdNext)
    {
      hide FetchStage;
      var fpc := if exMemCurr.icode == I_JMP && !exMemCurr.takeBranch then exMemCurr.valA
                 else if memWbCurr.icode == I_RET then memWbCurr.valM
                 else pcCurr.pc;
      ifIdNext := FetchInstruction(fpc);
      pcNext := PcReg(GenPredPC(ifIdNext.icode, ifIdNext.valC, ifIdNext.valP),
                      if ifIdNext.stat == AOK then AOK else BUB);
    }

    method DoMemStage()
      requires Valid()
      modifies this`memAddr, this`memData, this`memWrite, this`memWbNext
      ensures memWbNext == MemStage(exMemCurr, mem[..])
      ensures memAddr == MemAddr(exMemCurr.icode, exMemCurr.valE, exMemCurr.valA)
      ensures memData == exMemCurr.valA && memWrite == MemWrite(exMemCurr.icode)
    {
      hide GetWord, MemAddr, MemRead, MemWrite;
      var valM: Word := 0;
      memAddr := MemAddr(exMemCurr.icode, exMemCurr.valE, exMemCurr.valA);
      memData := exMemCurr.valA;
      memWrite := MemWrite(exMemCurr.icode);
      var dmemError := false;
      if MemRead(exMemCurr.icode) {
        var ok, word := GetWordVal(mem, memAddr);
        if ok {
          valM := word;
        }
        dmemError := !ok;
      }
      if memWrite {
        var ok, sink := GetWordVal(mem, memAddr);
        dmemError := dmemError || !ok;
      }
      memWbNext := MemWb(exMemCurr.icode, exMemCurr.ifun, exMemCurr.valE, valM, exMemCurr.dstE, exMemCurr.dstM,
                         if dmemError then ADR else exMemCurr.stat, exMemCurr.stagePc);
    }

    method DoExStage()
      modifies this`exMemNext, this`ccIn
      ensures exMemNext == ExStage(idExCurr, exMemCurr, memWbNext, cc)
      ensures ccIn == if GenSetCC(idExCurr, memWbNext, memWbCurr) then ExCC(idExCurr) else old(ccIn)
    {
      hide ComputeAlu, ComputeCC, CondHolds, AluA, AluB, AluFun;
      var e := idExCurr;
      var alufun := AluFun(e.icode, e.ifun);
      var setcc := GenSetCC(e, memWbNext, memWbCurr);
      var alua, alub := AluA(e.icode, e.valA, e.valC), AluB(e.icode, e.valB);
      var takeBranch := CondHolds(cc, e.ifun);
      var aluout := ComputeAlu(alufun, alua, alub);
      if setcc {
        ccIn := ComputeCC(alufun, alua, alub);
      }
      exMemNext := ExMem(e.icode, e.ifun, takeBranch, aluout, GenEValA(e, exMemCurr, memWbNext),
                         GenEDstE(e, takeBranch), e.dstM, e.srcA, e.stat, e.stagePc);
    }

    method DoIdWbStages()
      requires Valid()
      modifies this`wbDestE, this`wbValE, this`wbDestM, this`wbValM, this`status, this`idExNext
      ensures wbDestE == memWbCurr.dstE && wbValE == memWbCurr.valE
      ensures wbDestM == memWbCurr.dstM && wbValM == memWbCurr.valM
      ensures status == GenStat(memWbCurr)
      ensures idExNext == DecodeStage(ifIdCurr, reg[..], exMemNext, exMemCurr, memWbNext, memWbCurr)
    {
      hide GetReg, SrcA, SrcB, DstM, Forward;
      wbDestE, wbValE := memWbCurr.dstE, memWbCurr.valE;
      wbDestM, wbValM := memWbCurr.dstM, memWbCurr.valM;
      status := GenStat(memWbCurr);
      var d := ifIdCurr;
      var srcA, srcB := SrcA(d.icode, d.ra), SrcB(d.icode, d.rb);
      var regValA := GetRegVal(reg, srcA);
      var regValB := GetRegVal(reg, srcB);
      idExNext := IdEx(d.icode, d.ifun, d.valC,
                       GenDValA(d, srcA, regValA, exMemNext, exMemCurr, memWbNext, memWbCurr),
                       Forward(srcB, regValB, exMemNext, exMemCurr, memWbNext, memWbCurr),
                       srcA, srcB, GenDstE(d.icode, d.rb), DstM(d.icode, d.ra), d.stat, d.stagePc);
    }

    method DoStallCheck()
      modifies this`pcOp, this`ifIdOp, this`idExOp, this`exMemOp, this`memWbOp
      ensures pcOp == PipeCntl(GenFStall(ifIdCurr, idExCurr, idExNext, exMemCurr), false)
      ensures ifIdOp == PipeCntl(GenDStall(ifIdCurr, idExCurr, idExNext),
                                 GenDBubble(ifIdCurr, idExCurr, idExNext, exMemCurr, exMemNext))
      ensures idExOp == PipeCntl(false, GenEBubble(ifIdCurr, idExCurr, idExNext, exMemNext))
      ensures exMemOp == PipeCntl(false, GenMBubble(memWbCurr, memWbNext))
      ensures memWbOp == PipeCntl(GenWStall(memWbCurr), false)
    {
      pcOp := PipeCntl(GenFStall(ifIdCurr, idExCurr, idExNext, exMemCurr), false);
      ifIdOp := PipeCntl(GenDStall(ifIdCurr, idExCurr, idExNext),
                         GenDBubble(ifIdCurr, idExCurr, idExNext, exMemCurr, exMemNext));
      idExOp := PipeCntl(false, GenEBubble(ifIdCurr, idExCurr, idExNext, exMemNext));
      exMemOp := PipeCntl(false, GenMBubble(memWbCurr, memWbNext));
      memWbOp := PipeCntl(GenWStall(memWbCurr), false);
    }

    /** The clock edge: program-visible updates, then the pipe registers. */
    method ClockEdge(maxInstr: int)
      requires Valid()
      modifies this`cc, reg, mem
      modifies this`pcCurr, this`ifIdCurr, this`idExCurr, this`exMemCurr, this`memWbCurr
      ensures Cur() == Update(old(Value()), AheadMem(old(Value())) < maxInstr, AheadEx(old(Value())) < maxInstr)
    {
      hide UpdateReg, UpdateMem, UpdatePipe;
      var aheadMem := if memWbCurr.stat != BUB then 1 else 0;
      var aheadEx := aheadMem + (if memWbNext.stat != BUB then 1 else 0);
      UpdateState(aheadMem < maxInstr, aheadEx < maxInstr);
      MovePipes();
    }

    /** Fetch, then memory, then execute: what decode forwards from. */
    method ComputeBackEnd()
      requires Valid()
      modifies this`ifIdNext, this`pcNext, this`memAddr, this`memData, this`memWrite, this`memWbNext
      modifies this`exMemNext, this`ccIn
      ensures ifIdNext == FetchStage(mem[..], GenFPc(Cur())) && pcNext == FetchPc(ifIdNext)
      ensures memWbNext == MemStage(exMemCurr, mem[..])
      ensures memAddr == MemAddr(exMemCurr.icode, exMemCurr.valE, exMemCurr.valA)
      ensures memData == exMemCurr.valA && memWrite == MemWrite(exMemCurr.icode)
      ensures exMemNext == ExStage(idExCurr, exMemCurr, memWbNext, cc)
      ensures ccIn == if GenSetCC(idExCurr, memWbNext, memWbCurr) then ExCC(idExCurr) else old(ccIn)
    {
      hide FetchStage, FetchPc, GenFPc, MemStage, ExStage, ExCC, GenSetCC, MemAddr, MemWrite;
      DoIfStage();
      DoMemStage();
      DoExStage();
    }

    /** The stages in the order the forwarding needs, then the stall check. */
    method ComputeStages()
      requires Valid()
      modifies this`ifIdNext, this`pcNext, this`memAddr, this`memData, this`memWrite, this`memWbNext
      modifies this`exMemNext, this`ccIn, this`wbDestE, this`wbValE, this`wbDestM, this`wbValM, this`status
      modifies this`idExNext, this`pcOp, this`ifIdOp, this`idExOp, this`exMemOp, this`memWbOp
      ensures Pend() == Compute(Cur(), old(ccIn)) && status == GenStat(memWbCurr)
    {
      hide FetchStage, FetchPc, GenFPc, MemStage, ExStage, ExCC, DecodeStage, GenSetCC, PipeCntl, MemAddr, MemWrite;
      hide GenFStall, GenDStall, GenDBubble, GenEBubble, GenMBubble, GenWStall, GenStat;
      ComputeBackEnd();
      DoIdWbStages();
      DoStallCheck();
    }

    /** Run the pipeline for one cycle; the result is the status of the instruction in write-back. */
    method SimStepPipe(maxInstr: int) returns (stat: Stat)
      requires Valid()
      modifies this, reg, mem
      ensures Value() == Pipe.SimStepPipe(old(Value()), maxInstr) && stat == GenStat(memWbCurr)
    {
      hide Update, Compute;
      ClockEdge(maxInstr);
      ResetOps();
      ComputeStages();
      stat := status;
    }

    /** Run until an error or halt status, or a limit. */
    method SimRunPipe(maxInstr: int, maxCycle: int) returns (icount: int, runStatus: Stat, resultCC: CC)
      requires Valid()
      modifies this, reg, mem
      ensures Outcome(Value(), runStatus, icount) == Pipe.SimRunPipe(old(Value()), maxInstr, maxCycle)
      ensures resultCC == cc
    {
      hide Pipe.SimStepPipe;
      icount := 0;
      var ccount := 0;
      runStatus := AOK;
      while icount < maxInstr && ccount < maxCycle
        invariant Valid()
        invariant SimRunFrom(Value(), runStatus, icount, ccount, maxInstr, maxCycle) ==
                  Pipe.SimRunPipe(old(Value()), maxInstr, maxCycle)
        decreases maxCycle - ccount
      {
        runStatus := SimStepPipe(maxInstr - icount);
        if runStatus != BUB {
          icount := icount + 1;
        }
        if runStatus != AOK && runStatus != BUB {
          break;
        }
        ccount := ccount + 1;
      }
      resultCC := cc;
    }
  }

  /** `diff_mem` and `diff_reg` without a report: do the two memories differ in some word? */
  method DiffMem(olds: array<Byte>, news: array<Byte>) returns (diff: bool)
    requires olds.Length == news.Length && olds.Length % 8 == 0
    ensures diff <==> olds[..] != news[..]
  {
    diff := false;
    var pos := 0;
    while !diff && pos < olds.Length
      invariant 0 <= pos <= olds.Length && pos % 8 == 0
      invariant !diff ==> olds[..pos] == news[..pos]
      invariant diff ==> olds[..] != news[..]
    {
      var ok1, ov := GetWordVal(olds, pos);
      var ok2, nv := GetWordVal(news, pos);
      WordsTellApart(olds[..], news[..], pos);
      hide GetWord, WordOf;
      diff := nv != ov;
      assert olds[..pos + 8] == olds[..pos] + olds[..][pos..pos + 8];
      assert news[..pos + 8] == news[..pos] + news[..][pos..pos + 8];
      pos := pos + 8;
    }
    assert !diff ==> olds[..] == olds[..pos] && news[..] == news[..pos];
  }

  lemma WordsTellApart(m1: Mem, m2: Mem, pos: nat)
    requires pos + 8 <= |m1| && pos + 8 <= |m2|
    ensures GetWord(m1, pos) == GetWord(m2, pos) <==> m1[pos..pos + 8] == m2[pos..pos + 8]
  {
    BytesRoundTrip(m1[pos..pos + 8]);
    BytesRoundTrip(m2[pos..pos + 8]);
    hide LowBytes, WordOf;
  }

  /** What the simulator run with `-t` compares: the pipeline's final state and the interpreter's. */
  predicate CheckHolds(image: Mem, instrLimit: nat) {
    PipeRuns.Agrees(Pipe.SimRunPipe(Reset(image), instrLimit, 5 * instrLimit).k.cur, RunFor(InitState(image), instrLimit).0)
  }

  /** The simulator run with `-t`: simulate, interpret the same image, compare. */
  method RunAndCheck(image: seq<Byte>, instrLimit: nat) returns (runStatus: Stat, match_: bool)
    requires |image| % 8 == 0
    ensures runStatus == Pipe.SimRunPipe(Reset(image), instrLimit, 5 * instrLimit).status
    ensures match_ <==> CheckHolds(image, instrLimit)
  {
    hide Pipe.SimRunPipe, RunFor;
    var k := new PipeMachine(image);
    var isa := new IsaSim.IsaState(k.reg[..], k.mem[..]);
    isa.cc := k.cc;
    var icount, resultCC;
    icount, runStatus, resultCC := k.SimRunPipe(instrLimit, 5 * instrLimit);
    var e := isa.RunState(instrLimit);
    var diffReg := DiffMem(isa.r, k.reg);
    var diffMem := DiffMem(isa.m, k.mem);
    match_ := !diffReg && !diffMem && isa.cc == resultCC;
  }

  /** The interpreter's last instruction is a `pushq`, `call` or `popq` whose memory access fails: it leaves the
      stack pointer moved. */
  predicate FailsMovingStack(s: State) {
    match FetchAt(s.m, s.pc)
    case None => false
    case Some(g) =>
      (g.icode == I_PUSHQ || g.icode == I_CALL || g.icode == I_POPQ) && WellFormed(s) && Step(s).1 == ADR
  }

  /** For every program whose run stays within the pipeline's side conditions and ends, by a halt or by a
      fault of a well-formed instruction, within a fifth of the limit: both report the same status, and the
      check succeeds exactly when the end is not a stack access that fails. */
  lemma CheckSucceedsIff(image: Mem, instrLimit: nat, run: seq<State>)
    requires PipeProof.PipeRun(run) && run[0] == InitState(image) && 5 * |run| <= instrLimit
    requires var last := run[|run| - 1]; PipeOk(last) && WellFormed(last) && Step(last).1 != AOK
    ensures CheckHolds(image, instrLimit) <==> !FailsMovingStack(run[|run| - 1])
    ensures Pipe.SimRunPipe(Reset(image), instrLimit, 5 * instrLimit).status == RunFor(InitState(image), instrLimit).1
  {
    hide PipeProof.PipeRun, Pipe.SimRunPipe, RunFor, Step, PipeOk, WellFormed, FailsMovingStack, IdealW, PipeProof.Ends;
    RunIsTrace(run);
    PipeRuns.EndsIff(run);
    PipeRuns.PipelineMatchesIsa(image, run, instrLimit, 5 * instrLimit);
    RunForEnds(run, 0, instrLimit);
    EndMoves(run[|run| - 1]);
  }

  /** The check succeeds on every program whose run halts within the side conditions. */
  lemma CheckSucceeds(image: Mem, instrLimit: nat, run: seq<State>)
    requires PipeProof.PipeRun(run) && run[0] == InitState(image) && 5 * |run| <= instrLimit
    requires Step(run[|run| - 1]).1 == HLT && Fetchable(run[|run| - 1])
    ensures CheckHolds(image, instrLimit) && Pipe.SimRunPipe(Reset(image), instrLimit, 5 * instrLimit).status == HLT
  {
    var last := run[|run| - 1];
    HaltOnlyOnHalt(last);
    FetchDefaults(last.m, last.pc);
    hide PipeProof.PipeRun, Pipe.SimRunPipe, RunFor, Step, FetchAt, CheckHolds;
    CheckSucceedsIff(image, instrLimit, run);
    RunIsTrace(run);
    RunForEnds(run, 0, instrLimit);
  }

  lemma RunIsTrace(run: seq<State>)
    requires PipeProof.PipeRun(run)
    ensures IsTrace(run)
  {
  }

  /** A failing step leaves the registers, memory and flags it found, but for the stack pointer. */
  lemma EndMoves(s: State)
    requires WellFormed(s) && Step(s).1 != AOK
    ensures var t := Step(s).0; (t.r == s.r && t.m == s.m && t.cc == s.cc) <==> !FailsMovingStack(s)
  {
    hide FetchAt, GetReg, SetReg, GetWord, SetWord, ComputeAlu, ComputeCC, CondHolds;
    StackMoves(s.r);
  }

  lemma StackMoves(r: RegFile)
    ensures SetReg(r, REG_RSP, Wrap(GetReg(r, REG_RSP) - 8)) != r
    ensures SetReg(r, REG_RSP, Wrap(GetReg(r, REG_RSP) + 8)) != r
  {
    RegReadWrite(r, REG_RSP, Wrap(GetReg(r, REG_RSP) - 8), REG_RSP);
    RegReadWrite(r, REG_RSP, Wrap(GetReg(r, REG_RSP) + 8), REG_RSP);
    hide GetReg, SetReg;
  }
}
