/** The single-cycle simulator with its global signals, as `ssim.c` runs it (non-plus mode). */
module SeqSim {
  import opened Words
  import opened Memory
  import opened Isa
  import opened Control
  import Seq

  class SeqMachine {
    // architectural state
    var pc: Word
    var cc: CC
    const reg: array<Byte>
    const mem: array<Byte>
    // pending updates
    var pcIn: Word
    var ccIn: CC
    var destE: Nibble
    var valE: Word
    var destM: Nibble
    var valM: Word
    var memWrite: bool
    var memAddr: Word
    var memData: Word
    // fetched fields
    var imemError: bool
    var icode: Nibble
    var ifun: Nibble
    var ra: Nibble
    var rb: Nibble
    var valC: Word
    var valP: Word

    ghost predicate Valid() { reg.Length == 128 && reg != mem }

    ghost function Arch(): State
      reads this`pc, this`cc, reg, mem
      requires Valid()
    {
      State(pc, reg[..], mem[..], cc)
    }

    ghost function Pend(): Seq.Pending
      reads this
    {
      Seq.Pending(pcIn, ccIn, destE, valE, destM, valM, memWrite, memAddr, memData)
    }

    ghost function Value(): Seq.Machine
      reads this, reg, mem
      requires Valid()
    {
      Seq.Machine(Arch(), Pend())
    }

    ghost function Fetched(): Seq.Fields
      reads this
    {
      Seq.Fields(imemError, icode, ifun, ra, rb, valC, valP)
    }

    /** `sim_init` followed by loading an image. */
    constructor (image: seq<Byte>)
      ensures Valid() && fresh(reg) && fresh(mem)
      ensures Value() == Seq.Reset(image)
    {
      pc, pcIn, cc, ccIn := 0, 0, DEFAULT_CC, DEFAULT_CC;
      destE, destM, valE, valM := REG_NONE, REG_NONE, 0, 0;
      memWrite, memAddr, memData := false, 0, 0;
      imemError, icode, ifun, ra, rb, valC, valP := false, I_NOP, 0, REG_NONE, REG_NONE, 0, 0;
      var r0 := new Byte[128](_ => 0);
      var m0 := new Byte[|image|](i requires 0 <= i < |image| => image[i]);
      reg := r0;
      mem := m0;
      new;
      assert reg[..] == InitState(image).r && mem[..] == image;
    }

    method UpdateState()
      requires Valid()
      modifies this`pc, this`cc, reg, mem
      ensures Arch() == Seq.UpdateState(old(Arch()), Pend())
    {
      hide SetReg, SetWord;
      pc := pcIn;
      cc := ccIn;
      if destE != REG_NONE {
        SetRegVal(reg, destE, valE);
      }
      if destM != REG_NONE {
        SetRegVal(reg, destM, valM);
      }
      if memWrite {
        var ok := SetWordVal(mem, memAddr, memData);
      }
    }

    method Fetch()
      requires Valid()
      modifies this`imemError, this`icode, this`ifun, this`ra, this`rb, this`valC, this`valP
      ensures Fetched() == Seq.FetchStage(mem[..], pc)
    {
      hide GetByte, GetWord, Wrap;
      valP := pc;
      var ok, instr := GetByteVal(mem, valP);
      if !ok { instr := Pack(I_NOP, 0); }
      imemError := !ok;
      icode := if imemError then I_NOP else Hi4(instr);
      ifun := if imemError then 0 else Lo4(instr);
      valP := Wrap(valP as int + 1);
      ra, rb := REG_NONE, REG_NONE;
      if NeedRegids(icode) {
        var ok1, regids := GetByteVal(mem, valP);
        if ok1 {
          ra, rb := Hi4(regids), Lo4(regids);
        }
        valP := Wrap(valP as int + 1);
      }
      valC := 0;
      if NeedValC(icode) {
        var okc, word := GetWordVal(mem, valP);
        if okc {
          valC := word;
        }
        valP := Wrap(valP as int + 8);
      }
    }

    /** The ALU, its operands and the condition codes. */
    method ExecuteStage(valA: Word, valB: Word)
      modifies this`valE, this`ccIn
      ensures var aluA, aluB, fun := AluA(icode, valA, valC), AluB(icode, valB), AluFun(icode, ifun);
              && valE == ComputeAlu(fun, aluA, aluB)
              && ccIn == if SetsCC(icode) then ComputeCC(fun, aluA, aluB) else cc
    {
      hide ComputeAlu, ComputeCC, AluA, AluB, AluFun;
      var aluA, aluB, alufun := AluA(icode, valA, valC), AluB(icode, valB), AluFun(icode, ifun);
      valE := ComputeAlu(alufun, aluA, aluB);
      ccIn := cc;
      if SetsCC(icode) {
        ccIn := ComputeCC(alufun, aluA, aluB);
      }
    }

    /** Decode to PC update: leave the instruction's results pending. */
    method Execute() returns (status: Stat)
      requires Valid()
      modifies this`destE, this`destM, this`valE, this`valM, this`ccIn, this`memAddr, this`memData
      modifies this`memWrite, this`pcIn
      ensures (Pend(), status) == Seq.Signals(Arch(), Fetched(), old(valM))
    {
      hide GetReg, GetWord, ComputeAlu, ComputeCC, CondHolds, SrcA, SrcB, DstM, AluA, AluB, AluFun, MemAddr;
      hide MemRead, MemWrite, SetsCC, Seq.GenDstE, Seq.GenMemData, Seq.GenStat, Seq.GenNewPC;
      var valA := GetRegVal(reg, SrcA(icode, ra));
      var valB := GetRegVal(reg, SrcB(icode, rb));
      var cond := CondHolds(cc, ifun);
      destE, destM := Seq.GenDstE(icode, rb, cond), DstM(icode, ra);
      ExecuteStage(valA, valB);
      var dmemError := MemoryStage(valA);
      status := Seq.GenStat(imemError || dmemError, icode);
      pcIn := Seq.GenNewPC(icode, cond, valC, valM, valP);
    }

    /** Memory read, and a read of the address to be written to check it. */
    method MemoryStage(valA: Word) returns (dmemError: bool)
      requires Valid()
      modifies this`valM, this`memWrite, this`memAddr, this`memData
      ensures var word := GetWord(mem[..], memAddr);
              && memAddr == MemAddr(icode, valE, valA)
              && memData == Seq.GenMemData(icode, valA, valP)
              && memWrite == MemWrite(icode)
              && valM == (if !MemRead(icode) then 0 else if word.Some? then word.value else old(valM))
              && dmemError == ((MemRead(icode) || MemWrite(icode)) && word.None?)
    {
      hide GetWord, MemAddr, Seq.GenMemData;
      memAddr := MemAddr(icode, valE, valA);
      memData := Seq.GenMemData(icode, valA, valP);
      dmemError := false;
      if MemRead(icode) {
        var ok, word := GetWordVal(mem, memAddr);
        dmemError := !ok;
        if ok {
          valM := word;
        }
      } else {
        valM := 0;
      }
      memWrite := MemWrite(icode);
      if memWrite {
        var ok, junk := GetWordVal(mem, memAddr);
        dmemError := dmemError || !ok;
      }
    }

    /** Execute one instruction and return the resulting status. */
    method SimStep() returns (status: Stat)
      requires Valid()
      modifies this, reg, mem
      ensures (Value(), status) == Seq.SimStep(old(Value()))
    {
      hide Seq.FetchStage, Seq.UpdateState, Seq.Signals;
      UpdateState();
      Fetch();
      status := Execute();
    }

    /** Run until a status other than AOK or until `maxInstr` steps. */
    method SimRun(maxInstr: nat) returns (icount: nat, status: Stat)
      requires Valid()
      modifies this, reg, mem
      ensures (Value(), icount, status) == Seq.SimRun(old(Value()), maxInstr)
    {
      hide Seq.SimStep;
      icount := 0;
      status := AOK;
      ghost var k0 := Value();
      while icount < maxInstr
        invariant Valid() && status == AOK && icount <= maxInstr
        invariant var (k, n, st) := Seq.SimRun(Value(), maxInstr - icount);
                  Seq.SimRun(k0, maxInstr) == (k, icount + n, st)
      {
        status := SimStep();
        icount := icount + 1;
        if status != AOK {
          break;
        }
      }
    }
  }
}
