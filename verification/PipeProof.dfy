/** The pipeline executes the instruction set: the invariant that ties the five stages to a run of the
    instruction set, its preservation by a cycle, and correctness of whole simulations. */
module PipeProof {
  import opened Words
  import opened Memory
  import opened Isa
  import opened Control
  import opened Pipe
  import opened PipeIdeal

  // ---------- side conditions on a run ----------

  /** The length of the instruction at `pc`. */
  function InsLength(m: Mem, pc: Word): nat {
    match GetByte(m, pc)
    case None => 0
    case Some(b) => 1 + (if NeedRegids(Hi4(b)) then 1 else 0) + (if NeedValC(Hi4(b)) then 8 else 0)
  }

  /** The instruction at `pc` in the second memory has the same bytes in the first. */
  ghost predicate SameCode(m1: Mem, m2: Mem, pc: Word) {
    |m1| == |m2| && forall p :: pc <= p < pc + InsLength(m2, pc) && 0 <= p < |m1| ==> m1[p] == m2[p]
  }

  /** No instruction's bytes are written by any of the three instructions before it. */
  ghost predicate NoRecentCodeStore(run: seq<State>) {
    forall i, j :: 0 <= i < j < |run| && j <= i + 3 ==> SameCode(run[i].m, run[j].m, run[j].pc)
  }

  /** The two adjacent pairs the stall and forwarding logic gets wrong: a load or pop of the base
      register of the `rmmovq` behind it, and a pop of the register that `rmmovq` stores. */
  predicate StorePair(d1: IfId, d2: IfId) {
    d2.icode == I_RMMOVQ &&
    (((d1.icode == I_MRMOVQ || d1.icode == I_POPQ) && RegValid(d1.ra) && d1.ra == d2.rb) ||
     (d1.icode == I_POPQ && d1.ra == d2.ra))
  }

  /** The load of instruction `s` delivers what its register holds without it. */
  predicate LoadKeeps(s: State) {
    IdealW(s).valM == GetReg(SetReg(s.r, IdealM(s).dstE, IdealM(s).valE), IdealD(s).ra)
  }

  /** Such a pair does harm: the `rmmovq` sees the register without the load. */
  predicate StoreHazard(s1: State, s2: State) { StorePair(IdealD(s1), IdealD(s2)) && !LoadKeeps(s1) }

  ghost predicate NoStoreHazard(run: seq<State>) {
    forall i :: 0 <= i < |run| - 1 ==> !StoreHazard(run[i], run[i + 1])
  }

  /** The second instruction waits in decode for the first one's load. */
  predicate Waits(d1: IfId, d2: IfId) {
    (d1.icode == I_MRMOVQ || d1.icode == I_POPQ) && d2.icode != I_RMMOVQ &&
    (d1.ra == SrcA(d2.icode, d2.ra) || d1.ra == SrcB(d2.icode, d2.rb))
  }

  /** A bubble separates instruction `k` from the one before it: a `ret` or a load-use stall. */
  predicate Apart(run: seq<State>, k: nat)
    requires k < |run|
  {
    k == 0 || IdealD(run[k - 1]).icode == I_RET || Waits(IdealD(run[k - 1]), IdealD(run[k]))
  }

  /** What the forwarding network takes for "no register" when instruction `k` is decoded: the result of the
      first of the three instructions before it that leaves a destination empty, and 0 if a bubble or no
      such instruction comes first. */
  function NoneValue(run: seq<State>, k: nat): Word
    requires k < |run|
  {
    if Apart(run, k) then 0
    else if IdealM(run[k - 1]).dstE == REG_NONE then IdealM(run[k - 1]).valE
    else if Apart(run, k - 1) then 0
    else if IdealM(run[k - 2]).dstM == REG_NONE then IdealW(run[k - 2]).valM
    else if IdealM(run[k - 2]).dstE == REG_NONE then IdealM(run[k - 2]).valE
    else if Apart(run, k - 2) then 0
    else if IdealW(run[k - 3]).dstM == REG_NONE then IdealW(run[k - 3]).valM
    else if IdealW(run[k - 3]).dstE == REG_NONE then IdealW(run[k - 3]).valE
    else 0
  }

  /** An instruction that reads "no register" gets 0. */
  ghost predicate NoneSafe(run: seq<State>) {
    forall k :: 0 <= k < |run| && UsesNone(IdealD(run[k])) ==> NoneValue(run, k) == 0
  }

  /** A run of the instruction set within the pipeline's means. The last instruction is unrestricted: it may
      halt, fault, or be one of a run that goes on. */
  ghost predicate PipeRun(run: seq<State>) {
    && IsTrace(run)
    && (forall i :: 0 <= i < |run| - 1 ==> PipeOk(run[i]))
    && (forall i :: 0 <= i < |run| ==> |run[i].m| <= 0x7FFF_FFFF)
    && NoStoreHazard(run) && NoneSafe(run) && NoRecentCodeStore(run)
  }

  /** The run ends: its last instruction halts or faults. */
  ghost predicate Ends(run: seq<State>) { |run| > 0 && Bad(IdealW(run[|run| - 1]).stat) }

  /** The run ends, or goes on for at least five more instructions. */
  ghost predicate Room(run: seq<State>, a: nat) { Ends(run) || a + 5 < |run| }

  /** A stage with status `stat` holds the last instruction of the run. */
  predicate Last(run: seq<State>, i: nat, stat: Stat) { stat != BUB && i + 1 == |run| }

  // ---------- what a run provides, instruction by instruction ----------

  /** Facts about instruction `i` of a run, free of the definitions behind them. */
  ghost predicate Instr(run: seq<State>, i: nat) {
    && i < |run|
    && (IdealD(run[i]).stat == AOK || Bad(IdealD(run[i]).stat))
    && (UsesNone(IdealD(run[i])) ==> NoneValue(run, i) == 0)
    && (if i + 1 < |run| then
          && IdealD(run[i]).stat == IdealW(run[i]).stat == AOK && LoadOk(IdealD(run[i]))
          && After(run[i]) == run[i + 1]
          && !StoreHazard(run[i], run[i + 1])
        else
          && Bad(IdealW(run[i]).stat) && !SetsCC(IdealD(run[i]).icode) && IdealD(run[i]).icode != I_JMP
          && Store(run[i].m, IdealM(run[i])) == run[i].m)
  }

  lemma InstrFacts(run: seq<State>, i: nat)
    requires PipeRun(run) && i < |run| && (i + 1 < |run| || Ends(run))
    ensures Instr(run, i)
  {
    hide IdealD, IdealM, IdealW, After, LoadOk, Step, UsesNone, NoneValue, Store, StoreHazard;
    IdealStatus(run[i]);
    if i + 1 < |run| {
      assert PipeOk(run[i]);
      TraceStep(run, i);
      IdealMatchesIsa(run[i]);
    }
  }

  /** Instruction `j` fetched from the memory that any of the three states before it left. */
  lemma FetchEarly(run: seq<State>, i: nat, j: nat)
    requires PipeRun(run) && i <= j < |run| && j <= i + 3
    ensures FetchStage(run[i].m, run[j].pc) == IdealD(run[j])
  {
    if i < j {
      FetchSame(run[i].m, run[j].m, run[j].pc);
    }
  }

  lemma FetchSame(m1: Mem, m2: Mem, pc: Word)
    requires SameCode(m1, m2, pc) && |m1| <= 0x7FFF_FFFF
    ensures FetchStage(m1, pc) == FetchStage(m2, pc)
  {
    hide GetWord, Wrap, SameCode, Hi4, Lo4;
    SameSize(m1, m2, pc);
    if 0 <= pc && pc + 5 < |m1| {
      SmallPc(pc);
      SameFields(m1, m2, pc);
    } else {
      FetchFails(m1, pc);
      FetchFails(m2, pc);
    }
  }

  lemma SameSize(m1: Mem, m2: Mem, pc: Word)
    requires SameCode(m1, m2, pc)
    ensures |m1| == |m2|
  {
  }

  lemma SmallPc(pc: Word)
    requires 0 <= pc && pc + 5 <= 0x7FFF_FFFF
    ensures Wrap(pc + 1) == pc + 1 && Wrap(pc + 1 + 1) == pc + 2 && Wrap(pc + 5) == pc + 5
  {
  }

  /** The parts of the instruction that the fetch reads. */
  lemma SameFields(m1: Mem, m2: Mem, pc: Word)
    requires SameCode(m1, m2, pc) && 0 <= pc && pc + 5 < |m1| == |m2|
    ensures m1[pc] == m2[pc]
    ensures NeedRegids(Hi4(m1[pc])) ==> m1[pc + 1] == m2[pc + 1]
    ensures NeedValC(Hi4(m1[pc])) ==>
              var pos := pc + if NeedRegids(Hi4(m1[pc])) then 2 else 1; GetWord(m1, pos) == GetWord(m2, pos)
  {
    hide GetWord;
    assert m1[pc] == m2[pc];
    if NeedValC(Hi4(m1[pc])) {
      SameWord(m1, m2, pc, pc + if NeedRegids(Hi4(m1[pc])) then 2 else 1);
    }
  }

  /** Out of memory the fetch does not depend on what is in it. */
  lemma FetchFails(m: Mem, pc: Word)
    requires !(0 <= pc && pc + 5 < |m|) && |m| <= 0x7FFF_FFFF
    ensures FetchStage(m, pc) == IfId(I_NOP, 0, REG_NONE, REG_NONE, 0, Wrap(pc + 1), ADR, pc)
  {
    assert 0 <= pc < |m| ==> Wrap(pc + 5) == pc + 5;
    hide Wrap, GetWord;
  }

  lemma SameWord(m1: Mem, m2: Mem, pc: Word, pos: int)
    requires SameCode(m1, m2, pc) && pc <= pos && pos + 8 <= pc + InsLength(m2, pc)
    ensures GetWord(m1, pos) == GetWord(m2, pos)
  {
    if 0 <= pos && pos + 8 <= |m1| {
      assert m1[pos..pos + 8] == m2[pos..pos + 8];
    }
  }

  // ---------- stage contents ----------

  predicate BubD(d: IfId) { d.icode == I_NOP && d.stat == BUB }

  predicate BubE(e: IdEx) {
    e.icode == I_NOP && e.srcA == e.srcB == e.dstE == e.dstM == REG_NONE && e.stat == BUB
  }

  predicate BubM(m: ExMem) { m.icode == I_NOP && m.dstE == m.dstM == REG_NONE && m.stat == BUB && m.valE == 0 }

  predicate BubW(w: MemWb) {
    w.icode == I_NOP && w.dstE == w.dstM == REG_NONE && w.stat == BUB && w.valE == w.valM == 0
  }

  function Occ(stat: Stat): nat { if stat == BUB then 0 else 1 }

  /** The store data of an `rmmovq` directly behind an `mrmovq` of it, repaired in execute. */
  predicate StaleStore(e: IdEx, m: ExMem) {
    m.icode == I_MRMOVQ && e.icode == I_RMMOVQ && e.srcA == m.dstM
  }

  predicate EAgrees(e: IdEx, m: ExMem, i: IdEx) {
    && e == i.(valA := e.valA, valB := e.valB)
    && (UsesA(i.icode) && !StaleStore(e, m) ==> e.valA == i.valA)
    && (UsesB(i.icode) ==> e.valB == i.valB)
  }

  predicate MAgrees(m: ExMem, i: ExMem) {
    && m == i.(valA := m.valA)
    && (UsesA(i.icode) ==> m.valA == i.valA)
  }

  /** A branch whose predicted target is wrong. */
  predicate NotTaken(icode: Nibble, ifun: Nibble, s: State) { icode == I_JMP && !CondHolds(s.cc, ifun) }

  // ---------- the invariant ----------

  /** `a` is the first instruction whose register writes are still pending. Stages hold consecutive
      instructions of the run or bubbles; behind the instruction that ends the run, a mispredicted branch or
      a `ret` the younger stages are unconstrained or empty, and nothing of them has reached registers,
      memory or flags. */
  ghost predicate Inv(c: Core, run: seq<State>, a: nat) {
    && a < |run| && c.reg == run[a].r && Spaced(c, run, a)
    && (BubW(c.w) || c.w == IdealW(run[a]))
    && if Last(run, a, c.w.stat) then c.mem == run[a].m && c.cc == run[a].cc && BubM(c.m)
       else
         var i := a + Occ(c.w.stat);
         i < |run| && c.mem == run[i].m && InvM(c, run, i)
  }

  ghost predicate InvM(c: Core, run: seq<State>, i: nat)
    requires i < |run|
  {
    && (BubM(c.m) || MAgrees(c.m, IdealM(run[i])))
    && if Last(run, i, c.m.stat) then c.cc == run[i].cc
       else
         var j := i + Occ(c.m.stat);
         && j < |run| && c.cc == run[j].cc
         && (c.w.icode == I_RET ==> BubM(c.m) && BubE(c.e) && BubD(c.d))
         && (c.m.icode == I_RET || (c.m.icode == I_JMP && !c.m.takeBranch) ==> BubE(c.e) && BubD(c.d))
         && InvE(c, run, j)
  }

  ghost predicate InvE(c: Core, run: seq<State>, j: nat)
    requires j < |run|
  {
    && (BubE(c.e) || EAgrees(c.e, c.m, IdealE(run[j])))
    && (c.e.icode == I_RET ==> BubD(c.d))
    && if Last(run, j, c.e.stat) || NotTaken(c.e.icode, c.e.ifun, run[j]) then true
       else
         var k := j + Occ(c.e.stat);
         k < |run| && InvD(c, run, k)
  }

  ghost predicate InvD(c: Core, run: seq<State>, k: nat)
    requires k < |run|
  {
    && (BubD(c.d) || c.d == IdealD(run[k]))
    && if Last(run, k, c.d.stat) || RetPending(c.d, c.e, c.m) || NotTaken(c.d.icode, c.d.ifun, run[k]) then true
       else
         var f := k + Occ(c.d.stat);
         f < |run| && GenFPc(c) == run[f].pc
  }

  /** Neighbours in the back end are not ones of which the younger had to wait for the older one's load. */
  ghost predicate Spaced(c: Core, run: seq<State>, a: nat) {
    && (c.w.stat != BUB && c.m.stat != BUB && a + 1 < |run| ==> !Waits(IdealD(run[a]), IdealD(run[a + 1])))
    && (var i := a + Occ(c.w.stat);
        c.m.stat != BUB && c.e.stat != BUB && i + 1 < |run| ==> !Waits(IdealD(run[i]), IdealD(run[i + 1])))
  }

  /** One full clock edge and the computation after it, seen from one set of `current` halves to the next. */
  function Next(c: Core): Core { Update(Machine(c, Compute(c, c.cc)), true, true) }

  /** What a clock edge does to the pipe registers while no fault has reached write-back. */
  predicate Edge(c: Core, p: Pending, c': Core) {
    && c'.reg == WriteBack(c.reg, c.w) && c'.mem == Store(c.mem, c.m) && c'.cc == p.ccIn
    && c'.w == p.w
    && c'.m == (if Bad(p.w.stat) then BUBBLE_M else p.m)
    && c'.e == (if Mispredicted(c.e, p.m) || LoadUse(c.d, c.e, p.e) then BUBBLE_E else p.e)
    && c'.d == (if Mispredicted(c.e, p.m) then BUBBLE_D
                else if LoadUse(c.d, c.e, p.e) then c.d
                else if RetPending(c.d, c.e, c.m) then BUBBLE_D
                else p.d)
    && c'.f == (if LoadUse(c.d, c.e, p.e) || RetPending(c.d, c.e, c.m) then c.f else p.f)
  }

  lemma EdgeFacts(c: Core)
    requires !Bad(c.w.stat)
    ensures Edge(c, Compute(c, c.cc), Next(c))
  {
    SetNone(c.reg, c.w.valE);
    SetNone(SetReg(c.reg, c.w.dstE, c.w.valE), c.w.valM);
    hide SetReg, GetReg, SetWord, GetWord, MemStage, ExStage, DecodeStage, FetchStage, ExCC;
  }

  // ---------- no register ever enters the error state ----------

  /** For any contents of the pipe registers the stall and bubble requests never conflict. */
  lemma NeverPipeError(c: Core, ccIn: CC)
    ensures var p := Compute(c, ccIn);
            p.opF != ERROR && p.opD != ERROR && p.opE != ERROR && p.opM != ERROR && p.opW != ERROR
  {
    hide MemStage, DecodeStage, FetchStage, ExCC, ComputeAlu;
  }

  // ---------- forwarding ----------

  /** The register file once every write ahead of the decode stage has been made, in program order:
      write-back, then memory, then the execute stage's ALU result. */
  function Drained(reg: RegFile, m': ExMem, m: ExMem, w': MemWb, w: MemWb): RegFile {
    var r1 := SetReg(SetReg(reg, w.dstE, w.valE), w.dstM, w.valM);
    var r2 := SetReg(SetReg(r1, m.dstE, m.valE), m.dstM, w'.valM);
    SetReg(r2, m'.dstE, m'.valE)
  }

  /** Forwarding is exact: for any stage contents and any real source register the network delivers the
      value the drained register file holds. */
  lemma ForwardExact(src: Nibble, reg: RegFile, m': ExMem, m: ExMem, w': MemWb, w: MemWb)
    requires RegValid(src)
    ensures Forward(src, GetReg(reg, src), m', m, w', w) == GetReg(Drained(reg, m', m, w', w), src)
  {
    var r1 := SetReg(reg, w.dstE, w.valE);
    var r2 := SetReg(r1, w.dstM, w.valM);
    var r3 := SetReg(r2, m.dstE, m.valE);
    var r4 := SetReg(r3, m.dstM, w'.valM);
    RegReadWrite(reg, w.dstE, w.valE, src);
    RegReadWrite(r1, w.dstM, w.valM, src);
    RegReadWrite(r2, m.dstE, m.valE, src);
    RegReadWrite(r3, m.dstM, w'.valM, src);
    RegReadWrite(r4, m'.dstE, m'.valE, src);
    hide GetReg, SetReg;
  }

  // ---------- one stage at a time ----------

  lemma MemoryStep(m: ExMem, s: State)
    requires MAgrees(m, IdealM(s))
    ensures MemStage(m, s.m) == IdealW(s)
    ensures Store(s.m, m) == After(s).m
  {
    hide IdealM, GetWord, SetWord, GetReg, SetReg, ExCC, NextPc;
  }

  lemma BubbleMemoryStep(m: ExMem, mem: Mem)
    requires BubM(m)
    ensures BubW(MemStage(m, mem)) && Store(mem, m) == mem
  {
  }

  lemma ExecuteStep(e: IdEx, m: ExMem, w': MemWb, s: State)
    requires EAgrees(e, m, IdealE(s))
    requires StaleStore(e, m) ==> w'.valM == IdealE(s).valA
    ensures MAgrees(ExStage(e, m, w', s.cc), IdealM(s))
    ensures (if SetsCC(e.icode) then ExCC(e) else s.cc) == After(s).cc
  {
    hide IdealE, ComputeAlu, ComputeCC, CondHolds, GetWord, SetWord, GetReg, SetReg, NextPc, MemStage, Store;
  }

  lemma BubbleExecuteStep(e: IdEx, m: ExMem, w': MemWb, cc: CC)
    requires BubE(e)
    ensures BubM(ExStage(e, m, w', cc))
  {
  }

  /** Decode with forwarding, given that the run's register file at this instruction is the drained one
      with the value still being loaded (if any) on top. */
  lemma DecodeStep(d: IfId, reg: RegFile, m': ExMem, m: ExMem, w': MemWb, w: MemWb, s: State, loaded: Word)
    requires d == IdealD(s) && (UsesNone(d) ==> Forward(REG_NONE, 0, m', m, w', w) == 0)
    requires s.r == SetReg(Drained(reg, m', m, w', w), m'.dstM, loaded)
    requires UsesB(d.icode) && m'.dstM == SrcB(d.icode, d.rb) ==>
               m'.dstM == REG_NONE || loaded == GetReg(Drained(reg, m', m, w', w), m'.dstM)
    requires UsesA(d.icode) && d.icode != I_CALL && d.icode != I_JMP && m'.dstM == SrcA(d.icode, d.ra) ==>
               || m'.dstM == REG_NONE || (m'.icode == I_MRMOVQ && d.icode == I_RMMOVQ)
               || loaded == GetReg(Drained(reg, m', m, w', w), m'.dstM)
    ensures EAgrees(DecodeStage(d, reg, m', m, w', w), m', IdealE(s))
  {
    var srcA, srcB := SrcA(d.icode, d.ra), SrcB(d.icode, d.rb);
    var r := Drained(reg, m', m, w', w);
    RegReadWrite(r, m'.dstM, loaded, srcA);
    RegReadWrite(r, m'.dstM, loaded, srcB);
    hide GetReg, SetReg, FetchStage, Drained, Forward;
    if RegValid(srcA) {
      ForwardExact(srcA, reg, m', m, w', w);
    }
    if RegValid(srcB) {
      ForwardExact(srcB, reg, m', m, w', w);
    }
    Seq.NoRegisterReadsZero(reg);
    Seq.NoRegisterReadsZero(s.r);
  }

  lemma BubbleDecodeStep(d: IfId, reg: RegFile, m': ExMem, m: ExMem, w': MemWb, w: MemWb)
    requires BubD(d)
    ensures BubE(DecodeStage(d, reg, m', m, w', w))
  {
  }

  lemma BubbleWriteBack(r: RegFile, w: MemWb)
    requires BubW(w)
    ensures WriteBack(r, w) == r
  {
    SetNone(r, w.valE);
    SetNone(r, w.valM);
    hide SetReg;
  }

  /** A load behind an `mrmovq` delivers the value the store data is repaired with. */
  lemma RepairedStoreData(e: IdEx, m: ExMem, s: State, t: State)
    requires MAgrees(m, IdealM(s)) && LoadOk(IdealD(s))
    requires t.r == WriteBack(s.r, IdealW(s))
    requires EAgrees(e, m, IdealE(t)) && StaleStore(e, m)
    ensures IdealW(s).valM == IdealE(t).valA
  {
    var w := IdealW(s);
    RegReadWrite(SetReg(s.r, w.dstE, w.valE), w.dstM, w.valM, e.srcA);
    hide IdealD, GetReg, SetReg, GetWord, ComputeAlu, CondHolds;
  }

  // ---------- preservation ----------

  /** Statuses along the ideal contents of one instruction. */
  lemma SameStat(s: State)
    ensures IdealE(s).stat == IdealD(s).stat && IdealM(s).stat == IdealD(s).stat
    ensures IdealE(s).icode == IdealM(s).icode == IdealW(s).icode == IdealD(s).icode
    ensures IdealE(s).ifun == IdealM(s).ifun == IdealD(s).ifun
    ensures IdealM(s).takeBranch == CondHolds(s.cc, IdealD(s).ifun)
    ensures IdealE(s).dstM == IdealM(s).dstM == IdealW(s).dstM == DstM(IdealD(s).icode, IdealD(s).ra)
    ensures IdealW(s).dstE == IdealM(s).dstE && IdealW(s).valE == IdealM(s).valE
    ensures IdealD(s).icode == I_JMP ==> IdealM(s).valA == IdealD(s).valP
  {
    hide IdealD, GetReg, GetWord, ComputeAlu, CondHolds, DstM;
  }

  /** Writing back the instruction in W moves the registers one state along the run. */
  lemma WriteBackAdvance(r: RegFile, w: MemWb, run: seq<State>, a: nat)
    requires Instr(run, a) && r == run[a].r && !Last(run, a, w.stat)
    requires BubW(w) || w == IdealW(run[a])
    ensures a + Occ(w.stat) < |run| && WriteBack(r, w) == run[a + Occ(w.stat)].r
  {
    if BubW(w) {
      BubbleWriteBack(r, w);
    } else {
      AfterParts(run[a]);
    }
    hide IdealD, IdealW, StoreHazard, WriteBack, After;
  }

  lemma AfterParts(s: State)
    ensures After(s).r == WriteBack(s.r, IdealW(s))
    ensures After(s).m == Store(s.m, IdealM(s))
  {
  }

  /** The memory stage turns the instruction in M into its write-back contents, and its store moves
      memory one state along the run. */
  lemma MemoryAdvance(m: ExMem, mem: Mem, run: seq<State>, i: nat)
    requires Instr(run, i) && mem == run[i].m
    requires BubM(m) || MAgrees(m, IdealM(run[i]))
    ensures var w' := MemStage(m, mem);
            && (BubW(w') || w' == IdealW(run[i]))
            && (BubM(m) <==> m.stat == BUB) && (BubM(m) <==> BubW(w'))
            && (if Last(run, i, m.stat) then Bad(w'.stat) && Store(mem, m) == mem
                else
                  && (w'.stat == m.stat == AOK || w'.stat == m.stat == BUB)
                  && i + Occ(m.stat) < |run| && Store(mem, m) == run[i + Occ(m.stat)].m)
  {
    hide IdealD, IdealE, IdealM, IdealW, StoreHazard, Store, MemStage, After, SetWord, GetWord;
    if BubM(m) {
      BubbleMemoryStep(m, mem);
    } else {
      SameStat(run[i]);
      MemoryStep(m, run[i]);
      AfterParts(run[i]);
    }
  }

  /** The execute stage turns the instruction in E into its memory-stage contents, sets the flags of the
      next state, and detects exactly the branches that are not taken. */
  lemma ExecuteAdvance(e: IdEx, m: ExMem, w': MemWb, run: seq<State>, i: nat, j: nat)
    requires Instr(run, i) && Instr(run, j) && j == i + Occ(m.stat)
    requires BubM(m) || MAgrees(m, IdealM(run[i]))
    requires BubM(m) || w' == IdealW(run[i])
    requires run[j].r == WriteBack(run[i].r, w')
    requires BubE(e) || EAgrees(e, m, IdealE(run[j]))
    ensures var m' := ExStage(e, m, w', run[j].cc);
            && (BubM(m') || MAgrees(m', IdealM(run[j])))
            && m'.stat == e.stat && (BubE(e) <==> e.stat == BUB)
            && (Last(run, j, e.stat) ==> !SetsCC(e.icode) && e.icode != I_JMP)
            && (!Last(run, j, e.stat) ==>
                  && (e.stat == AOK || e.stat == BUB) && j + Occ(e.stat) < |run|
                  && (if SetsCC(e.icode) then ExCC(e) else run[j].cc) == run[j + Occ(e.stat)].cc)
            && (Mispredicted(e, m') <==> NotTaken(e.icode, e.ifun, run[j]))
  {
    hide IdealD, IdealE, IdealM, IdealW, StoreHazard, After, WriteBack, CondHolds;
    if BubE(e) {
      BubbleExecuteStep(e, m, w', run[j].cc);
    } else {
      SameStat(run[j]);
      if StaleStore(e, m) {
        RepairedStoreData(e, m, run[i], run[j]);
      }
      ExecuteStep(e, m, w', run[j]);
    }
    hide ExCC, GenEValA, GenEDstE, AluA, AluB, AluFun, ComputeAlu;
  }

  /** The registers seen by the instruction in D are the drained ones, with the load in E on top. */
  lemma DrainedAdvance(e: IdEx, m: ExMem, w: MemWb, w': MemWb, run: seq<State>, a: nat, i: nat, j: nat)
    requires Instr(run, a) && Instr(run, i) && Instr(run, j)
    requires i == a + Occ(w.stat) && j == i + Occ(m.stat)
    requires run[i].r == WriteBack(run[a].r, w) && run[j].r == WriteBack(run[i].r, w')
    requires w'.dstE == m.dstE && w'.valE == m.valE && w'.dstM == m.dstM
    requires e.stat != HLT && j + Occ(e.stat) < |run|
    requires BubE(e) || EAgrees(e, m, IdealE(run[j]))
    requires var m' := ExStage(e, m, w', run[j].cc); BubE(e) || MAgrees(m', IdealM(run[j]))
    ensures var m' := ExStage(e, m, w', run[j].cc);
            run[j + Occ(e.stat)].r ==
            SetReg(Drained(run[a].r, m', m, w', w), m'.dstM, if BubE(e) then 0 else IdealW(run[j]).valM)
    ensures var m' := ExStage(e, m, w', run[j].cc);
            BubE(e) || Drained(run[a].r, m', m, w', w) == SetReg(run[j].r, IdealM(run[j]).dstE, IdealM(run[j]).valE)
  {
    hide IdealD, IdealE, IdealM, IdealW, StoreHazard, After, SetReg, CondHolds;
    hide ExCC, GenEValA, AluA, AluB, AluFun, ComputeAlu, MemStage, Store;
    SameStat(run[j]);
    AfterParts(run[j]);
    if BubE(e) {
      var m' := ExStage(e, m, w', run[j].cc);
      SetNone(run[j].r, m'.valE);
      SetNone(run[j].r, 0);
    }
  }

  /** Decode, unless the instruction has to wait for a load. */
  lemma DecodeAdvance(d: IfId, e: IdEx, m': ExMem, m: ExMem, w': MemWb, w: MemWb,
                      run: seq<State>, a: nat, j: nat, loaded: Word)
    requires Instr(run, a) && Instr(run, j) && j + Occ(e.stat) < |run| && Instr(run, j + Occ(e.stat))
    requires BubE(e) || (EAgrees(e, m, IdealE(run[j])) && e.stat == AOK)
    requires m'.icode == e.icode && m'.dstM == e.dstM
    requires BubD(d) || d == IdealD(run[j + Occ(e.stat)])
    requires !BubD(d) && UsesNone(d) && !LoadUse(d, e, DecodeStage(d, run[a].r, m', m, w', w)) ==>
               Forward(REG_NONE, 0, m', m, w', w) == 0
    requires run[j + Occ(e.stat)].r == SetReg(Drained(run[a].r, m', m, w', w), m'.dstM, loaded)
    requires BubE(e) || (loaded == IdealW(run[j]).valM &&
                         Drained(run[a].r, m', m, w', w) == SetReg(run[j].r, IdealM(run[j]).dstE, IdealM(run[j]).valE))
    ensures var e' := DecodeStage(d, run[a].r, m', m, w', w);
            && e'.stat == d.stat && e'.icode == d.icode && e'.ifun == d.ifun
            && (BubD(d) ==> BubE(e') && !LoadUse(d, e, e'))
            && (!BubD(d) && !LoadUse(d, e, e') ==> EAgrees(e', m', IdealE(run[j + Occ(e.stat)])))
  {
    hide IdealD, IdealE, IdealM, IdealW, After, SetReg, GetReg, Drained, Forward, Store;
    SameStat(run[j]);
    var e' := DecodeStage(d, run[a].r, m', m, w', w);
    if BubD(d) {
      BubbleDecodeStep(d, run[a].r, m', m, w', w);
    } else if !LoadUse(d, e, e') {
      DecodeStep(d, run[a].r, m', m, w', w, run[j + Occ(e.stat)], loaded);
    }
  }

  /** Where control goes: the predicted pc, the fall-through of a branch not taken, the popped address. */
  lemma NextPcParts(s: State)
    ensures NotTaken(IdealD(s).icode, IdealD(s).ifun, s) ==> After(s).pc == IdealM(s).valA
    ensures IdealD(s).icode == I_RET ==> After(s).pc == IdealW(s).valM
    ensures IdealD(s).icode != I_RET && !NotTaken(IdealD(s).icode, IdealD(s).ifun, s) ==>
              After(s).pc == GenPredPC(IdealD(s).icode, IdealD(s).valC, IdealD(s).valP)
  {
    hide FetchStage, GetReg, SetReg, GetWord, SetWord, ComputeAlu, CondHolds, WriteBack, Store;
  }

  /** The stage results that `Compute` collects. */
  predicate Signals(c: Core, p: Pending) {
    && p.w == MemStage(c.m, c.mem)
    && p.m == ExStage(c.e, c.m, p.w, c.cc)
    && p.e == DecodeStage(c.d, c.reg, p.m, c.m, p.w, c.w)
    && p.d == FetchStage(c.mem, GenFPc(c))
    && p.f == FetchPc(p.d)
    && p.ccIn == (if GenSetCC(c.e, p.w, c.w) then ExCC(c.e) else c.cc)
  }

  lemma SignalsFacts(c: Core)
    ensures Signals(c, Compute(c, c.cc))
  {
    hide MemStage, ExStage, DecodeStage, FetchStage, ExCC, GetReg;
  }

  /** A redirected fetch leaves the stages between it and the redirecting instruction empty. */
  ghost predicate Redirects(c: Core) {
    && (c.w.icode == I_RET ==> BubM(c.m) && BubE(c.e) && BubD(c.d))
    && (c.m.icode == I_RET || (c.m.icode == I_JMP && !c.m.takeBranch) ==> BubE(c.e) && BubD(c.d))
  }

  lemma RedirectsKept(c: Core, p: Pending, c': Core)
    requires Edge(c, p, c') && Redirects(c) && !Bad(p.w.stat)
    requires p.w.icode == c.m.icode && p.m.icode == c.e.icode
    requires BubE(c.e) ==> BubM(p.m)
    requires !Mispredicted(c.e, p.m) && BubD(c.d) ==> BubE(p.e) && !LoadUse(c.d, c.e, p.e)
    requires c.e.icode == I_RET ==> BubD(c.d)
    ensures Redirects(c')
  {
  }

  /** A branch that is not taken empties decode and execute and redirects the fetch. */
  lemma MispredictStep(c: Core, p: Pending, c': Core, run: seq<State>, j: nat)
    requires j + 1 < |run| && After(run[j]) == run[j + 1]
    requires Edge(c, p, c') && !Bad(p.w.stat) && Mispredicted(c.e, p.m)
    requires MAgrees(p.m, IdealM(run[j])) && NotTaken(IdealD(run[j]).icode, IdealD(run[j]).ifun, run[j])
    requires p.m.icode == I_JMP
    ensures InvE(c', run, j + 1)
  {
    hide After, IdealD, IdealM, IdealE, CondHolds, WriteBack, Store, LoadUse, RetPending;
    SameStat(run[j]);
    NextPcParts(run[j]);
  }

  /** A load-use stall holds decode and fetch and sends a bubble to execute. */
  lemma StallStep(c: Core, p: Pending, c': Core, run: seq<State>, k: nat)
    requires k < |run| && Edge(c, p, c') && !Bad(p.w.stat) && Redirects(c)
    requires p.w.icode == c.m.icode && p.m.icode == c.e.icode
    requires LoadUse(c.d, c.e, p.e) && InvD(c, run, k)
    ensures InvE(c', run, k)
  {
    hide IdealD, CondHolds, WriteBack, Store;
  }

  /** A fetch from the right address delivers the run's next instruction and predicts where it leads. */
  lemma FetchAdvance(c: Core, p: Pending, run: seq<State>, i: nat, f: nat)
    requires PipeRun(run) && i <= f < |run| && f <= i + 3 && (f + 1 < |run| || Ends(run))
    requires c.mem == run[i].m && Signals(c, p) && GenFPc(c) == run[f].pc
    ensures p.d == IdealD(run[f]) && p.d.stat != BUB
    ensures !Last(run, f, p.d.stat) && p.d.icode != I_RET && !NotTaken(p.d.icode, p.d.ifun, run[f]) ==>
              f + 1 < |run| && p.f.pc == run[f + 1].pc
  {
    hide PipeRun, IdealD, IdealM, IdealW, After, CondHolds, FetchStage, MemStage, ExStage, DecodeStage, ExCC;
    FetchEarly(run, i, f);
    InstrFacts(run, f);
    NextPcParts(run[f]);
  }

  /** Without a disturbance decode passes its instruction on and takes the one being fetched. */
  lemma FlowStep(c: Core, p: Pending, c': Core, run: seq<State>, k: nat, f: nat)
    requires k < |run| && f == k + Occ(c.d.stat)
    requires !Last(run, k, c.d.stat) ==> f < |run|
    requires Edge(c, p, c') && !Bad(p.w.stat) && Redirects(c)
    requires p.w.icode == c.m.icode && p.m.icode == c.e.icode
    requires !LoadUse(c.d, c.e, p.e) && !Mispredicted(c.e, p.m) && InvD(c, run, k)
    requires p.e.stat == c.d.stat && p.e.icode == c.d.icode && p.e.ifun == c.d.ifun
    requires if BubD(c.d) then BubE(p.e) else EAgrees(p.e, p.m, IdealE(run[k]))
    requires c.m.icode == I_RET ==> p.w.valM == run[k].pc
    requires Last(run, k, c.d.stat) || RetPending(c.d, c.e, c.m) || NotTaken(c.d.icode, c.d.ifun, run[k]) ||
             (p.d == IdealD(run[f]) && p.d.stat != BUB &&
              (Last(run, f, p.d.stat) || p.d.icode == I_RET || NotTaken(p.d.icode, p.d.ifun, run[f]) ||
               (f + 1 < |run| && p.f.pc == run[f + 1].pc)))
    ensures InvE(c', run, k)
  {
    hide IdealD, IdealE, CondHolds, WriteBack, Store, EAgrees;
  }

  /** What the back end has done by the end of a cycle: registers, memory and flags are at the states
      of the run the stage contents say, and execute's result is that of instruction `j`. */
  ghost predicate BackEnd(c: Core, p: Pending, run: seq<State>, a: nat, i: nat, j: nat) {
    && a <= i <= j < |run| && i == a + Occ(c.w.stat) && j == i + Occ(c.m.stat)
    && c.reg == run[a].r && c.mem == run[i].m && c.cc == run[j].cc && Spaced(c, run, a)
    && run[i].r == WriteBack(run[a].r, c.w) && run[j].r == WriteBack(run[i].r, p.w)
    && Store(c.mem, c.m) == run[j].m
    && (BubW(c.w) || c.w == IdealW(run[a]))
    && (BubW(p.w) || p.w == IdealW(run[i])) && p.w.stat == c.m.stat && !Bad(p.w.stat)
    && (if BubM(c.m) then BubW(p.w) else MAgrees(c.m, IdealM(run[i])) && p.w == IdealW(run[i]))
    && (BubM(p.m) || MAgrees(p.m, IdealM(run[j])))
    && (BubE(c.e) || EAgrees(c.e, c.m, IdealE(run[j])))
    && p.m.stat == c.e.stat && (BubE(c.e) <==> c.e.stat == BUB)
    && (Mispredicted(c.e, p.m) <==> NotTaken(c.e.icode, c.e.ifun, run[j]))
    && (if Last(run, j, c.e.stat) then p.ccIn == run[j].cc
        else
          && (c.e.stat == AOK || c.e.stat == BUB)
          && j + Occ(c.e.stat) < |run| && p.ccIn == run[j + Occ(c.e.stat)].cc)
  }

  lemma BackEndAdvance(c: Core, p: Pending, run: seq<State>, a: nat, i: nat)
    requires PipeRun(run) && Room(run, a) && a < |run| && i == a + Occ(c.w.stat) && i < |run|
    requires c.reg == run[a].r && c.mem == run[i].m && !Last(run, a, c.w.stat) && Spaced(c, run, a)
    requires BubW(c.w) || c.w == IdealW(run[a])
    requires InvM(c, run, i) && !Bad(c.w.stat) && !Last(run, i, c.m.stat) && Signals(c, p)
    ensures i + Occ(c.m.stat) < |run| && BackEnd(c, p, run, a, i, i + Occ(c.m.stat))
    ensures Redirects(c) && InvE(c, run, i + Occ(c.m.stat))
  {
    var j := i + Occ(c.m.stat);
    hide IdealD, IdealE, IdealM, IdealW, After, MemStage, DecodeStage, FetchStage, WriteBack, Store, FetchPc;
    hide CondHolds, ExCC, PipeRun, Instr, EAgrees, MAgrees, InvD, GenFPc;
    InstrFacts(run, a);
    InstrFacts(run, i);
    InstrFacts(run, j);
    WriteBackAdvance(c.reg, c.w, run, a);
    MemoryAdvance(c.m, c.mem, run, i);
    WriteBackAdvance(run[i].r, p.w, run, i);
    ExecuteAdvance(c.e, c.m, p.w, run, i, j);
  }

  /** What decode delivers for the instruction it holds. */
  ghost predicate Decoded(c: Core, p: Pending, s: State) {
    && p.e.stat == c.d.stat && p.e.icode == c.d.icode && p.e.ifun == c.d.ifun
    && (BubD(c.d) ==> BubE(p.e) && !LoadUse(c.d, c.e, p.e))
    && (!BubD(c.d) && !LoadUse(c.d, c.e, p.e) ==> EAgrees(p.e, p.m, IdealE(s)))
  }

  /** "No register" forwards what `NoneValue` says: bubbles between the instructions of the run carry 0. */
  lemma NoneForward(c: Core, p: Pending, run: seq<State>, a: nat, i: nat, j: nat)
    requires BackEnd(c, p, run, a, i, j) && !Last(run, j, c.e.stat)
    requires BubE(c.e) ==> BubM(p.m)
    requires Redirects(c) && c.e.icode != I_RET && c.d == IdealD(run[j + Occ(c.e.stat)])
    requires p.e.srcA == SrcA(c.d.icode, c.d.ra) && p.e.srcB == SrcB(c.d.icode, c.d.rb)
    requires !LoadUse(c.d, c.e, p.e)
    requires var k := j + Occ(c.e.stat); Instr(run, k) && UsesNone(IdealD(run[k]))
    ensures Forward(REG_NONE, 0, p.m, c.m, p.w, c.w) == 0
  {
    hide IdealD, IdealE, IdealM, IdealW, WriteBack, Store, CondHolds;
    SameStat(run[a]);
    SameStat(run[i]);
    SameStat(run[j]);
  }

  lemma DecodeResult(c: Core, p: Pending, run: seq<State>, a: nat, i: nat, j: nat)
    requires PipeRun(run) && Room(run, a) && BackEnd(c, p, run, a, i, j) && Signals(c, p)
    requires Redirects(c) && (c.e.icode == I_RET ==> BubD(c.d)) && !Last(run, j, c.e.stat)
    requires BubD(c.d) || c.d == IdealD(run[j + Occ(c.e.stat)])
    ensures Decoded(c, p, run[j + Occ(c.e.stat)])
  {
    hide IdealD, IdealE, IdealM, IdealW, After, MemStage, DecodeStage, FetchStage, WriteBack, Store;
    hide CondHolds, ExCC, PipeRun, FetchPc, GenFPc, Instr, Drained, EAgrees, MAgrees;
    StageFields(c, p);
    InstrFacts(run, a);
    InstrFacts(run, i);
    InstrFacts(run, j);
    InstrFacts(run, j + Occ(c.e.stat));
    if !BubD(c.d) && UsesNone(c.d) && !LoadUse(c.d, c.e, p.e) {
      NoneForward(c, p, run, a, i, j);
    }
    DrainedAdvance(c.e, c.m, c.w, p.w, run, a, i, j);
    DecodeAdvance(c.d, c.e, p.m, c.m, p.w, c.w, run, a, j, if BubE(c.e) then 0 else IdealW(run[j]).valM);
  }

  lemma BranchStep(c: Core, p: Pending, c': Core, run: seq<State>, a: nat, i: nat, j: nat)
    requires PipeRun(run) && Room(run, a) && BackEnd(c, p, run, a, i, j) && Signals(c, p)
    requires Edge(c, p, c') && Redirects(c)
    requires !Last(run, j, c.e.stat) && Mispredicted(c.e, p.m)
    ensures Redirects(c') && InvE(c', run, j + Occ(c.e.stat))
  {
    hide IdealD, IdealE, IdealM, IdealW, After, MemStage, ExStage, DecodeStage, FetchStage, WriteBack, Store;
    hide CondHolds, ExCC, PipeRun, FetchPc, GenFPc;
    StageFields(c, p);
    InstrFacts(run, j);
    SameStat(run[j]);
    MispredictStep(c, p, c', run, j);
    RedirectsKept(c, p, c');
  }

  /** Decode, stall or fetch behind a back end that is not redirected by a branch. */
  lemma FrontStep(c: Core, p: Pending, c': Core, run: seq<State>, a: nat, i: nat, j: nat)
    requires PipeRun(run) && Room(run, a) && BackEnd(c, p, run, a, i, j) && Signals(c, p)
    requires Edge(c, p, c') && Redirects(c) && InvE(c, run, j)
    requires !Last(run, j, c.e.stat) && !Mispredicted(c.e, p.m)
    ensures Redirects(c') && InvE(c', run, j + Occ(c.e.stat))
  {
    var k := j + Occ(c.e.stat);
    hide IdealD, IdealE, IdealM, IdealW, After, MemStage, ExStage, DecodeStage, FetchStage, WriteBack, Store;
    hide CondHolds, ExCC, PipeRun, FetchPc, GenFPc, EAgrees, Instr;
    StageFields(c, p);
    DecodeResult(c, p, run, a, i, j);
    RedirectsKept(c, p, c');
    ReturnAddress(c, p, run, a, i, j);
    if LoadUse(c.d, c.e, p.e) {
      StallStep(c, p, c', run, k);
    } else {
      var f := k + Occ(c.d.stat);
      if !(Last(run, k, c.d.stat) || RetPending(c.d, c.e, c.m) || NotTaken(c.d.icode, c.d.ifun, run[k])) {
        FetchAdvance(c, p, run, i, f);
      }
      FlowStep(c, p, c', run, k, f);
    }
  }

  /** The address a `ret` pops is where the run continues. */
  lemma ReturnAddress(c: Core, p: Pending, run: seq<State>, a: nat, i: nat, j: nat)
    requires PipeRun(run) && Room(run, a) && BackEnd(c, p, run, a, i, j) && Redirects(c)
    ensures c.m.icode == I_RET ==> c.e.stat == BUB && p.w.valM == run[j].pc
  {
    hide IdealD, IdealE, IdealM, IdealW, After, MemStage, WriteBack, Store, CondHolds, PipeRun;
    InstrFacts(run, i);
    SameStat(run[i]);
    NextPcParts(run[i]);
  }

  /** Fields that the stages pass through unchanged. */
  lemma StageFields(c: Core, p: Pending)
    requires Signals(c, p)
    ensures p.e.srcA == SrcA(c.d.icode, c.d.ra) && p.e.srcB == SrcB(c.d.icode, c.d.rb)
    ensures p.w.icode == c.m.icode && p.w.dstE == c.m.dstE && p.w.valE == c.m.valE && p.w.dstM == c.m.dstM
    ensures p.m.icode == c.e.icode && p.m.dstM == c.e.dstM
    ensures p.m.stat == c.e.stat
    ensures BubE(c.e) ==> BubM(p.m)
    ensures BubD(c.d) ==> BubE(p.e)
  {
    hide FetchStage, ExCC, ComputeAlu, GetWord, GetReg, Forward;
    if BubE(c.e) {
      BubbleExecuteStep(c.e, c.m, p.w, c.cc);
    }
  }

  lemma AssembleM(c: Core, p: Pending, c': Core, run: seq<State>, a: nat, i: nat, j: nat)
    requires Edge(c, p, c') && BackEnd(c, p, run, a, i, j)
    requires !Last(run, j, c.e.stat) ==> Redirects(c') && InvE(c', run, j + Occ(c.e.stat))
    ensures InvM(c', run, j)
  {
    hide IdealM, IdealW, IdealE, WriteBack, Store, MAgrees, EAgrees, InvE, CondHolds, LoadUse, RetPending, BubE, BubD;
  }

  /** One cycle keeps the invariant for the memory stage and everything younger. */
  lemma InvMStep(c: Core, run: seq<State>, a: nat, i: nat)
    requires PipeRun(run) && Room(run, a) && a < |run| && i == a + Occ(c.w.stat) && i < |run|
    requires c.reg == run[a].r && c.mem == run[i].m && !Last(run, a, c.w.stat) && Spaced(c, run, a)
    requires BubW(c.w) || c.w == IdealW(run[a])
    requires InvM(c, run, i) && !Bad(c.w.stat) && !Last(run, i, c.m.stat)
    ensures i + Occ(c.m.stat) < |run| && InvM(Next(c), run, i + Occ(c.m.stat))
    ensures Spaced(Next(c), run, i)
  {
    var p, c' := Compute(c, c.cc), Next(c);
    var j := i + Occ(c.m.stat);
    hide Compute, Next, Signals, Edge, BackEnd, Redirects, InvM, InvE, IdealW, PipeRun, Mispredicted;
    EdgeFacts(c);
    SignalsFacts(c);
    BackEndAdvance(c, p, run, a, i);
    if !Last(run, j, c.e.stat) {
      if Mispredicted(c.e, p.m) {
        BranchStep(c, p, c', run, a, i, j);
      } else {
        FrontStep(c, p, c', run, a, i, j);
      }
    }
    AssembleM(c, p, c', run, a, i, j);
    StageFields(c, p);
    SpacedStep(c, p, c', run, a, i, j);
  }

  lemma SpacedStep(c: Core, p: Pending, c': Core, run: seq<State>, a: nat, i: nat, j: nat)
    requires BackEnd(c, p, run, a, i, j) && Edge(c, p, c') && InvE(c, run, j)
    requires p.e.srcA == SrcA(c.d.icode, c.d.ra) && p.e.srcB == SrcB(c.d.icode, c.d.rb)
    requires BubD(c.d) ==> BubE(p.e)
    requires p.m.stat == c.e.stat
    ensures Spaced(c', run, i)
  {
    hide IdealD, IdealE, IdealM, IdealW, WriteBack, Store, CondHolds, SrcA, SrcB;
    SameStat(run[j]);
  }

  /** One cycle keeps the invariant, with `a` moving past the instruction written back. */
  lemma InvStep(c: Core, run: seq<State>, a: nat)
    requires PipeRun(run) && Room(run, a) && Inv(c, run, a) && !Bad(c.w.stat)
    ensures Inv(Next(c), run, a + Occ(c.w.stat))
  {
    var i := a + Occ(c.w.stat);
    var p := Compute(c, c.cc);
    hide Compute, Next, IdealD, IdealE, IdealM, IdealW, After, MemStage, ExStage, DecodeStage, FetchStage;
    hide WriteBack, Store, CondHolds, ExCC, PipeRun, MAgrees, InvE, FetchPc, GenFPc, LoadUse;
    hide RetPending, BubE, BubD, Instr, Redirects;
    WriteBackStat(c, run, a);
    InstrFacts(run, a);
    InstrFacts(run, i);
    EdgeFacts(c);
    SignalsFacts(c);
    WriteBackAdvance(c.reg, c.w, run, a);
    MemoryAdvance(c.m, c.mem, run, i);
    if !Last(run, i, c.m.stat) {
      InvMStep(c, run, a, i);
    }
  }

  /** Write-back holds a bad status exactly when it holds the instruction that ends the run. */
  lemma WriteBackStat(c: Core, run: seq<State>, a: nat)
    requires PipeRun(run) && Room(run, a) && Inv(c, run, a)
    ensures if Last(run, a, c.w.stat) then Bad(c.w.stat) && c.w == IdealW(run[a])
            else c.w.stat == AOK || c.w.stat == BUB
  {
    InstrFacts(run, a);
    hide IdealD, IdealW, After, PipeRun, InvM;
  }
}
