/** The five-stage pipelined processor: pipe registers, the control logic of `pipe-full.c`, the stage
    computations of `psim.c` and the simulation loop, as functions on values. `PipeSim` holds the
    stateful simulator that computes them. */
module Pipe {
  import opened Words
  import opened Memory
  import opened Isa
  import opened Control

  // ---------- pipe registers ----------

  datatype PcReg = PcReg(pc: Word, stat: Stat)

  datatype IfId = IfId(icode: Nibble, ifun: Nibble, ra: Nibble, rb: Nibble, valC: Word, valP: Word,
                       stat: Stat, stagePc: Word)

  datatype IdEx = IdEx(icode: Nibble, ifun: Nibble, valC: Word, valA: Word, valB: Word,
                       srcA: Nibble, srcB: Nibble, dstE: Nibble, dstM: Nibble, stat: Stat, stagePc: Word)

  datatype ExMem = ExMem(icode: Nibble, ifun: Nibble, takeBranch: bool, valE: Word, valA: Word,
                         dstE: Nibble, dstM: Nibble, srcA: Nibble, stat: Stat, stagePc: Word)

  datatype MemWb = MemWb(icode: Nibble, ifun: Nibble, valE: Word, valM: Word,
                         dstE: Nibble, dstM: Nibble, stat: Stat, stagePc: Word)

  const BUBBLE_F := PcReg(0, AOK)
  const BUBBLE_D := IfId(I_NOP, 0, REG_NONE, REG_NONE, 0, 0, BUB, 0)
  const BUBBLE_E := IdEx(I_NOP, 0, 0, 0, 0, REG_NONE, REG_NONE, REG_NONE, REG_NONE, BUB, 0)
  // the initialiser in psim.c:1369 gives no value for srca, so its last two values shift by one field
  const BUBBLE_M := ExMem(I_NOP, 0, false, 0, 0, REG_NONE, REG_NONE, 0, BUB, 0)
  const BUBBLE_W := MemWb(I_NOP, 0, 0, 0, REG_NONE, REG_NONE, BUB, 0)

  datatype Op = LOAD | STALL | BUBBLE | ERROR

  /** The `current` halves of the five pipe registers, with the program-visible state. */
  datatype Core = Core(f: PcReg, d: IfId, e: IdEx, m: ExMem, w: MemWb, reg: RegFile, mem: Mem, cc: CC)

  /** What a cycle leaves for the next one: the `next` halves, the pipe operations and the pending
      updates of registers, memory and condition codes. */
  datatype Pending = Pending(f: PcReg, d: IfId, e: IdEx, m: ExMem, w: MemWb,
                             opF: Op, opD: Op, opE: Op, opM: Op, opW: Op,
                             wbDstE: Nibble, wbValE: Word, wbDstM: Nibble, wbValM: Word,
                             memWrite: bool, memAddr: Word, memData: Word, ccIn: CC)

  datatype Machine = Machine(cur: Core, pend: Pending)

  // ---------- control logic ----------

  predicate Bad(s: Stat) { s == ADR || s == INS || s == HLT }

  function GenFPc(c: Core): Word {
    if c.m.icode == I_JMP && !c.m.takeBranch then c.m.valA
    else if c.w.icode == I_RET then c.w.valM
    else c.f.pc
  }

  function GenFStat(imemError: bool, icode: Nibble): Stat {
    if imemError then ADR else if !InstrValid(icode) then INS else if icode == I_HALT then HLT else AOK
  }

  function GenPredPC(icode: Nibble, valC: Word, valP: Word): Word {
    if icode == I_JMP || icode == I_CALL then valC else valP
  }

  function GenDstE(icode: Nibble, rb: Nibble): Nibble {
    if icode == I_RRMOVQ || icode == I_IRMOVQ || icode == I_ALU || icode == I_IADDQ then rb
    else if icode == I_PUSHQ || icode == I_POPQ || icode == I_CALL || icode == I_RET then REG_RSP
    else REG_NONE
  }

  /** The forwarding network: the youngest pending write of `src`, or the register file's value. */
  function Forward(src: Nibble, regVal: Word, m': ExMem, m: ExMem, w': MemWb, w: MemWb): Word {
    if src == m'.dstE then m'.valE
    else if src == m.dstM then w'.valM
    else if src == m.dstE then m.valE
    else if src == w.dstM then w.valM
    else if src == w.dstE then w.valE
    else regVal
  }

  function GenDValA(d: IfId, src: Nibble, regVal: Word, m': ExMem, m: ExMem, w': MemWb, w: MemWb): Word {
    if d.icode == I_CALL || d.icode == I_JMP then d.valP else Forward(src, regVal, m', m, w', w)
  }

  predicate GenSetCC(e: IdEx, w': MemWb, w: MemWb) {
    SetsCC(e.icode) && !Bad(w'.stat) && !Bad(w.stat)
  }

  function GenEValA(e: IdEx, m: ExMem, w': MemWb): Word {
    if m.icode == I_MRMOVQ && e.icode == I_RMMOVQ && e.srcA == m.dstM then w'.valM else e.valA
  }

  function GenEDstE(e: IdEx, takeBranch: bool): Nibble {
    if e.icode == I_RRMOVQ && !takeBranch then REG_NONE else e.dstE
  }

  function GenStat(w: MemWb): Stat { if w.stat == BUB then AOK else w.stat }

  predicate LoadUse(d: IfId, e: IdEx, e': IdEx) {
    (e.icode == I_MRMOVQ || e.icode == I_POPQ) && (e.dstM == e'.srcA || e.dstM == e'.srcB) &&
    d.icode != I_RMMOVQ
  }

  predicate RetPending(d: IfId, e: IdEx, m: ExMem) {
    d.icode == I_RET || e.icode == I_RET || m.icode == I_RET
  }

  predicate Mispredicted(e: IdEx, m': ExMem) { e.icode == I_JMP && !m'.takeBranch }

  predicate GenFStall(d: IfId, e: IdEx, e': IdEx, m: ExMem) { LoadUse(d, e, e') || RetPending(d, e, m) }

  predicate GenDStall(d: IfId, e: IdEx, e': IdEx) { LoadUse(d, e, e') }

  predicate GenDBubble(d: IfId, e: IdEx, e': IdEx, m: ExMem, m': ExMem) {
    Mispredicted(e, m') || (!LoadUse(d, e, e') && RetPending(d, e, m))
  }

  predicate GenEBubble(d: IfId, e: IdEx, e': IdEx, m': ExMem) { Mispredicted(e, m') || LoadUse(d, e, e') }

  predicate GenMBubble(w: MemWb, w': MemWb) { Bad(w'.stat) || Bad(w.stat) }

  predicate GenWStall(w: MemWb) { Bad(w.stat) }

  function PipeCntl(stall: bool, bubble: bool): Op {
    if stall then (if bubble then ERROR else STALL) else if bubble then BUBBLE else LOAD
  }

  // ---------- stages ----------

  function FetchStage(mem: Mem, fpc: Word): IfId {
    var instr := GetByte(mem, fpc);
    var byte0 := match instr case Some(b) => b case None => Pack(I_NOP, 0);
    // a byte five places further on must be readable too
    var imemError := instr.None? || GetByte(mem, Wrap(fpc + 5)).None?;
    var icode := if imemError then I_NOP else Hi4(byte0);
    var ifun := if imemError then 0 else Lo4(byte0);
    var p1 := Wrap(fpc + 1);
    var regids := if NeedRegids(icode) then GetByte(mem, p1) else None;
    var p2 := if NeedRegids(icode) then Wrap(p1 + 1) else p1;
    var word := if NeedValC(icode) then GetWord(mem, p2) else None;
    IfId(icode, ifun,
         match regids case Some(b) => Hi4(b) case None => REG_NONE,
         match regids case Some(b) => Lo4(b) case None => REG_NONE,
         match word case Some(v) => v case None => 0,
         if NeedValC(icode) then Wrap(p2 + 8) else p2,
         GenFStat(imemError, icode), fpc)
  }

  function FetchPc(d': IfId): PcReg {
    PcReg(GenPredPC(d'.icode, d'.valC, d'.valP), if d'.stat == AOK then AOK else BUB)
  }

  /** The memory stage reads; the write it asks for happens in the next `update_state`. */
  function MemStage(m: ExMem, mem: Mem): MemWb {
    var addr := MemAddr(m.icode, m.valE, m.valA);
    var word := GetWord(mem, addr);
    var valM := if MemRead(m.icode) then (match word case Some(v) => v case None => 0) else 0;
    var dmemError := (MemRead(m.icode) || MemWrite(m.icode)) && word.None?;
    MemWb(m.icode, m.ifun, m.valE, valM, m.dstE, m.dstM, if dmemError then ADR else m.stat, m.stagePc)
  }

  function ExStage(e: IdEx, m: ExMem, w': MemWb, cc: CC): ExMem {
    var take := CondHolds(cc, e.ifun);
    ExMem(e.icode, e.ifun, take,
          ComputeAlu(AluFun(e.icode, e.ifun), AluA(e.icode, e.valA, e.valC), AluB(e.icode, e.valB)),
          GenEValA(e, m, w'), GenEDstE(e, take), e.dstM, e.srcA, e.stat, e.stagePc)
  }

  function ExCC(e: IdEx): CC {
    ComputeCC(AluFun(e.icode, e.ifun), AluA(e.icode, e.valA, e.valC), AluB(e.icode, e.valB))
  }

  function DecodeStage(d: IfId, reg: RegFile, m': ExMem, m: ExMem, w': MemWb, w: MemWb): IdEx {
    var srcA, srcB := SrcA(d.icode, d.ra), SrcB(d.icode, d.rb);
    IdEx(d.icode, d.ifun, d.valC,
         GenDValA(d, srcA, GetReg(reg, srcA), m', m, w', w),
         Forward(srcB, GetReg(reg, srcB), m', m, w', w),
         srcA, srcB, GenDstE(d.icode, d.rb), DstM(d.icode, d.ra), d.stat, d.stagePc)
  }

  /** One cycle's stage computations and stall check, from the `current` halves. `ccIn` keeps its old
      value when the execute stage does not set the condition codes. */
  function Compute(c: Core, ccIn: CC): Pending {
    var d' := FetchStage(c.mem, GenFPc(c));
    var w' := MemStage(c.m, c.mem);
    var m' := ExStage(c.e, c.m, w', c.cc);
    var e' := DecodeStage(c.d, c.reg, m', c.m, w', c.w);
    Pending(FetchPc(d'), d', e', m', w',
            PipeCntl(GenFStall(c.d, c.e, e', c.m), false),
            PipeCntl(GenDStall(c.d, c.e, e'), GenDBubble(c.d, c.e, e', c.m, m')),
            PipeCntl(false, GenEBubble(c.d, c.e, e', m')),
            PipeCntl(false, GenMBubble(c.w, w')),
            PipeCntl(GenWStall(c.w), false),
            c.w.dstE, c.w.valE, c.w.dstM, c.w.valM,
            MemWrite(c.m.icode), MemAddr(c.m.icode, c.m.valE, c.m.valA), c.m.valA,
            if GenSetCC(c.e, w', c.w) then ExCC(c.e) else ccIn)
  }

  // ---------- the clock edge ----------

  function UpdateReg(reg: RegFile, p: Pending): RegFile {
    var r1 := if p.wbDstE != REG_NONE then SetReg(reg, p.wbDstE, p.wbValE) else reg;
    if p.wbDstM != REG_NONE then SetReg(r1, p.wbDstM, p.wbValM) else r1
  }

  function UpdateMem(mem: Mem, p: Pending, update: bool): Mem {
    if update && p.memWrite then
      match SetWord(mem, p.memAddr, p.memData) case Some(m') => m' case None => mem
    else mem
  }

  function UpdatePipe<T>(op: Op, cur: T, next: T, bubble: T, error: T): T {
    match op
    case LOAD => next
    case STALL => cur
    case BUBBLE => bubble
    case ERROR => error
  }

  function UpdatePipes(c: Core, p: Pending): Core {
    c.(f := UpdatePipe(p.opF, c.f, p.f, BUBBLE_F, BUBBLE_F.(stat := PIP)),
       d := UpdatePipe(p.opD, c.d, p.d, BUBBLE_D, BUBBLE_D.(stat := PIP)),
       e := UpdatePipe(p.opE, c.e, p.e, BUBBLE_E, BUBBLE_E.(stat := PIP)),
       m := UpdatePipe(p.opM, c.m, p.m, BUBBLE_M, BUBBLE_M.(stat := PIP)),
       w := UpdatePipe(p.opW, c.w, p.w, BUBBLE_W, BUBBLE_W.(stat := PIP)))
  }

  function Update(k: Machine, updateMem: bool, updateCC: bool): Core {
    var c, p := k.cur, k.pend;
    UpdatePipes(c.(reg := UpdateReg(c.reg, p), mem := UpdateMem(c.mem, p, updateMem),
                   cc := if updateCC then p.ccIn else c.cc), p)
  }

  function AheadMem(k: Machine): int { if k.cur.w.stat != BUB then 1 else 0 }

  function AheadEx(k: Machine): int { AheadMem(k) + (if k.pend.w.stat != BUB then 1 else 0) }

  /** `sim_step_pipe`: one clock edge, then one cycle of computation. `maxInstr` is how many more
      instructions may complete; updates of instructions beyond it are suppressed. */
  function SimStepPipe(k: Machine, maxInstr: int): Machine {
    var c := Update(k, AheadMem(k) < maxInstr, AheadEx(k) < maxInstr);
    Machine(c, Compute(c, k.pend.ccIn))
  }

  function Reset(mem: Mem): Machine {
    Machine(Core(BUBBLE_F, BUBBLE_D, BUBBLE_E, BUBBLE_M, BUBBLE_W, InitState(mem).r, mem, DEFAULT_CC),
            Pending(BUBBLE_F, BUBBLE_D, BUBBLE_E, BUBBLE_M, BUBBLE_W, LOAD, LOAD, LOAD, LOAD, LOAD,
                    REG_NONE, 0, REG_NONE, 0, false, 0, 0, DEFAULT_CC))
  }

  // ---------- the run loop ----------

  datatype Outcome = Outcome(k: Machine, status: Stat, icount: int)

  /** `sim_run_pipe` from the middle: `icount` instructions counted, `ccount` cycles simulated. */
  function SimRunFrom(k: Machine, status: Stat, icount: int, ccount: int, maxInstr: int, maxCycle: int): Outcome
    decreases maxCycle - ccount
  {
    if icount < maxInstr && ccount < maxCycle then
      var k' := SimStepPipe(k, maxInstr - icount);
      var s := GenStat(k'.cur.w);
      var ic := if s != BUB then icount + 1 else icount;
      if s != AOK && s != BUB then Outcome(k', s, ic)
      else SimRunFrom(k', s, ic, ccount + 1, maxInstr, maxCycle)
    else Outcome(k, status, icount)
  }

  function SimRunPipe(k: Machine, maxInstr: int, maxCycle: int): Outcome {
    SimRunFrom(k, AOK, 0, 0, maxInstr, maxCycle)
  }
}
