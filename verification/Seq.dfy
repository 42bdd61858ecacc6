/** The single-cycle processor: `sim_step` computes every signal of one instruction and leaves the
    results pending; the next `sim_step` starts by applying them. */
module Seq {
  import opened Words
  import opened Memory
  import opened Isa
  import opened Control

  /** Results waiting for `update_state`. */
  datatype Pending = Pending(pcIn: Word, ccIn: CC, destE: Nibble, valE: Word, destM: Nibble, valM: Word,
                             memWrite: bool, memAddr: Word, memData: Word)

  /** The state between two calls: `cur` is what the last `update_state` produced. */
  datatype Machine = Machine(cur: State, pend: Pending)

  function Reset(m: Mem): Machine {
    Machine(InitState(m),
            Pending(0, DEFAULT_CC, REG_NONE, 0, REG_NONE, 0, false, 0, 0))
  }

  function UpdateState(s: State, p: Pending): State {
    var r1 := if p.destE != REG_NONE then SetReg(s.r, p.destE, p.valE) else s.r;
    var r2 := if p.destM != REG_NONE then SetReg(r1, p.destM, p.valM) else r1;
    var m' := if p.memWrite then
                (match SetWord(s.m, p.memAddr, p.memData) case Some(m') => m' case None => s.m)
              else s.m;
    State(p.pcIn, r2, m', p.ccIn)
  }

  function GenDstE(icode: Nibble, rb: Nibble, cond: bool): Nibble {
    if icode == I_RRMOVQ && cond then rb
    else if icode == I_IRMOVQ || icode == I_ALU || icode == I_IADDQ then rb
    else if icode == I_PUSHQ || icode == I_POPQ || icode == I_CALL || icode == I_RET then REG_RSP
    else REG_NONE
  }

  function GenMemData(icode: Nibble, valA: Word, valP: Word): Word {
    if icode == I_RMMOVQ || icode == I_PUSHQ then valA else if icode == I_CALL then valP else 0
  }

  function GenStat(memError: bool, icode: Nibble): Stat {
    if memError then ADR else if !InstrValid(icode) then INS else if icode == I_HALT then HLT else AOK
  }

  function GenNewPC(icode: Nibble, cond: bool, valC: Word, valM: Word, valP: Word): Word {
    if icode == I_CALL then valC
    else if icode == I_JMP && cond then valC
    else if icode == I_RET then valM
    else valP
  }

  datatype Fields = Fields(imemError: bool, icode: Nibble, ifun: Nibble, ra: Nibble, rb: Nibble,
                           valC: Word, valP: Word)

  function FetchStage(m: Mem, pc: Word): Fields {
    var instr := GetByte(m, pc);
    var icode := match instr case Some(b) => Hi4(b) case None => I_NOP;
    var ifun := match instr case Some(b) => Lo4(b) case None => 0;
    var p1 := Wrap(pc + 1);
    var regids := if NeedRegids(icode) then GetByte(m, p1) else None;
    var p2 := if NeedRegids(icode) then Wrap(p1 + 1) else p1;
    var word := if NeedValC(icode) then GetWord(m, p2) else None;
    Fields(instr.None?, icode, ifun,
           match regids case Some(b) => Hi4(b) case None => REG_NONE,
           match regids case Some(b) => Lo4(b) case None => REG_NONE,
           match word case Some(v) => v case None => 0,
           if NeedValC(icode) then Wrap(p2 + 8) else p2)
  }

  /** Decode, execute, memory and PC update for fetched fields. `oldValM` survives a failing read. */
  function Signals(s: State, f: Fields, oldValM: Word): (Pending, Stat) {
    var valA := GetReg(s.r, SrcA(f.icode, f.ra));
    var valB := GetReg(s.r, SrcB(f.icode, f.rb));
    var cond := CondHolds(s.cc, f.ifun);
    var aluA, aluB := AluA(f.icode, valA, f.valC), AluB(f.icode, valB);
    var fun := AluFun(f.icode, f.ifun);
    var valE := ComputeAlu(fun, aluA, aluB);
    var addr := MemAddr(f.icode, valE, valA);
    var word := GetWord(s.m, addr);
    var valM := if MemRead(f.icode) then (match word case Some(v) => v case None => oldValM) else 0;
    var dmemError := (MemRead(f.icode) || MemWrite(f.icode)) && word.None?;
    (Pending(GenNewPC(f.icode, cond, f.valC, valM, f.valP),
             if SetsCC(f.icode) then ComputeCC(fun, aluA, aluB) else s.cc,
             GenDstE(f.icode, f.rb, cond), valE, DstM(f.icode, f.ra), valM,
             MemWrite(f.icode), addr, GenMemData(f.icode, valA, f.valP)),
     GenStat(f.imemError || dmemError, f.icode))
  }

  /** All signals of the instruction at `s.pc`. */
  function Compute(s: State, oldValM: Word): (Pending, Stat) {
    Signals(s, FetchStage(s.m, s.pc), oldValM)
  }

  function SimStep(k: Machine): (Machine, Stat) {
    var s := UpdateState(k.cur, k.pend);
    var (p, stat) := Compute(s, k.pend.valM);
    (Machine(s, p), stat)
  }

  /** The architectural state a machine stands for: pending results applied. */
  function Meaning(k: Machine): State {
    UpdateState(k.cur, k.pend)
  }

  // ---------- correctness ----------

  /** `iaddq` with a zero function field; every other instruction is unrestricted. */
  predicate IaddqAdds(s: State) {
    match FetchAt(s.m, s.pc) case None => true case Some(f) => f.icode == I_IADDQ ==> f.ifun == 0
  }

  /** The processor's fetch delivers what the interpreter reads. */
  predicate SameFetch(f: Fields, g: Fetched) {
    && !f.imemError && f.icode == g.icode && f.ifun == g.ifun && f.valP == g.next
    && (g.ok1 ==> f.ra == g.hi1 && f.rb == g.lo1)
    && (g.okc ==> f.valC == g.cval)
  }

  lemma FetchAgrees(m: Mem, pc: Word)
    ensures match FetchAt(m, pc)
            case None => FetchStage(m, pc).imemError
            case Some(g) => SameFetch(FetchStage(m, pc), g)
  {
  }

  /** The results of `f`, applied, are what the interpreter leaves. */
  predicate Matches(s: State, f: Fields, g: Fetched, oldValM: Word) {
    var (t, stat) := Execute(s, g);
    var (p, st) := Signals(s, f, oldValM);
    && (stat == AOK ==> st == AOK && UpdateState(s, p) == t)
    && (stat == HLT ==> st == HLT && (var u := UpdateState(s, p); u.r == s.r && u.m == s.m && u.cc == s.cc))
  }

  lemma AddConstant(w: Word)
    ensures ComputeAlu(A_ADD, w, 0) == w
    ensures ComputeAlu(A_ADD, -8, w) == Wrap(w - 8)
    ensures ComputeAlu(A_ADD, 8, w) == Wrap(w + 8)
  {
  }

  lemma AddImmediate(valC: Word, base: Word)
    ensures ComputeAlu(A_ADD, valC, base) == Wrap(valC + base) == Wrap(base + valC)
    ensures base == 0 ==> Wrap(valC + base) == valC
  {
  }

  lemma NoRegisterReadsZero(r: RegFile)
    ensures GetReg(r, REG_NONE) == 0
  {
  }

  lemma MatchRrmovq(s: State, f: Fields, g: Fetched, oldValM: Word)
    requires SameFetch(f, g) && g.icode == I_RRMOVQ
    ensures Matches(s, f, g, oldValM)
  {
    AddConstant(GetReg(s.r, f.ra));
    hide ComputeAlu, ComputeCC, GetReg, SetReg, GetWord, SetWord, Wrap;
  }

  lemma MatchIrmovq(s: State, f: Fields, g: Fetched, oldValM: Word)
    requires SameFetch(f, g) && g.icode == I_IRMOVQ
    ensures Matches(s, f, g, oldValM)
  {
    AddConstant(f.valC);
    hide ComputeAlu, ComputeCC, GetReg, SetReg, GetWord, SetWord, Wrap;
  }

  lemma MatchAlu(s: State, f: Fields, g: Fetched, oldValM: Word)
    requires SameFetch(f, g) && g.icode == I_ALU
    ensures Matches(s, f, g, oldValM)
  {
  }

  lemma MatchIaddq(s: State, f: Fields, g: Fetched, oldValM: Word)
    requires SameFetch(f, g) && g.icode == I_IADDQ && g.ifun == 0
    ensures Matches(s, f, g, oldValM)
  {
    hide ComputeAlu, ComputeCC, GetReg, SetReg, GetWord, SetWord, Wrap, CondHolds;
    AddImmediate(f.valC, GetReg(s.r, f.rb));
  }

  lemma MatchRmmovq(s: State, f: Fields, g: Fetched, oldValM: Word)
    requires SameFetch(f, g) && g.icode == I_RMMOVQ
    ensures Matches(s, f, g, oldValM)
  {
    hide ComputeAlu, ComputeCC, GetReg, SetReg, GetWord, SetWord, Wrap, CondHolds;
    var base := GetReg(s.r, f.rb);
    NoRegisterReadsZero(s.r);
    AddImmediate(f.valC, base);
    GetAfterSet(s.m, Wrap(f.valC + base), GetReg(s.r, f.ra));
  }

  lemma MatchMrmovq(s: State, f: Fields, g: Fetched, oldValM: Word)
    requires SameFetch(f, g) && g.icode == I_MRMOVQ
    ensures Matches(s, f, g, oldValM)
  {
    hide ComputeAlu, ComputeCC, GetReg, SetReg, GetWord, SetWord, Wrap, CondHolds;
    NoRegisterReadsZero(s.r);
    AddImmediate(f.valC, GetReg(s.r, f.rb));
  }

  lemma MatchPushq(s: State, f: Fields, g: Fetched, oldValM: Word)
    requires SameFetch(f, g) && g.icode == I_PUSHQ
    ensures Matches(s, f, g, oldValM)
  {
    AddConstant(GetReg(s.r, REG_RSP));
    GetAfterSet(s.m, Wrap(GetReg(s.r, REG_RSP) - 8), GetReg(s.r, f.ra));
    hide ComputeAlu, ComputeCC, GetReg, SetReg, GetWord, SetWord, Wrap, CondHolds;
  }

  lemma MatchCall(s: State, f: Fields, g: Fetched, oldValM: Word)
    requires SameFetch(f, g) && g.icode == I_CALL
    ensures Matches(s, f, g, oldValM)
  {
    AddConstant(GetReg(s.r, REG_RSP));
    GetAfterSet(s.m, Wrap(GetReg(s.r, REG_RSP) - 8), f.valP);
    hide ComputeAlu, ComputeCC, GetReg, SetReg, GetWord, SetWord, Wrap, CondHolds;
  }

  lemma MatchPopRet(s: State, f: Fields, g: Fetched, oldValM: Word)
    requires SameFetch(f, g)
    requires g.icode == I_POPQ || g.icode == I_RET
    ensures Matches(s, f, g, oldValM)
  {
    AddConstant(GetReg(s.r, REG_RSP));
    hide ComputeAlu, ComputeCC, GetReg, SetReg, GetWord, SetWord, Wrap, CondHolds;
  }

  lemma MatchControl(s: State, f: Fields, g: Fetched, oldValM: Word)
    requires SameFetch(f, g)
    requires g.icode == I_NOP || g.icode == I_HALT || g.icode == I_JMP || g.icode > I_IADDQ
    ensures Matches(s, f, g, oldValM)
  {
  }

  /** One instruction: whenever the interpreter completes it, so does the processor, with the same
      pc, registers, memory and condition codes once the pending results are applied. */
  lemma ComputeMatchesIsa(s: State, oldValM: Word)
    requires IaddqAdds(s)
    ensures Step(s).1 == AOK ==>
              && Compute(s, oldValM).1 == AOK
              && UpdateState(s, Compute(s, oldValM).0) == Step(s).0
    ensures Step(s).1 == HLT ==>
              && Compute(s, oldValM).1 == HLT
              && (var t := UpdateState(s, Compute(s, oldValM).0); t.r == s.r && t.m == s.m && t.cc == s.cc)
  {
    FetchAgrees(s.m, s.pc);
    match FetchAt(s.m, s.pc)
    case None =>
    case Some(g) =>
      var f := FetchStage(s.m, s.pc);
      hide Execute, Signals, FetchStage, FetchAt, UpdateState;
      if g.icode == I_RRMOVQ { MatchRrmovq(s, f, g, oldValM); }
      else if g.icode == I_IRMOVQ { MatchIrmovq(s, f, g, oldValM); }
      else if g.icode == I_ALU { MatchAlu(s, f, g, oldValM); }
      else if g.icode == I_IADDQ { MatchIaddq(s, f, g, oldValM); }
      else if g.icode == I_RMMOVQ { MatchRmmovq(s, f, g, oldValM); }
      else if g.icode == I_MRMOVQ { MatchMrmovq(s, f, g, oldValM); }
      else if g.icode == I_PUSHQ { MatchPushq(s, f, g, oldValM); }
      else if g.icode == I_CALL { MatchCall(s, f, g, oldValM); }
      else if g.icode == I_POPQ || g.icode == I_RET { MatchPopRet(s, f, g, oldValM); }
      else { MatchControl(s, f, g, oldValM); }
  }

  /** The status of every instruction: an address error where the interpreter finds no first byte, or where the
      memory access fails; else what the code says. On a well-formed instruction it is the interpreter's; the
      interpreter rejects every other one. */
  lemma StatusExact(s: State, oldValM: Word)
    ensures var (p, stat) := Compute(s, oldValM);
            match FetchAt(s.m, s.pc)
            case None => stat == ADR
            case Some(g) =>
              && stat == (if g.icode in {4, 5, 8, 9, 10, 11} && GetWord(s.m, p.memAddr).None? then ADR
                          else if g.icode > 12 then INS else if g.icode == 0 then HLT else AOK)
              && (if WellFormed(s) then stat == Step(s).1 else Step(s).1 == INS || Step(s).1 == ADR)
  {
    hide FetchStage, FetchAt, ComputeAlu, ComputeCC, GetReg, SetReg, SetWord, GetWord, CondHolds, Wrap, UpdateState;
    FetchAgrees(s.m, s.pc);
    FetchDefaults(s.m, s.pc);
    var f := FetchStage(s.m, s.pc);
    NoRegisterReadsZero(s.r);
    AddConstant(GetReg(s.r, REG_RSP));
    AddImmediate(f.valC, GetReg(s.r, f.rb));
    GetAfterSet(s.m, Wrap(GetReg(s.r, REG_RSP) - 8), if f.icode == I_CALL then f.valP else GetReg(s.r, f.ra));
    GetAfterSet(s.m, Wrap(f.valC + GetReg(s.r, f.rb)), GetReg(s.r, f.ra));
  }

  // ---------- whole runs ----------

  /** The machine after `n` calls of `sim_step`, and whether all of them reported AOK. */
  function SeqRun(k: Machine, n: nat): (Machine, bool) {
    if n == 0 then (k, true)
    else
      var (k1, ok) := SeqRun(k, n - 1);
      (SimStep(k1).0, ok && SimStep(k1).1 == AOK)
  }

  lemma StepSimulates(k: Machine)
    requires IaddqAdds(Meaning(k)) && Step(Meaning(k)).1 == AOK
    ensures SimStep(k).1 == AOK && Meaning(SimStep(k).0) == Step(Meaning(k)).0
  {
    ComputeMatchesIsa(Meaning(k), k.pend.valM);
    hide Compute, UpdateState, Step;
  }

  /** Every run of the processor simulates the interpreter, from any state: as long as the interpreter
      completes instructions (and its `iaddq`s have function field 0) the processor reports AOK, and
      its pending state stands for the interpreter's. */
  lemma {:induction false} SeqSimulatesIsa(k: Machine, run: seq<State>, n: nat)
    requires IsTrace(run) && n < |run| && run[0] == Meaning(k)
    requires forall i :: 0 <= i < n ==> IaddqAdds(run[i])
    ensures SeqRun(k, n).1
    ensures Meaning(SeqRun(k, n).0) == run[n]
  {
    if n > 0 {
      SeqSimulatesIsa(k, run, n - 1);
      TraceStep(run, n - 1);
      hide SimStep, Meaning, Step, IaddqAdds, IsTrace;
      StepSimulates(SeqRun(k, n - 1).0);
    }
  }

  /** A program that halts after `n` completed instructions halts the processor on its next step, with
      the interpreter's registers, memory and condition codes. */
  lemma SeqHaltsWithIsa(m: Mem, run: seq<State>)
    requires HaltingTrace(run) && run[0] == InitState(m)
    requires forall i :: 0 <= i < |run| ==> IaddqAdds(run[i])
    ensures var (k, ok) := SeqRun(Reset(m), |run| - 1);
            var (k', stat) := SimStep(k);
            var t, u := run[|run| - 1], Meaning(k');
            ok && stat == HLT && k'.cur == t && u.r == t.r && u.m == t.m && u.cc == t.cc
  {
    var n := |run| - 1;
    assert Meaning(Reset(m)) == InitState(m);
    SeqSimulatesIsa(Reset(m), run, n);
    var k := SeqRun(Reset(m), n).0;
    ComputeMatchesIsa(Meaning(k), k.pend.valM);
    hide Compute, UpdateState, Step, IaddqAdds, SeqRun;
  }

  /** `sim_run`: the machine, the number of steps and the status when it stops. */
  function SimRun(k: Machine, maxInstr: nat): (Machine, nat, Stat)
    decreases maxInstr
  {
    if maxInstr == 0 then (k, 0, AOK)
    else
      var (k1, stat) := SimStep(k);
      if stat != AOK then (k1, 1, stat)
      else
        var (k2, n, last) := SimRun(k1, maxInstr - 1);
        (k2, n + 1, last)
  }

  lemma StepOfRun(k: Machine, run: seq<State>, i: nat)
    requires HaltingTrace(run) && i < |run| && Meaning(k) == run[i] && IaddqAdds(run[i])
    ensures SimStep(k).1 == if i + 1 < |run| then AOK else HLT
    ensures SimStep(k).0.cur == run[i]
    ensures i + 1 < |run| ==> Meaning(SimStep(k).0) == run[i + 1]
  {
    if i + 1 < |run| {
      TraceStep(run, i);
    }
    ComputeMatchesIsa(run[i], k.pend.valM);
    hide Step, Compute, UpdateState;
  }

  /** From a machine that stands for state `i` of a halting run: the loop stops with AOK at its limit, or with HLT in
      the run's last state. */
  lemma {:induction false} SimRunFollows(k: Machine, run: seq<State>, i: nat, maxInstr: nat)
    requires HaltingTrace(run) && i < |run| && Meaning(k) == run[i]
    requires forall j :: 0 <= j < |run| ==> IaddqAdds(run[j])
    ensures var (k', n, stat) := SimRun(k, maxInstr);
            if maxInstr < |run| - i then n == maxInstr && stat == AOK
            else n == |run| - i && stat == HLT && k'.cur == run[|run| - 1]
    decreases maxInstr
  {
    hide SimStep, Meaning, IaddqAdds, HaltingTrace;
    if maxInstr > 0 {
      StepOfRun(k, run, i);
      if i + 1 < |run| {
        SimRunFollows(SimStep(k).0, run, i + 1, maxInstr - 1);
      }
    }
  }

  /** `sim_run` on a program that halts: AOK at the limit, or HLT in the interpreter's final state. */
  lemma SimRunMatchesIsa(m: Mem, run: seq<State>, maxInstr: nat)
    requires HaltingTrace(run) && run[0] == InitState(m)
    requires forall i :: 0 <= i < |run| ==> IaddqAdds(run[i])
    ensures var (k, n, stat) := SimRun(Reset(m), maxInstr);
            if maxInstr < |run| then n == maxInstr && stat == AOK else n == |run| && stat == HLT && k.cur == run[|run| - 1]
  {
    assert Meaning(Reset(m)) == InitState(m);
    hide Meaning, SimRun, IaddqAdds, HaltingTrace;
    SimRunFollows(Reset(m), run, 0, maxInstr);
  }
}
