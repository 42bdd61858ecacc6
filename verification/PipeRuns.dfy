/** Whole simulations: progress, the update limits at the end of a run, and agreement with the
    instruction set. */
module PipeRuns {
  import opened Memory
  import opened Isa
  import opened Pipe
  import opened PipeIdeal
  import opened PipeProof
  import opened PipeSquash

  // ---------- progress ----------

  /** How many cycles the oldest instruction still in flight is away from write-back. */
  function Pos(c: Core): nat {
    if c.w.stat != BUB then 0
    else if c.m.stat != BUB then 1
    else if c.e.stat != BUB then 2
    else if c.d.stat != BUB then 3
    else 4
  }

  /** A bound on the cycles until the last instruction of the run is in write-back. */
  function Remaining(c: Core, run: seq<State>, a: nat): int { 5 * (|run| - 1 - a) + Pos(c) }

  lemma OldestMoves(c: Core)
    requires c.w.stat == BUB
    requires c.m.stat == BUB ==> c.m.icode == I_NOP
    requires c.m.stat == BUB && c.e.stat == BUB ==> c.e.icode == I_NOP
    requires c.m.stat == BUB && c.e.stat == BUB && c.d.stat == BUB ==> c.d.icode == I_NOP
    ensures Pos(Next(c)) < Pos(c)
  {
    var p := Compute(c, c.cc);
    EdgeFacts(c);
    SignalsFacts(c);
    hide Compute, Next, WriteBack, Store;
    PassedStats(c, p);
  }

  lemma PassedStats(c: Core, p: Pending)
    requires Signals(c, p)
    ensures p.w.stat == c.m.stat || p.w.stat == ADR
    ensures c.m.icode == I_NOP ==> p.w.stat == c.m.stat
    ensures p.m.stat == c.e.stat && p.e.stat == c.d.stat && p.d.stat != BUB
    ensures p.m.icode == c.e.icode
  {
    hide ComputeAlu, GetWord, GetReg, ExCC;
  }

  lemma ProgressStep(c: Core, run: seq<State>, a: nat)
    requires PipeRun(run) && Room(run, a) && Inv(c, run, a) && !Bad(c.w.stat)
    ensures Remaining(Next(c), run, a + Occ(c.w.stat)) < Remaining(c, run, a)
  {
    WriteBackStat(c, run, a);
    if c.w.stat == BUB {
      InstrFacts(run, a);
      SlotsAreNops(c, run, a);
      hide Inv, PipeRun, Next, Instr;
      OldestMoves(c);
    }
  }

  lemma SlotsAreNops(c: Core, run: seq<State>, a: nat)
    requires Instr(run, a) && Inv(c, run, a) && c.w.stat == BUB
    ensures c.m.stat == BUB ==> c.m.icode == I_NOP
    ensures c.m.stat == BUB && c.e.stat == BUB ==> c.e.icode == I_NOP
    ensures c.m.stat == BUB && c.e.stat == BUB && c.d.stat == BUB ==> c.d.icode == I_NOP
  {
    SameStat(run[a]);
    hide IdealD, IdealE, IdealM, IdealW, After, CondHolds, GenFPc, RetPending;
  }

  // ---------- suppressed updates ----------

  /** The pending results are those of the `current` halves, flags included. */
  ghost predicate Synced(k: Machine) { k.pend == Compute(k.cur, k.cur.cc) }

  /** `update_state` with some updates suppressed differs from a full one only in memory and flags,
      and not at all when the cycle brings the last instruction of the run to write-back, or (memory
      updates enabled) to the memory stage. So a run that ends never loses an update to its limits. */
  lemma SuppressionHarmless(k: Machine, updMem: bool, updCC: bool, run: seq<State>, a: nat)
    requires PipeRun(run) && Room(run, a) && Synced(k) && Inv(k.cur, run, a) && !Bad(k.cur.w.stat)
    ensures var u, g := Update(k, updMem, updCC), Next(k.cur);
            && u.(mem := g.mem, cc := g.cc) == g
            && (updMem ==> u.mem == g.mem)
            && (updMem && updCC ==> u == g)
            && (Bad(g.w.stat) ==> u == g)
            && (LastInM(g, run, a + Occ(k.cur.w.stat)) && updMem ==> u == g)
  {
    hide Compute, Next, Update, Inv, PipeRun, LastInM;
    UpdateParts(k, updMem, updCC);
    EndChangesNothing(k.cur, run, a);
  }

  /** The memory stage holds the last instruction of the run. */
  predicate LastInM(c: Core, run: seq<State>, a: nat) { Last(run, a + Occ(c.w.stat), c.m.stat) }

  lemma EndChangesNothing(c: Core, run: seq<State>, a: nat)
    requires PipeRun(run) && Room(run, a) && Inv(c, run, a) && !Bad(c.w.stat)
    ensures Bad(Next(c).w.stat) ==> Next(c).mem == c.mem && Next(c).cc == c.cc
    ensures LastInM(Next(c), run, a + Occ(c.w.stat)) ==> Next(c).cc == c.cc
  {
    hide Compute, Next, IdealM, IdealW, IdealE, After, InvE, WriteBack, Store, PipeRun, Instr, MAgrees, LoadUse;
    hide MemStage, ExStage, DecodeStage, FetchStage, RetPending, GenFPc, ExCC, Redirects, FetchPc, Spaced;
    var i, p := a + Occ(c.w.stat), Compute(c, c.cc);
    WriteBackStat(c, run, a);
    InstrFacts(run, a);
    InstrFacts(run, i);
    EdgeFacts(c);
    SignalsFacts(c);
    MemoryAdvance(c.m, c.mem, run, i);
    PassedStats(c, p);
    if !Last(run, i, c.m.stat) {
      BackEndAdvance(c, p, run, a, i);
    }
  }

  lemma UpdateParts(k: Machine, updMem: bool, updCC: bool)
    requires Synced(k)
    ensures var u, g := Update(k, updMem, updCC), Next(k.cur);
            && u.(mem := g.mem, cc := g.cc) == g
            && u.mem == (if updMem then g.mem else k.cur.mem)
            && u.cc == (if updCC then g.cc else k.cur.cc)
  {
    hide Compute, SetReg, SetWord;
  }

  /** Which updates a cycle makes when `left` more are allowed: instruction `a` is the oldest unfinished one, `i` the
      one in the memory stage and `j` the one in execute. The store of `i` is done exactly if `i` is among the
      first `left` from `a`, and so are the flags of `j`; registers always move past write-back. */
  lemma UpdatesByRank(k: Machine, left: int, run: seq<State>, a: nat)
    requires PipeRun(run) && Room(run, a) && Synced(k) && Inv(k.cur, run, a) && !Bad(k.cur.w.stat)
    ensures var c, c' := k.cur, SimStepPipe(k, left).cur;
            var i := a + Occ(c.w.stat);
            && i < |run| && c'.reg == run[i].r
            && (Last(run, i, c.m.stat) ==> c'.mem == run[i].m && c'.cc == run[i].cc)
            && (!Last(run, i, c.m.stat) ==>
                  var j := i + Occ(c.m.stat);
                  && j < |run| && c'.mem == run[if i - a < left then j else i].m
                  && (Last(run, j, c.e.stat) ==> c'.cc == run[j].cc)
                  && (!Last(run, j, c.e.stat) ==>
                        && j + Occ(c.e.stat) < |run|
                        && c'.cc == run[if j - a < left then j + Occ(c.e.stat) else j].cc))
  {
    hide Compute, Next, Update, IdealM, IdealW, IdealE, After, WriteBack, Store, PipeRun, Instr, MAgrees, LoadUse;
    hide MemStage, ExStage, DecodeStage, FetchStage, RetPending, GenFPc, ExCC, Redirects, FetchPc, Spaced, EAgrees;
    hide InvE, Signals, Mispredicted;
    var c, g, p := k.cur, Next(k.cur), Compute(k.cur, k.cur.cc);
    var i := a + Occ(c.w.stat);
    WriteBackStat(c, run, a);
    InstrFacts(run, a);
    InstrFacts(run, i);
    EdgeFacts(c);
    SignalsFacts(c);
    WriteBackAdvance(c.reg, c.w, run, a);
    MemoryAdvance(c.m, c.mem, run, i);
    UpdateParts(k, AheadMem(k) < left, AheadEx(k) < left);
    if !Last(run, i, c.m.stat) {
      BackEndAdvance(c, p, run, a, i);
    } else {
      BadStopsFlags(c, p);
    }
  }

  lemma BadStopsFlags(c: Core, p: Pending)
    requires Signals(c, p) && Bad(MemStage(c.m, c.mem).stat)
    ensures p.ccIn == c.cc
  {
    hide MemStage, ExStage, DecodeStage, FetchStage, ExCC;
  }

  // ---------- the run loop ----------

  /** The state the interpreter is in before its last instruction. */
  predicate Agrees(c: Core, t: State) { c.reg == t.r && c.mem == t.m && c.cc == t.cc }

  /** One call of `sim_step_pipe` with `left` cycles to go. */
  lemma StepFollowsRun(k: Machine, left: int, run: seq<State>, a: nat)
    requires PipeRun(run) && Room(run, a) && Synced(k) && Inv(k.cur, run, a) && !Bad(k.cur.w.stat) && left >= 1
    ensures var k', g, a' := SimStepPipe(k, left), Next(k.cur), a + Occ(k.cur.w.stat);
            && Inv(g, run, a') && Remaining(g, run, a') < Remaining(k.cur, run, a)
            && k'.cur.w == g.w && k'.cur.m == g.m && (left >= 2 ==> k'.cur.mem == g.mem)
            && k'.pend == Compute(k'.cur, k.pend.ccIn)
            && (Bad(g.w.stat) ==> k'.cur == g)
            && (left >= 2 && LastInM(g, run, a') ==> k'.cur == g && Synced(k'))
            && (left >= 3 ==> k'.cur == g && Synced(k'))
  {
    hide Compute, Next, Update, Inv, PipeRun, Remaining, LastInM;
    InvStep(k.cur, run, a);
    ProgressStep(k.cur, run, a);
    SuppressionHarmless(k, AheadMem(k) < left, AheadEx(k) < left, run, a);
    CCInIsNext(k);
  }

  lemma CCInIsNext(k: Machine)
    requires Synced(k)
    ensures Next(k.cur).cc == k.pend.ccIn
  {
    hide Compute, UpdateReg, UpdateMem;
  }

  /** Write-back holds a bad status only when it holds the last instruction, and then the visible state is
      the interpreter's. */
  lemma StatusInRun(c: Core, run: seq<State>, a: nat)
    requires PipeRun(run) && Room(run, a) && Inv(c, run, a)
    ensures Remaining(c, run, a) >= 0 && (Bad(c.w.stat) ==> a + 1 == |run|)
    ensures if Bad(c.w.stat) then Ends(run) && Agrees(c, run[|run| - 1]) && c.w == IdealW(run[|run| - 1])
            else
              && (c.w.stat == AOK || c.w.stat == BUB) && Remaining(c, run, a) >= 1
              && (Remaining(c, run, a) == 1 ==> LastInM(c, run, a))
  {
    hide IdealD, IdealM, IdealW, After, PipeRun, InvM, Instr, Spaced;
    WriteBackStat(c, run, a);
    InstrFacts(run, a);
  }

  /** The last cycle before the instruction limit cannot bring the end of the run when the cycle before it
      did not have it in its memory stage. */
  lemma LastCycle(k: Machine, g: Core, ccIn: CC, left: int, run: seq<State>, a: nat)
    requires PipeRun(run) && Room(run, a) && Inv(g, run, a) && !Bad(g.w.stat) && !LastInM(g, run, a)
    requires k.pend == Compute(k.cur, ccIn) && k.cur.w == g.w && k.cur.m == g.m && k.cur.mem == g.mem
    ensures SimStepPipe(k, left).cur.w.stat == AOK || SimStepPipe(k, left).cur.w.stat == BUB
  {
    hide PipeRun, IdealW, IdealM, Instr, MemStage, FetchStage, Spaced;
    hide DecodeStage, ExStage, MAgrees, After, InvE, SimStepPipe, Compute;
    var i := a + Occ(g.w.stat);
    WriteBackStat(g, run, a);
    InstrFacts(run, a);
    InstrFacts(run, i);
    MemoryAdvance(g.m, g.mem, run, i);
    WriteBackIsMemStage(k, ccIn, left);
  }

  lemma WriteBackIsMemStage(k: Machine, ccIn: CC, left: int)
    requires k.pend == Compute(k.cur, ccIn) && !Bad(k.cur.w.stat)
    ensures SimStepPipe(k, left).cur.w == MemStage(k.cur.m, k.cur.mem)
  {
    hide MemStage, FetchStage, DecodeStage, ExStage, ExCC, UpdateReg, UpdateMem;
  }

  /** The run loop from any cycle of a simulation that follows `run`. */
  lemma {:induction false} RunFollows(k: Machine, icount: int, ccount: int, maxInstr: int, maxCycle: int,
                                      run: seq<State>, a: nat)
    requires PipeRun(run) && Synced(k) && Inv(k.cur, run, a) && !Bad(k.cur.w.stat)
    requires Ends(run) || a + maxInstr - icount + 5 < |run|
    ensures var out := SimRunFrom(k, AOK, icount, ccount, maxInstr, maxCycle);
            && (out.status == AOK || EndsAs(out, run))
            && (out.status != AOK ==>
                  Completed(k, icount, ccount, maxInstr, maxCycle) == |run| - a - Occ(k.cur.w.stat))
            && (Ends(run) && Remaining(k.cur, run, a) <= maxInstr - icount && Remaining(k.cur, run, a) <= maxCycle - ccount
                ==> EndsAs(out, run))
    decreases maxCycle - ccount
  {
    hide Inv, PipeRun, Compute, Next, Update, Remaining, SimStepPipe, Agrees, Ends, LastInM;
    if Ends(run) {
      StatusInRun(k.cur, run, a);
    }
    if icount < maxInstr && ccount < maxCycle {
      var left := maxInstr - icount;
      var k', g, a' := SimStepPipe(k, left), Next(k.cur), a + Occ(k.cur.w.stat);
      StepFollowsRun(k, left, run, a);
      StatusInRun(g, run, a');
      if !Bad(g.w.stat) {
        if left >= 3 || (left == 2 && LastInM(g, run, a')) {
          RunFollows(k', icount + 1, ccount + 1, maxInstr, maxCycle, run, a');
        } else if left == 2 {
          LastCycle(k', g, k.pend.ccIn, 1, run, a');
          var k'' := SimStepPipe(k', 1);
          assert SimRunFrom(k'', AOK, icount + 2, ccount + 2, maxInstr, maxCycle) == Outcome(k'', AOK, icount + 2);
        }
      }
    }
  }

  /** The simulation stopped at the last instruction of the run with the interpreter's state. */
  ghost predicate EndsAs(out: Outcome, run: seq<State>) {
    Ends(run) && out.status == IdealW(run[|run| - 1]).stat && Agrees(out.k.cur, run[|run| - 1])
  }

  // ---------- the theorems ----------

  lemma ResetFollowsRun(mem: Mem, run: seq<State>)
    requires PipeRun(run) && run[0] == InitState(mem) && Room(run, 0)
    ensures var c := Reset(mem).cur;
            Inv(c, run, 0) && c.w.stat == BUB && Remaining(c, run, 0) == 5 * |run| - 1
  {
    hide IdealD, IdealE, IdealM, IdealW, After, CondHolds;
  }

  /** The first clock edge after a reset loads the cleared pipes and starts the first cycle. */
  lemma FirstCycle(mem: Mem, left: int)
    requires left >= 1
    ensures var k := SimStepPipe(Reset(mem), left); k.cur == Reset(mem).cur && Synced(k)
  {
    hide Compute;
  }

  /** Every simulation agrees with the instruction set. For any program whose run stays within the
      pipeline's side conditions, for ever or up to a halt or a fault, and any limits, the simulation stops
      with status AOK or at the last instruction of the run: then with that instruction's status, and with
      the registers, memory and condition codes the interpreter has there. It does get there when both
      limits allow five cycles per instruction. */
  lemma PipelineMatchesIsa(mem: Mem, run: seq<State>, maxInstr: int, maxCycle: int)
    requires PipeRun(run) && run[0] == InitState(mem)
    requires Ends(run) || maxInstr + 5 < |run|
    ensures var out := SimRunPipe(Reset(mem), maxInstr, maxCycle);
            && (out.status == AOK || EndsAs(out, run))
            && (out.status != AOK ==> Completed(Reset(mem), 0, 0, maxInstr, maxCycle) == |run|)
            && (Ends(run) && 5 * |run| <= maxInstr && 5 * |run| <= maxCycle ==> EndsAs(out, run))
  {
    if 0 < maxInstr && 0 < maxCycle {
      hide Inv, PipeRun, Compute, Remaining, SimStepPipe, Synced, EndsAs, Ends;
      FirstCycle(mem, maxInstr);
      ResetFollowsRun(mem, run);
      var k := SimStepPipe(Reset(mem), maxInstr);
      RunFollows(k, 1, 1, maxInstr, maxCycle, run, 0);
    }
  }

  /** The instruction limit: whatever is in flight when a simulation stops, the registers, memory and flags it leaves
      are of states no later than after the first `maxInstr` instructions. */
  lemma LimitFromReset(mem: Mem, run: seq<State>, maxInstr: nat, maxCycle: int)
    requires PipeRun(run) && run[0] == InitState(mem)
    requires Ends(run) || maxInstr + 5 < |run|
    ensures Within(SimRunPipe(Reset(mem), maxInstr, maxCycle).k.cur, run, maxInstr)
  {
    hide Inv, PipeRun, Compute, Remaining, SimStepPipe, Synced, Ends, Within;
    StartWithin(mem, run, maxInstr);
    if 0 < maxInstr && 0 < maxCycle {
      FirstCycle(mem, maxInstr);
      ResetFollowsRun(mem, run);
      LimitHolds(SimStepPipe(Reset(mem), maxInstr), 1, 1, maxInstr, maxCycle, run, 0);
    }
  }

  lemma StartWithin(mem: Mem, run: seq<State>, n: nat)
    requires PipeRun(run) && run[0] == InitState(mem)
    ensures Within(Reset(mem).cur, run, n)
  {
    var s := run[0];
    assert Reset(mem).cur.reg == s.r && Reset(mem).cur.mem == s.m && Reset(mem).cur.cc == s.cc;
  }

  /** The last instruction of a run ends it exactly when the interpreter halts or faults on it, provided it
      is well-formed; and the pipeline's status is then the interpreter's. */
  lemma EndsIff(run: seq<State>)
    requires |run| > 0 && PipeOk(run[|run| - 1]) && WellFormed(run[|run| - 1])
    ensures Ends(run) <==> Step(run[|run| - 1]).1 != AOK
    ensures IdealW(run[|run| - 1]).stat == Step(run[|run| - 1]).1
  {
    StatusExact(run[|run| - 1]);
    IdealStatus(run[|run| - 1]);
    hide IdealW, IdealD, IdealM, Store, Step, PipeOk, WellFormed;
  }

  /** The `current` halves in cycle `t` of an unlimited simulation. */
  function Cycle(mem: Mem, t: nat): Core { Iterate(Reset(mem).cur, t) }

  /** The machine after the end of the run: memory and flags as the last instruction found them, registers
      with that instruction's own write-back. */
  ghost predicate Settled(c: Core, run: seq<State>) {
    && Ends(run)
    && (var last := run[|run| - 1];
        c.w == IdealW(last) && c.m == BUBBLE_M && c.mem == last.m && c.cc == last.cc &&
        c.reg == WriteBack(last.r, IdealW(last)))
  }

  /** A `halt` writes nothing back, so after it the registers are the interpreter's for ever. */
  lemma HaltWritesNothing(s: State)
    requires IdealW(s).stat == HLT
    ensures WriteBack(s.r, IdealW(s)) == s.r
  {
    hide FetchStage, GetWord, GetReg, ComputeAlu, CondHolds, SetReg;
    IdealStatus(s);
    SetNone(s.r, IdealW(s).valE);
    SetNone(s.r, IdealW(s).valM);
  }

  /** In every cycle, for ever, the program-visible state is made of states of the run: registers of the
      oldest unfinished instruction, memory of the one behind write-back, flags of the one behind the memory
      stage; and after the end it stays what the last instruction left. Nothing fetched on a wrong path or
      behind a halting or faulting instruction has touched any of them. A run that does not end is followed
      as far as it is given. */
  lemma {:induction false} EveryCycleFollowsRun(mem: Mem, run: seq<State>, t: nat) returns (a: nat, j: nat)
    requires PipeRun(run) && run[0] == InitState(mem)
    requires Ends(run) || t + 5 < |run|
    ensures var c := Cycle(mem, t);
            && a <= j < |run| && j <= a + 2 && a <= t && c.cc == run[j].cc
            && if Settled(c, run) then a + 1 == |run| && c.mem == run[a].m
               else
                 && Inv(c, run, a) && c.reg == run[a].r
                 && c.mem == run[if c.w.stat == BUB || Bad(c.w.stat) then a else a + 1].m
    ensures Ends(run) && t >= 5 * |run| ==> Settled(Cycle(mem, t), run)
    ensures var c := Cycle(mem, t); Settled(c, run) || Remaining(c, run, a) <= 5 * |run| - 1 - t
  {
    hide Inv, PipeRun, Next, Remaining, Settled, Ends;
    if t == 0 {
      ResetFollowsRun(mem, run);
      a := 0;
    } else {
      var b, _ := EveryCycleFollowsRun(mem, run, t - 1);
      var c := Cycle(mem, t - 1);
      if Settled(c, run) || Bad(c.w.stat) {
        EndSettles(c, run, b);
        SettledParts(Cycle(mem, t), run);
        return b, b;
      }
      InvStep(c, run, b);
      ProgressStep(c, run, b);
      a := b + Occ(c.w.stat);
    }
    j := VisibleState(Cycle(mem, t), run, a);
    if Ends(run) {
      StatusInRun(Cycle(mem, t), run, a);
    }
    if Settled(Cycle(mem, t), run) {
      SettledParts(Cycle(mem, t), run);
    }
  }

  /** Once the last instruction is in write-back one cycle settles the machine, and it stays settled. */
  lemma EndSettles(c: Core, run: seq<State>, a: nat)
    requires Settled(c, run) || (PipeRun(run) && Room(run, a) && Inv(c, run, a) && Bad(c.w.stat))
    ensures Settled(Next(c), run)
    ensures !Settled(c, run) ==> a + 1 == |run|
  {
    hide Next, WriteBack, Store, PipeRun, IdealW, InvM, Spaced;
    if !Settled(c, run) {
      WriteBackStat(c, run, a);
      StatusInRun(c, run, a);
      BubbleMemoryStep(c.m, c.mem);
    }
    FrozenEdge(c);
    EmptyStore(c.mem);
    WriteBackTwice(run[|run| - 1].r, IdealW(run[|run| - 1]));
  }

  lemma SettledParts(c: Core, run: seq<State>)
    requires Settled(c, run)
    ensures Bad(c.w.stat) && c.mem == run[|run| - 1].m && c.cc == run[|run| - 1].cc
  {
  }

  lemma VisibleState(c: Core, run: seq<State>, a: nat) returns (j: nat)
    requires PipeRun(run) && Room(run, a) && Inv(c, run, a)
    ensures a <= j < |run| && j <= a + 2 && c.reg == run[a].r && c.cc == run[j].cc
    ensures c.mem == run[if c.w.stat == BUB || Bad(c.w.stat) then a else a + 1].m
    ensures Bad(c.w.stat) ==> a + 1 == |run|
  {
    hide IdealD, IdealM, IdealW, After, PipeRun, InvE, MAgrees, Instr, Redirects, MemStage, Store, Spaced;
    WriteBackStat(c, run, a);
    InstrFacts(run, a);
    if Last(run, a, c.w.stat) {
      j := a;
    } else {
      var i := a + Occ(c.w.stat);
      InstrFacts(run, i);
      MemoryAdvance(c.m, c.mem, run, i);
      j := if Last(run, i, c.m.stat) then i else i + Occ(c.m.stat);
    }
  }

  // ---------- the instruction limit ----------

  /** Registers, memory and flags are each those before some instruction of the run, none later than number `n`. */
  ghost predicate Within(c: Core, run: seq<State>, n: int) {
    && (exists i :: 0 <= i < |run| && i <= n && c.reg == run[i].r)
    && (exists i :: 0 <= i < |run| && i <= n && c.mem == run[i].m)
    && (exists i :: 0 <= i < |run| && i <= n && c.cc == run[i].cc)
  }

  lemma StepWithin(k: Machine, left: int, run: seq<State>, a: nat, n: int)
    requires PipeRun(run) && Room(run, a) && Synced(k) && Inv(k.cur, run, a) && !Bad(k.cur.w.stat)
    requires left >= 1 && a + left <= n && Within(k.cur, run, n)
    ensures Within(SimStepPipe(k, left).cur, run, n)
  {
    hide Inv, PipeRun, SimStepPipe, Synced, Room;
    UpdatesByRank(k, left, run, a);
    var c, c' := k.cur, SimStepPipe(k, left).cur;
    var i := a + Occ(c.w.stat);
    BeforeStep(k, run, a);
    assert c'.reg == run[i].r;
    if !Last(run, i, c.m.stat) {
      var j := i + Occ(c.m.stat);
      assert i - a < left ==> c'.mem == run[j].m && j <= n;
      assert i - a >= left ==> c'.mem == c.mem;
      assert !Last(run, j, c.e.stat) && j - a < left ==> c'.cc == run[j + Occ(c.e.stat)].cc;
    }
  }

  /** Where memory and flags stand before the cycle. */
  lemma BeforeStep(k: Machine, run: seq<State>, a: nat)
    requires PipeRun(run) && Room(run, a) && Inv(k.cur, run, a) && !Bad(k.cur.w.stat)
    ensures var c, i := k.cur, a + Occ(k.cur.w.stat);
            && i < |run| && c.mem == run[i].m
            && (if Last(run, i, c.m.stat) then c.cc == run[i].cc
                else i + Occ(c.m.stat) < |run| && c.cc == run[i + Occ(c.m.stat)].cc)
  {
    hide PipeRun, InvE, IdealW, IdealM, MAgrees, Spaced;
    WriteBackStat(k.cur, run, a);
  }

  /** A machine whose flags have not been updated takes the same step, but for the flags it keeps. */
  lemma StaleFlags(k: Machine, g: Core)
    requires k.cur == g.(cc := k.cur.cc) && k.pend == Compute(k.cur, g.cc)
    ensures var u, v := SimStepPipe(k, 1).cur, SimStepPipe(Machine(g, Compute(g, g.cc)), 1).cur;
            && u.reg == v.reg && u.mem == v.mem
            && u.cc == (if AheadEx(Machine(g, Compute(g, g.cc))) < 1 then v.cc else k.cur.cc)
  {
    hide MemStage, ExStage, DecodeStage, FetchStage, ExCC, SetReg, SetWord, GetReg;
  }

  /** The run loop shows nothing of an instruction beyond the limit. */
  lemma {:induction false} LimitHolds(k: Machine, icount: int, ccount: int, maxInstr: int, maxCycle: int,
                                      run: seq<State>, a: nat)
    requires PipeRun(run) && Synced(k) && Inv(k.cur, run, a) && !Bad(k.cur.w.stat) && a <= icount
    requires Ends(run) || a + maxInstr - icount + 5 < |run|
    requires Within(k.cur, run, maxInstr)
    ensures Within(SimRunFrom(k, AOK, icount, ccount, maxInstr, maxCycle).k.cur, run, maxInstr)
    decreases maxCycle - ccount
  {
    hide Inv, PipeRun, Compute, Next, Update, Remaining, SimStepPipe, Agrees, Ends, LastInM, Within;
    if icount < maxInstr && ccount < maxCycle {
      var left := maxInstr - icount;
      var k', g, a' := SimStepPipe(k, left), Next(k.cur), a + Occ(k.cur.w.stat);
      StepFollowsRun(k, left, run, a);
      StepWithin(k, left, run, a, maxInstr);
      if Ends(run) || a' + 5 < |run| {
        StatusInRun(g, run, a');
      }
      if !Bad(g.w.stat) {
        if left >= 3 || (left == 2 && LastInM(g, run, a')) {
          LimitHolds(k', icount + 1, ccount + 1, maxInstr, maxCycle, run, a');
        } else if left == 2 {
          LastCycle(k', g, k.pend.ccIn, 1, run, a');
          LastWithin(k, k', g, run, a', maxInstr);
          var k'' := SimStepPipe(k', 1);
          assert SimRunFrom(k'', AOK, icount + 2, ccount + 2, maxInstr, maxCycle) == Outcome(k'', AOK, icount + 2);
        }
      }
    }
  }

  /** The cycle after one that suppressed the flags. */
  lemma LastWithin(k: Machine, k': Machine, g: Core, run: seq<State>, a: nat, n: int)
    requires PipeRun(run) && Room(run, a) && Inv(g, run, a) && !Bad(g.w.stat) && a + 1 <= n
    requires Synced(k) && g == Next(k.cur) && k' == SimStepPipe(k, 2) && k'.cur.mem == g.mem && Within(k'.cur, run, n)
    ensures Within(SimStepPipe(k', 1).cur, run, n)
  {
    hide Inv, PipeRun, Compute, Next, SimStepPipe, Synced, Room, AheadEx;
    var twin := Machine(g, Compute(g, g.cc));
    TwinFacts(k, k', g);
    StaleFlags(k', g);
    UpdatesByRank(twin, 1, run, a);
    AheadOfNone(g);
    var u, i := SimStepPipe(k', 1).cur, a + Occ(g.w.stat);
    assert u.reg == run[i].r;
    assert u.mem == run[i].m || (!Last(run, i, g.m.stat) && u.mem == run[i + Occ(g.m.stat)].m && i == a);
  }

  lemma TwinFacts(k: Machine, k': Machine, g: Core)
    requires Synced(k) && g == Next(k.cur) && k' == SimStepPipe(k, 2) && k'.cur.mem == g.mem
    ensures k'.cur == g.(cc := k'.cur.cc) && k'.pend == Compute(k'.cur, g.cc)
    ensures Synced(Machine(g, Compute(g, g.cc)))
  {
    hide Compute, Update, Next;
    UpdateParts(k, AheadMem(k) < 2, AheadEx(k) < 2);
    CCInIsNext(k);
  }

  /** Nothing is ahead of the execute stage if neither stage before it holds an instruction. */
  lemma AheadOfNone(g: Core)
    ensures AheadEx(Machine(g, Compute(g, g.cc))) < 1 ==> g.w.stat == BUB && g.m.stat == BUB
  {
    SignalsFacts(g);
    PassedStats(g, Compute(g, g.cc));
    hide Compute;
  }

  // ---------- what the loop counts ----------

  /** The cycles of a simulation in which write-back holds an instruction: the instructions it completes, the one
      that ends it included. */
  function Completed(k: Machine, icount: int, ccount: int, maxInstr: int, maxCycle: int): nat
    decreases maxCycle - ccount
  {
    if icount < maxInstr && ccount < maxCycle then
      var k' := SimStepPipe(k, maxInstr - icount);
      (if k'.cur.w.stat != BUB then 1 else 0) +
      (if GenStat(k'.cur.w) != AOK then 0 else Completed(k', icount + 1, ccount + 1, maxInstr, maxCycle))
    else 0
  }

  /** The cycles in which it holds a bubble. */
  function Bubbles(k: Machine, icount: int, ccount: int, maxInstr: int, maxCycle: int): nat
    decreases maxCycle - ccount
  {
    if icount < maxInstr && ccount < maxCycle then
      var k' := SimStepPipe(k, maxInstr - icount);
      (if k'.cur.w.stat == BUB then 1 else 0) +
      (if GenStat(k'.cur.w) != AOK then 0 else Bubbles(k', icount + 1, ccount + 1, maxInstr, maxCycle))
    else 0
  }

  /** The loop's count is that of the completed instructions and of the bubbles together. */
  lemma {:induction false} CountsBubbles(k: Machine, status: Stat, icount: int, ccount: int, maxInstr: int, maxCycle: int)
    ensures SimRunFrom(k, status, icount, ccount, maxInstr, maxCycle).icount ==
            icount + Completed(k, icount, ccount, maxInstr, maxCycle) + Bubbles(k, icount, ccount, maxInstr, maxCycle)
    decreases maxCycle - ccount
  {
    hide SimStepPipe;
    if icount < maxInstr && ccount < maxCycle {
      var k' := SimStepPipe(k, maxInstr - icount);
      CountsBubbles(k', GenStat(k'.cur.w), icount + 1, ccount + 1, maxInstr, maxCycle);
    }
  }

  /** How many cycles are counted: none beyond either limit, and with status AOK exactly as many as the smaller one
      allows. */
  lemma {:induction false} CountsToLimit(k: Machine, status: Stat, icount: int, ccount: int, maxInstr: int, maxCycle: int)
    requires icount < maxInstr && ccount < maxCycle
    ensures var out, limit := SimRunFrom(k, status, icount, ccount, maxInstr, maxCycle), Least(maxInstr - icount, maxCycle - ccount);
            && icount < out.icount <= icount + limit
            && (out.status == AOK ==> out.icount == icount + limit)
    decreases maxCycle - ccount
  {
    hide SimStepPipe;
    var k' := SimStepPipe(k, maxInstr - icount);
    if icount + 1 < maxInstr && ccount + 1 < maxCycle {
      CountsToLimit(k', GenStat(k'.cur.w), icount + 1, ccount + 1, maxInstr, maxCycle);
    }
  }

  function Least(x: int, y: int): int { if x < y then x else y }

  /** A simulation from reset reports the number of completed instructions exactly if it does not simulate a single
      cycle: the first one has a bubble in write-back. */
  lemma CountIsCompletedIff(mem: Mem, maxInstr: int, maxCycle: int)
    ensures SimRunPipe(Reset(mem), maxInstr, maxCycle).icount == Completed(Reset(mem), 0, 0, maxInstr, maxCycle) <==>
            maxInstr <= 0 || maxCycle <= 0
  {
    hide SimStepPipe;
    CountsBubbles(Reset(mem), AOK, 0, 0, maxInstr, maxCycle);
    if 0 < maxInstr && 0 < maxCycle {
      FirstCycle(mem, maxInstr);
    }
  }

  /** The loop counts cycles, not completed instructions: write-back never reports a bubble, so the
      cycle limit, when it is at least the instruction limit, has no effect. */
  lemma {:induction false} InstructionLimitCountsCycles(k: Machine, status: Stat, icount: int, ccount: int,
                                                        maxInstr: int, maxCycle: int, maxCycle': int)
    requires maxInstr - icount <= maxCycle - ccount <= maxCycle' - ccount
    ensures SimRunFrom(k, status, icount, ccount, maxInstr, maxCycle) ==
            SimRunFrom(k, status, icount, ccount, maxInstr, maxCycle')
    decreases maxCycle - ccount
  {
    hide SimStepPipe;
    if icount < maxInstr && ccount < maxCycle {
      var k' := SimStepPipe(k, maxInstr - icount);
      InstructionLimitCountsCycles(k', GenStat(k'.cur.w), icount + 1, ccount + 1, maxInstr, maxCycle, maxCycle');
    }
  }
}
