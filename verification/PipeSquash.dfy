/** Nothing behind a fault or on a wrong path takes effect, for any contents of the machine: what a bad
    status in the memory stage and a mispredicted branch in the execute stage leave behind. */
module PipeSquash {
  import opened Words
  import opened Memory
  import opened Isa
  import opened Control
  import opened Pipe
  import opened PipeIdeal
  import opened PipeProof

  /** The `current` halves after `n` full cycles. */
  function Iterate(c: Core, n: nat): Core { if n == 0 then c else Next(Iterate(c, n - 1)) }

  /** A fault in write-back stays there, keeps the memory stage empty and holds the flags. */
  lemma FrozenEdge(c: Core)
    requires Bad(c.w.stat)
    ensures var c' := Next(c);
            && c'.w == c.w && c'.m == BUBBLE_M && c'.cc == c.cc
            && c'.mem == Store(c.mem, c.m) && c'.reg == WriteBack(c.reg, c.w)
  {
    SetNone(c.reg, c.w.valE);
    SetNone(SetReg(c.reg, c.w.dstE, c.w.valE), c.w.valM);
    hide SetReg, GetReg, SetWord, GetWord, MemStage, ExStage, DecodeStage, FetchStage, ExCC;
  }

  lemma EmptyStore(mem: Mem)
    ensures Store(mem, BUBBLE_M) == mem
  {
  }

  /** Writing the same results back again changes nothing. */
  lemma WriteBackTwice(r: RegFile, w: MemWb)
    ensures WriteBack(WriteBack(r, w), w) == WriteBack(r, w)
  {
    SetRegTwice(r, w.dstE, w.valE, w.dstM, w.valM);
  }

  lemma SetRegTwice(r: RegFile, d1: Nibble, v1: Word, d2: Nibble, v2: Word)
    ensures var once := SetReg(SetReg(r, d1, v1), d2, v2); SetReg(SetReg(once, d1, v1), d2, v2) == once
  {
  }

  lemma FaultStoresNothing(m: ExMem, mem: Mem)
    requires Bad(MemStage(m, mem).stat) && !(MemWrite(m.icode) && Bad(m.stat))
    ensures Store(mem, m) == mem
  {
    hide GetWord, SetWord;
    StoreFails(mem, m);
  }

  /** From the cycle in which the memory stage meets a halt or a fault on, for ever: write-back holds that
      instruction and the memory stage nothing; memory is unchanged unless that instruction is a store that was
      already bad when it came, the flags are untouched, and registers change by the write-backs of the
      instruction before it and its own. */
  lemma {:induction false} NothingAfterFault(c: Core, n: nat)
    requires !Bad(c.w.stat) && Bad(MemStage(c.m, c.mem).stat) && n >= 1
    ensures var g, w' := Iterate(c, n), MemStage(c.m, c.mem);
            && g.w == w' && g.m == BUBBLE_M && g.cc == c.cc && g.mem == Store(c.mem, c.m)
            && g.reg == (if n == 1 then WriteBack(c.reg, c.w) else WriteBack(WriteBack(c.reg, c.w), w'))
    ensures !(MemWrite(c.m.icode) && Bad(c.m.stat)) ==> Iterate(c, n).mem == c.mem
  {
    hide Next, Compute, MemStage, WriteBack, Store;
    var w' := MemStage(c.m, c.mem);
    if !(MemWrite(c.m.icode) && Bad(c.m.stat)) {
      FaultStoresNothing(c.m, c.mem);
    }
    if n == 1 {
      assert Iterate(c, 1) == Next(Iterate(c, 0)) == Next(c);
      EdgeFacts(c);
      SignalsFacts(c);
    } else {
      NothingAfterFault(c, n - 1);
      FrozenEdge(Iterate(c, n - 1));
      EmptyStore(Store(c.mem, c.m));
      WriteBackTwice(WriteBack(c.reg, c.w), w');
    }
  }

  /** Behind a mispredicted branch that no fault overtakes the two younger instructions become bubbles before
      either reaches execute, the flags stay, and the next fetch is at the address after the branch. */
  lemma NothingOnWrongPath(c: Core)
    requires !Bad(c.w.stat) && !Bad(MemStage(c.m, c.mem).stat)
    requires Mispredicted(c.e, Compute(c, c.cc).m)
    ensures var c', p := Next(c), Compute(c, c.cc);
            && c'.e == BUBBLE_E && c'.d == BUBBLE_D && c'.cc == c.cc && c'.m == p.m && c'.w == p.w
            && GenFPc(c') == c.e.valA
  {
    EdgeFacts(c);
    SignalsFacts(c);
    hide Compute, Next, MemStage, FetchStage, DecodeStage, WriteBack, Store, ComputeAlu, ExCC, CondHolds;
  }
}
