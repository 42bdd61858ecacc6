/** The instruction-set interpreter as the C code runs it: a state updated in place. */
module IsaSim {
  import opened Words
  import opened Memory
  import opened Isa

  class IsaState {
    var pc: Word
    const r: array<Byte>
    const m: array<Byte>
    var cc: CC

    ghost predicate Valid() { r.Length == 128 && r != m }

    ghost function Value(): State
      reads this, r, m
      requires Valid()
    {
      State(pc, r[..], m[..], cc)
    }

    /** `new_state` with the memory image and registers copied in. */
    constructor (regs: seq<Byte>, image: seq<Byte>)
      requires |regs| == 128
      ensures Valid() && fresh(r) && fresh(m)
      ensures Value() == State(0, regs, image, DEFAULT_CC)
    {
      pc := 0;
      cc := DEFAULT_CC;
      var r0 := new Byte[|regs|](i requires 0 <= i < |regs| => regs[i]);
      var m0 := new Byte[|image|](i requires 0 <= i < |image| => image[i]);
      r := r0;
      m := m0;
      new;
      assert r[..] == regs && m[..] == image;
    }

    /** The bytes of the instruction at pc; `ok` is false when its first byte is missing. */
    method Fetch() returns (ok: bool, f: Fetched)
      requires Valid()
      ensures ok <==> FetchAt(m[..], pc).Some?
      ensures ok ==> Some(f) == FetchAt(m[..], pc)
    {
      var byte0: Byte, byte1: Byte, cval: Word := 0, 0, 0;
      var hi1: Nibble, lo1: Nibble := REG_NONE, REG_NONE;
      var ok1, okc := true, true;
      var ftpc := pc;
      ok, byte0 := GetByteVal(m, ftpc);
      ftpc := Wrap(ftpc as int + 1);
      var hi0, lo0 := Hi4(byte0), Lo4(byte0);
      if NeedRegids(hi0) {
        ok1, byte1 := GetByteVal(m, ftpc);
        if !ok1 { byte1 := 0; }
        ftpc := Wrap(ftpc as int + 1);
        hi1, lo1 := Hi4(byte1), Lo4(byte1);
      }
      if NeedValC(hi0) {
        okc, cval := GetWordVal(m, ftpc);
        if !okc { cval := 0; }
        ftpc := Wrap(ftpc as int + 8);
      }
      f := Fetched(hi0, lo0, ok1, hi1, lo1, okc, cval, ftpc);
      hide GetByte, GetWord;
    }

    /** Execute a single instruction and return its status. */
    method StepState() returns (stat: Stat)
      requires Valid()
      modifies this`pc, this`cc, r, m
      ensures (Value(), stat) == Step(old(Value()))
    {
      var ok, f := Fetch();
      if !ok {
        return ADR;
      }
      stat := Dispatch(f);
    }

    method Dispatch(f: Fetched) returns (stat: Stat)
      requires Valid()
      modifies this`pc, this`cc, r, m
      ensures (Value(), stat) == Execute(old(Value()), f)
    {
      hide GetReg, SetReg, GetWord, SetWord, ComputeAlu, ComputeCC, CondHolds;
      if f.icode == I_NOP {
        pc := f.next;
      } else if f.icode == I_HALT {
        return HLT;
      } else if f.icode == I_RRMOVQ || f.icode == I_IRMOVQ || f.icode == I_ALU || f.icode == I_IADDQ {
        stat := RegisterOp(f);
        return;
      } else if f.icode == I_RMMOVQ || f.icode == I_MRMOVQ {
        stat := MemoryOp(f);
        return;
      } else if f.icode == I_JMP {
        if !f.ok1 || !f.okc { return ADR; }
        if CondHolds(cc, f.ifun) {
          pc := f.cval;
        } else {
          pc := f.next;
        }
      } else if f.icode == I_CALL || f.icode == I_RET || f.icode == I_PUSHQ || f.icode == I_POPQ {
        stat := StackOp(f);
        return;
      } else {
        return INS;
      }
      stat := AOK;
    }

    method RegisterOp(f: Fetched) returns (stat: Stat)
      requires Valid()
      requires f.icode == I_RRMOVQ || f.icode == I_IRMOVQ || f.icode == I_ALU || f.icode == I_IADDQ
      modifies this`pc, this`cc, r
      ensures (Value(), stat) == Execute(old(Value()), f)
    {
      hide GetReg, SetReg, GetWord, SetWord, ComputeAlu, ComputeCC, CondHolds;
      if !f.ok1 { return ADR; }
      if f.icode == I_RRMOVQ {
        if !RegValid(f.hi1) || !RegValid(f.lo1) { return INS; }
        var val := GetRegVal(r, f.hi1);
        if CondHolds(cc, f.ifun) {
          SetRegVal(r, f.lo1, val);
        }
      } else if f.icode == I_IRMOVQ {
        if !f.okc || !RegValid(f.lo1) { return INS; }
        SetRegVal(r, f.lo1, f.cval);
      } else if f.icode == I_ALU {
        var argA := GetRegVal(r, f.hi1);
        var argB := GetRegVal(r, f.lo1);
        var val := ComputeAlu(f.ifun, argA, argB);
        SetRegVal(r, f.lo1, val);
        cc := ComputeCC(f.ifun, argA, argB);
      } else {
        if !f.okc || !RegValid(f.lo1) { return INS; }
        var argB := GetRegVal(r, f.lo1);
        var val := Wrap(argB as int + f.cval);
        SetRegVal(r, f.lo1, val);
        cc := ComputeCC(A_ADD, f.cval, argB);
      }
      pc := f.next;
      stat := AOK;
    }

    method MemoryOp(f: Fetched) returns (stat: Stat)
      requires Valid()
      requires f.icode == I_RMMOVQ || f.icode == I_MRMOVQ
      modifies this`pc, r, m
      ensures (Value(), stat) == Execute(old(Value()), f)
    {
      hide GetReg, SetReg, GetWord, SetWord, ComputeAlu, ComputeCC, CondHolds;
      if !f.ok1 { return ADR; }
      if !f.okc || !RegValid(f.hi1) { return INS; }
      var cval := f.cval;
      if RegValid(f.lo1) {
        var base := GetRegVal(r, f.lo1);
        cval := Wrap(cval as int + base);
      }
      if f.icode == I_RMMOVQ {
        var val := GetRegVal(r, f.hi1);
        var ok := SetWordVal(m, cval, val);
        if !ok { return ADR; }
      } else {
        var ok, val := GetWordVal(m, cval);
        if !ok { return ADR; }
        SetRegVal(r, f.hi1, val);
      }
      pc := f.next;
      stat := AOK;
    }

    method StackOp(f: Fetched) returns (stat: Stat)
      requires Valid()
      requires f.icode == I_CALL || f.icode == I_RET || f.icode == I_PUSHQ || f.icode == I_POPQ
      modifies this`pc, r, m
      ensures (Value(), stat) == Execute(old(Value()), f)
    {
      hide GetReg, SetReg, GetWord, SetWord, ComputeAlu, ComputeCC, CondHolds;
      if f.icode != I_RET && !f.ok1 { return ADR; }
      if f.icode == I_CALL {
        if !f.okc { return ADR; }
        var sp := GetRegVal(r, REG_RSP);
        var val := Wrap(sp as int - 8);
        SetRegVal(r, REG_RSP, val);
        var ok := SetWordVal(m, val, f.next);
        if !ok { return ADR; }
        pc := f.cval;
      } else if f.icode == I_RET {
        var dval := GetRegVal(r, REG_RSP);
        var ok, val := GetWordVal(m, dval);
        if !ok { return ADR; }
        SetRegVal(r, REG_RSP, Wrap(dval as int + 8));
        pc := val;
      } else if f.icode == I_PUSHQ {
        if !RegValid(f.hi1) { return INS; }
        var val := GetRegVal(r, f.hi1);
        var sp := GetRegVal(r, REG_RSP);
        var dval := Wrap(sp as int - 8);
        SetRegVal(r, REG_RSP, dval);
        var ok := SetWordVal(m, dval, val);
        if !ok { return ADR; }
        pc := f.next;
      } else {
        if !RegValid(f.hi1) { return INS; }
        var dval := GetRegVal(r, REG_RSP);
        SetRegVal(r, REG_RSP, Wrap(dval as int + 8));
        var ok, val := GetWordVal(m, dval);
        if !ok { return ADR; }
        SetRegVal(r, f.hi1, val);
        pc := f.next;
      }
      stat := AOK;
    }

    /** Step until a status other than AOK or until `limit` steps. */
    method RunState(limit: nat) returns (stat: Stat)
      requires Valid()
      modifies this`pc, this`cc, r, m
      ensures (Value(), stat) == RunFor(old(Value()), limit)
    {
      hide Step;
      stat := AOK;
      var step := 0;
      ghost var s := Value();
      while step < limit && stat == AOK
        invariant step <= limit
        invariant RunFor(s, limit) == if stat == AOK then RunFor(Value(), limit - step) else (Value(), stat)
      {
        stat := StepState();
        step := step + 1;
      }
    }
  }
}
