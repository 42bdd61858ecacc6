/** The instruction set by its bytes: what one step does when these bytes stand at pc, in numbers only. */
module IsaManual {
  import opened Words
  import opened Arith
  import opened Memory
  import opened Isa

  /** The bytes at pc. (`mem->len` is a C `int`.) */
  predicate At(s: State, bytes: seq<Byte>) {
    0 <= s.pc && s.pc + |bytes| <= |s.m| <= 0x7FFF_FFFF && s.m[s.pc..s.pc + |bytes|] == bytes
  }

  function Code(icode: Nibble, ifun: Nibble): Byte { 16 * icode + ifun }

  function Regs(a: Nibble, b: Nibble): Byte { 16 * a + b }

  // ---------- reading an instruction ----------

  lemma SmallPc(pc: Word)
    requires 0 <= pc < 0x7FFF_FFFF
    ensures Wrap(pc + 1) == pc + 1 && Wrap(pc + 1 + 1) == pc + 2
    ensures Wrap(pc + 1 + 8) == pc + 9 && Wrap(pc + 2 + 8) == pc + 10
  {
  }

  lemma ByteParts(hi: Nibble, lo: Nibble)
    ensures Hi4(16 * hi + lo) == hi && Lo4(16 * hi + lo) == lo
  {
  }

  lemma ReadShort(s: State, i: Nibble, f: Nibble)
    requires At(s, [Code(i, f)]) && !NeedRegids(i) && !NeedValC(i)
    ensures FetchAt(s.m, s.pc) == Some(Fetched(i, f, true, 15, 15, true, 0, s.pc + 1))
  {
    assert s.m[s.pc] == s.m[s.pc..s.pc + 1][0];
    hide GetWord;
  }

  lemma ReadRegs(s: State, i: Nibble, f: Nibble, a: Nibble, b: Nibble)
    requires At(s, [Code(i, f), Regs(a, b)]) && NeedRegids(i) && !NeedValC(i)
    ensures FetchAt(s.m, s.pc) == Some(Fetched(i, f, true, a, b, true, 0, s.pc + 2))
  {
    hide GetWord, Wrap, Hi4, Lo4;
    SmallPc(s.pc);
    ByteParts(i, f);
    ByteParts(a, b);
    assert s.m[s.pc] == s.m[s.pc..s.pc + 2][0] && s.m[s.pc + 1] == s.m[s.pc..s.pc + 2][1];
  }

  lemma ReadDest(s: State, i: Nibble, f: Nibble, v: Word)
    requires At(s, [Code(i, f)] + LowBytes(v, 8)) && !NeedRegids(i) && NeedValC(i)
    ensures FetchAt(s.m, s.pc) == Some(Fetched(i, f, true, 15, 15, true, v, s.pc + 9))
  {
    hide LowBytes, GetWord, WordOf;
    var bytes := s.m[s.pc..s.pc + 9];
    assert s.m[s.pc] == bytes[0];
    assert s.m[s.pc + 1..s.pc + 9] == bytes[1..] == LowBytes(v, 8);
    ReadWord(s.m, s.pc + 1, v);
  }

  lemma ReadFull(s: State, i: Nibble, f: Nibble, a: Nibble, b: Nibble, v: Word)
    requires At(s, [Code(i, f), Regs(a, b)] + LowBytes(v, 8)) && NeedRegids(i) && NeedValC(i)
    ensures FetchAt(s.m, s.pc) == Some(Fetched(i, f, true, a, b, true, v, s.pc + 10))
  {
    hide LowBytes, GetWord, WordOf, Wrap, Hi4, Lo4;
    SmallPc(s.pc);
    ByteParts(i, f);
    ByteParts(a, b);
    var bytes := s.m[s.pc..s.pc + 10];
    assert s.m[s.pc] == bytes[0] && s.m[s.pc + 1] == bytes[1];
    assert s.m[s.pc + 2..s.pc + 10] == bytes[2..] == LowBytes(v, 8);
    ReadWord(s.m, s.pc + 2, v);
  }

  lemma ReadWord(m: Mem, pos: nat, v: Word)
    requires pos + 8 <= |m| && m[pos..pos + 8] == LowBytes(v, 8)
    ensures GetWord(m, pos) == Some(v)
  {
    hide LowBytes, WordOf;
    WordRoundTrip(v);
  }

  // ---------- reset ----------

  /** After a reset pc and every register are 0, and of the flags zero alone is set: `je` is taken, `jne` not. */
  lemma ResetState(m: Mem, id: Nibble)
    ensures var s := InitState(m);
            s.pc == 0 && s.m == m && GetReg(s.r, id) == 0 && s.cc.zf && !s.cc.sf && !s.cc.of
  {
    if RegValid(id) {
      var r := InitState(m).r;
      assert r[id * 8..id * 8 + 8] == seq(8, _ => 0) == LowBytes(0, 8);
      WordRoundTrip(0);
      hide LowBytes, WordOf;
    }
  }

  // ---------- one instruction ----------

  lemma HaltNop(s: State)
    ensures At(s, [0x00]) ==> Step(s) == (s, HLT)
    ensures At(s, [0x10]) ==> Step(s) == (s.(pc := s.pc + 1), AOK)
  {
    hide FetchAt;
    if At(s, [0x00]) { ReadShort(s, 0, 0); }
    if At(s, [0x10]) { ReadShort(s, 1, 0); }
  }

  /** The conditions of moves and jumps, in terms of the flags. */
  predicate Taken(cc: CC, f: Nibble) {
    match f
    case 0 => true
    case 1 => cc.zf || cc.sf != cc.of
    case 2 => cc.sf != cc.of
    case 3 => cc.zf
    case 4 => !cc.zf
    case 5 => cc.sf == cc.of
    case 6 => !cc.zf && cc.sf == cc.of
    case _ => false
  }

  /** 0x20 to 0x26: move if the condition holds. */
  lemma Move(s: State, f: Nibble, a: Nibble, b: Nibble)
    requires At(s, [0x20 + f, Regs(a, b)])
    ensures Step(s) == if a == 15 || b == 15 then (s, INS)
                       else (s.(r := if Taken(s.cc, f) then SetReg(s.r, b, GetReg(s.r, a)) else s.r, pc := s.pc + 2), AOK)
  {
    hide FetchAt, GetReg, SetReg;
    ReadRegs(s, 2, f, a, b);
  }

  /** 0x30: the constant to rB. */
  lemma MoveConstant(s: State, a: Nibble, b: Nibble, v: Word)
    requires At(s, [0x30, Regs(a, b)] + LowBytes(v, 8))
    ensures Step(s) == if b == 15 then (s, INS) else (s.(r := SetReg(s.r, b, v), pc := s.pc + 10), AOK)
  {
    hide FetchAt, GetReg, SetReg, LowBytes;
    ReadFull(s, 3, 0, a, b, v);
  }

  /** The address of a memory operand: displacement and base, or the displacement alone. */
  function Address(s: State, d: Word, b: Nibble): Word { if b == 15 then d else Wrap(d + GetReg(s.r, b)) }

  /** 0x40: rA to memory. */
  lemma StoreReg(s: State, a: Nibble, b: Nibble, d: Word)
    requires At(s, [0x40, Regs(a, b)] + LowBytes(d, 8))
    ensures Step(s) == if a == 15 then (s, INS)
                       else match SetWord(s.m, Address(s, d, b), GetReg(s.r, a))
                            case None => (s, ADR)
                            case Some(m') => (s.(m := m', pc := s.pc + 10), AOK)
  {
    hide FetchAt, GetReg, SetReg, LowBytes, SetWord, Wrap;
    ReadFull(s, 4, 0, a, b, d);
  }

  /** 0x50: memory to rA. */
  lemma LoadReg(s: State, a: Nibble, b: Nibble, d: Word)
    requires At(s, [0x50, Regs(a, b)] + LowBytes(d, 8))
    ensures Step(s) == if a == 15 then (s, INS)
                       else match GetWord(s.m, Address(s, d, b))
                            case None => (s, ADR)
                            case Some(v) => (s.(r := SetReg(s.r, a, v), pc := s.pc + 10), AOK)
  {
    hide FetchAt, GetReg, SetReg, LowBytes, GetWord, Wrap;
    ReadFull(s, 5, 0, a, b, d);
  }

  /** The word `v` and the flags are what operation `f` makes of `y` and `x`: sum, difference, and the bits set in
      both operands or in exactly one. */
  ghost predicate Computed(f: Nibble, x: Word, y: Word, v: Word, cc: CC) {
    && (cc.zf <==> v == 0) && (cc.sf <==> v < 0)
    && (f == 0 ==> v == Wrap(y + x) && (cc.of <==> !(-TWO_63 <= y + x < TWO_63)))
    && (f == 1 ==> v == Wrap(y - x) && (cc.of <==> !(-TWO_63 <= y - x < TWO_63)))
    && (f == 2 ==> !cc.of && forall i: nat :: i < 64 ==> (Bit(Unsigned(v), i) <==> Bit(Unsigned(x), i) && Bit(Unsigned(y), i)))
    && (f == 3 ==> !cc.of && forall i: nat :: i < 64 ==> (Bit(Unsigned(v), i) <==> Bit(Unsigned(x), i) != Bit(Unsigned(y), i)))
    && (f > 3 ==> v == 0 && !cc.of)
  }

  lemma AluComputes(f: Nibble, x: Word, y: Word)
    ensures Computed(f, x, y, ComputeAlu(f, x, y), ComputeCC(f, x, y))
  {
    hide And, Xor, Bit, Unsigned, Wrap;
    OverflowExact(x, y);
    forall i: nat | i < 64
      ensures Bit(Unsigned(And(x, y)), i) <==> Bit(Unsigned(x), i) && Bit(Unsigned(y), i)
      ensures Bit(Unsigned(Xor(x, y)), i) <==> Bit(Unsigned(x), i) != Bit(Unsigned(y), i)
    {
      BitwiseExact(x, y, i);
    }
  }

  /** 0x60 to 0x63: rB becomes rB op rA, and the flags describe the result. */
  lemma Operate(s: State, f: Nibble, a: Nibble, b: Nibble) returns (v: Word, cc: CC)
    requires At(s, [0x60 + f, Regs(a, b)])
    ensures Step(s) == (State(s.pc + 2, SetReg(s.r, b, v), s.m, cc), AOK)
    ensures Computed(f, GetReg(s.r, a), GetReg(s.r, b), v, cc)
  {
    hide FetchAt, GetReg, SetReg, ComputeAlu, ComputeCC, Computed;
    ReadRegs(s, 6, f, a, b);
    v, cc := ComputeAlu(f, GetReg(s.r, a), GetReg(s.r, b)), ComputeCC(f, GetReg(s.r, a), GetReg(s.r, b));
    AluComputes(f, GetReg(s.r, a), GetReg(s.r, b));
  }

  /** A register XORed with itself becomes zero, and `je` is taken after it. */
  lemma XorSelf(s: State, a: Nibble)
    requires a != 15 && At(s, [0x63, Regs(a, a)])
    ensures Step(s) == (State(s.pc + 2, SetReg(s.r, a, 0), s.m, CC(true, false, false)), AOK)
  {
    var v, cc := Operate(s, 3, a, a);
    NoBits(Unsigned(v), 64) by {
      Pow2Of64();
      hide Bit, Unsigned, Pow2;
    }
    hide Step, GetReg, SetReg, Bit;
    assert Wrap(0) == v;
  }

  /** A pattern without a bit set is zero. */
  lemma {:induction false} NoBits(u: nat, n: nat)
    requires u < Pow2(n) && forall i: nat :: i < n ==> !Bit(u, i)
    ensures u == 0
  {
    if n > 0 {
      assert !Bit(u, 0);
      forall i: nat | i < n - 1
        ensures !Bit(u / 2, i)
      {
        assert !Bit(u, i + 1);
      }
      NoBits(u / 2, n - 1);
    }
  }

  /** 0x70 to 0x76: jump if the condition holds. */
  lemma Jump(s: State, f: Nibble, v: Word)
    requires At(s, [0x70 + f] + LowBytes(v, 8))
    ensures Step(s) == (s.(pc := if Taken(s.cc, f) then v else s.pc + 9), AOK)
  {
    hide FetchAt, LowBytes;
    ReadDest(s, 7, f, v);
  }

  /** 0x80: push the address behind the instruction and go to the destination. Register 4 is the stack pointer. */
  lemma Call(s: State, v: Word)
    requires At(s, [0x80] + LowBytes(v, 8))
    ensures var sp := Wrap(GetReg(s.r, 4) - 8);
            var r := SetReg(s.r, 4, sp);
            Step(s) == match SetWord(s.m, sp, s.pc + 9)
                       case None => (s.(r := r), ADR)
                       case Some(m') => (State(v, r, m', s.cc), AOK)
  {
    hide FetchAt, LowBytes, GetReg, SetReg, SetWord, Wrap;
    ReadDest(s, 8, 0, v);
  }

  /** 0x90: pop the pc. */
  lemma Return(s: State)
    requires At(s, [0x90])
    ensures var sp := GetReg(s.r, 4);
            Step(s) == match GetWord(s.m, sp)
                       case None => (s, ADR)
                       case Some(v) => (s.(r := SetReg(s.r, 4, Wrap(sp + 8)), pc := v), AOK)
  {
    hide FetchAt, GetReg, SetReg, GetWord, Wrap;
    ReadShort(s, 9, 0);
  }

  /** 0xA0: push rA, the old value if rA is the stack pointer. */
  lemma Push(s: State, a: Nibble, b: Nibble)
    requires At(s, [0xA0, Regs(a, b)])
    ensures var sp := Wrap(GetReg(s.r, 4) - 8);
            var r := SetReg(s.r, 4, sp);
            Step(s) == if a == 15 then (s, INS)
                       else match SetWord(s.m, sp, GetReg(s.r, a))
                            case None => (s.(r := r), ADR)
                            case Some(m') => (State(s.pc + 2, r, m', s.cc), AOK)
  {
    hide FetchAt, GetReg, SetReg, SetWord, Wrap;
    ReadRegs(s, 10, 0, a, b);
  }

  /** 0xB0: pop to rA, which keeps the popped value if it is the stack pointer. */
  lemma Pop(s: State, a: Nibble, b: Nibble)
    requires At(s, [0xB0, Regs(a, b)])
    ensures var sp := GetReg(s.r, 4);
            var r := SetReg(s.r, 4, Wrap(sp + 8));
            Step(s) == if a == 15 then (s, INS)
                       else match GetWord(s.m, sp)
                            case None => (s.(r := r), ADR)
                            case Some(v) => (State(s.pc + 2, SetReg(r, a, v), s.m, s.cc), AOK)
  {
    hide FetchAt, GetReg, SetReg, GetWord, Wrap;
    ReadRegs(s, 11, 0, a, b);
  }

  /** 0xC0: add the constant to rB, with the flags of an addition. */
  lemma AddConstant(s: State, a: Nibble, b: Nibble, v: Word) returns (cc: CC)
    requires At(s, [0xC0, Regs(a, b)] + LowBytes(v, 8))
    ensures Step(s) == if b == 15 then (s, INS)
                       else (State(s.pc + 10, SetReg(s.r, b, Wrap(GetReg(s.r, b) + v)), s.m, cc), AOK)
    ensures Computed(0, v, GetReg(s.r, b), Wrap(GetReg(s.r, b) + v), cc)
  {
    hide FetchAt, GetReg, SetReg, ComputeCC, Computed, LowBytes, Wrap;
    ReadFull(s, 12, 0, a, b, v);
    cc := ComputeCC(0, v, GetReg(s.r, b));
    AluComputes(0, v, GetReg(s.r, b));
    assert v + GetReg(s.r, b) == GetReg(s.r, b) + v;
  }

  /** 0xD0 to 0xFF: no instruction; and pc out of memory. */
  lemma NoInstruction(s: State, i: Nibble, f: Nibble)
    ensures At(s, [Code(i, f)]) && i > 12 ==> Step(s) == (s, INS)
    ensures !(0 <= s.pc < |s.m|) ==> Step(s) == (s, ADR)
  {
    hide FetchAt;
    if At(s, [Code(i, f)]) && i > 12 { ReadShort(s, i, f); }
  }
}
