/** The assembly language by its bytes: which instructions there are, what they are written with, and the bytes each of
    them becomes, in numbers only. */
module AsmManual {
  import opened Words
  import opened Memory
  import opened Isa
  import opened Asm
  import opened AsmImage
  import Manual = IsaManual

  /** The first bytes of instructions. */
  predicate InstructionByte(c: int) {
    c in {0x00, 0x10, 0x20, 0x21, 0x22, 0x23, 0x24, 0x25, 0x26, 0x30, 0x40, 0x50, 0x60, 0x61, 0x62, 0x63,
          0x70, 0x71, 0x72, 0x73, 0x74, 0x75, 0x76, 0x80, 0x90, 0xA0, 0xB0}
  }

  lemma KnownBytes(c: Byte)
    ensures KnownCode(c) <==> InstructionByte(c)
  {
  }

  /** What an instruction is written with, and its bytes when its operand has value `v`; none if it is not written
      that way. */
  function BytesOf(c: Byte, a: Arg, b: Arg, v: int): (r: Option<seq<Byte>>)
    ensures r.Some? ==> 1 <= |r.value| <= 10
  {
    if c in {0x00, 0x10, 0x90} then
      match (a, b) case (NoArg, NoArg) => Some([c]) case _ => None
    else if 0x20 <= c <= 0x26 || 0x60 <= c <= 0x63 then
      match (a, b) case (Reg(ra), Reg(rb)) => Some([c, 16 * ra + rb]) case _ => None
    else if c == 0x30 then
      match (a, b) case (Imm(_), Reg(rb)) => Some([c, 0xF0 + rb] + LowBytes(v, 8)) case _ => None
    else if c == 0x40 then
      match (a, b) case (Reg(ra), Mem(d, base)) => Some([c, 16 * ra + base] + LowBytes(d, 8)) case _ => None
    else if c == 0x50 then
      match (a, b) case (Mem(d, base), Reg(ra)) => Some([c, 16 * ra + base] + LowBytes(d, 8)) case _ => None
    else if 0x70 <= c <= 0x76 || c == 0x80 then
      match (a, b) case (Imm(_), NoArg) => Some([c] + LowBytes(v, 8)) case _ => None
    else if c in {0xA0, 0xB0} then
      match (a, b) case (Reg(ra), NoArg) => Some([c, 16 * ra + 0xF]) case _ => None
    else None
  }

  /** The table agrees with what the assemblers accept and encode. */
  lemma EncodingExact(c: Byte, a: Arg, b: Arg, v: int)
    ensures StmtFits(Ins(c, a, b)) <==> BytesOf(c, a, b, v).Some?
    ensures StmtFits(Ins(c, a, b)) ==> EncodeWith(Ins(c, a, b), v) == BytesOf(c, a, b, v).value
  {
    hide BytesOf, EncodeWith, KnownCode, ArgsFit;
    ShapesFit(c, a, b, v);
    if StmtFits(Ins(c, a, b)) {
      EncodedBytes(c, a, b, v);
    }
  }

  lemma ShapesFit(c: Byte, a: Arg, b: Arg, v: int)
    ensures StmtFits(Ins(c, a, b)) <==> BytesOf(c, a, b, v).Some?
  {
    hide LowBytes;
  }

  lemma EncodedBytes(c: Byte, a: Arg, b: Arg, v: int)
    requires StmtFits(Ins(c, a, b)) && BytesOf(c, a, b, v).Some?
    ensures EncodeWith(Ins(c, a, b), v) == BytesOf(c, a, b, v).value
  {
    hide LowBytes, EncodeWith, StmtFits, KnownCode, Packed;
    FitsParts(c, a, b);
    KnownBytes(c);
    EncodedParts(c, a, b, v);
    PackedIs(RegFields(c, a, b));
  }

  lemma FitsParts(c: Byte, a: Arg, b: Arg)
    requires StmtFits(Ins(c, a, b))
    ensures KnownCode(c) && ArgsFit(c, a, b)
  {
  }

  lemma EncodedParts(c: Byte, a: Arg, b: Arg, v: int)
    requires StmtFits(Ins(c, a, b))
    ensures var r, d := Packed(RegFields(c, a, b)), LowBytes(ImmField(c, a, b, v), 8);
            EncodeWith(Ins(c, a, b), v) ==
            if HasRegs(c) then (if HasImm(c) then [c, r] + d else [c, r]) else if HasImm(c) then [c] + d else [c]
  {
    hide LowBytes, KnownCode, ArgsFit, RegFields, ImmField, Packed;
    NoParts(c, Packed(RegFields(c, a, b)), LowBytes(ImmField(c, a, b, v), 8));
    PackIs(RegFields(c, a, b).0, RegFields(c, a, b).1);
  }

  function Packed(regs: (Nibble, Nibble)): Byte { 16 * regs.0 + regs.1 }

  lemma PackIs(hi: Nibble, lo: Nibble)
    ensures Pack(hi, lo) == Packed((hi, lo))
  {
  }

  lemma PackedIs(regs: (Nibble, Nibble))
    ensures Packed(regs) == 16 * regs.0 + regs.1
  {
  }

  lemma NoParts(c: Byte, r: Byte, d: seq<Byte>)
    ensures [c] + [] + [] == [c] && [c] + [r] + [] == [c, r] && [c] + [] + d == [c] + d && [c] + [r] + d == [c, r] + d
  {
  }

  /** Data is the low bytes of its value, in one, two, four or eight bytes. */
  lemma DataExact(size: nat, op: Operand, v: int)
    ensures StmtFits(Data(size, op)) <==> size in {1, 2, 4, 8} && (op.Sym? ==> size == 8)
    ensures StmtFits(Data(size, op)) ==> EncodeWith(Data(size, op), v) == LowBytes(v, size)
  {
  }

  /** Where a line stands: at 0 the first; behind the bytes of the line before it; at the address of a `.pos`; at the
      least multiple behind an `.align`. */
  lemma AddressesExact(p: Program, i: nat)
    requires Fits(p) && i < |p|
    ensures AddrAt(p, 0) == 0
    ensures p[i].stmt.None? ==> AddrAt(p, i + 1) == AddrAt(p, i)
    ensures p[i].stmt.Some? && (p[i].stmt.value.Ins? || p[i].stmt.value.Data?) ==>
              AddrAt(p, i + 1) == AddrAt(p, i) + |Encode(p, i)|
    ensures p[i].stmt.Some? && p[i].stmt.value.Pos? ==> AddrAt(p, i + 1) == p[i].stmt.value.addr
    ensures p[i].stmt.Some? && p[i].stmt.value.Align? ==>
              var a, a1, to := AddrAt(p, i), AddrAt(p, i + 1), p[i].stmt.value.to;
              to > 0 && a <= a1 < a + to && a1 % to == 0
  {
    hide EncodeWith, KnownCode, ArgsFit, AlignUp;
  }

  /** A label stands for the address of its line, before any alignment on that line. */
  lemma LabelExact(p: Program, i: nat, name: Name)
    requires Fits(p) && DistinctLabels(p) && i < |p| && p[i].tag == Some(name)
    ensures LabelAddr(p, name) == Some(AddrAt(p, i))
  {
    hide Fits, AddrAt;
  }

  // ---------- on the tools ----------

  /** A program of one instruction with a number as its operand: the one-pass assembler accepts it exactly if the
      table has it, and writes the table's bytes. */
  method AssembleOne(c: Byte, a: Arg, b: Arg, v: Word) returns (ok: bool, file: seq<Byte>)
    requires a.Imm? ==> a.op == Num(v)
    ensures ok <==> BytesOf(c, a, b, v).Some?
    ensures ok ==> file == BytesOf(c, a, b, v).value
  {
    hide FileSpec, EncodeWith, KnownCode, ArgsFit;
    var p := [Line(None, Some(Ins(c, a, b)))];
    EncodingExact(c, a, b, v);
    OneLine(p, c, a, b, v);
    ok, file := Y64Asm(p);
  }

  lemma OneLine(p: Program, c: Byte, a: Arg, b: Arg, v: Word)
    requires p == [Line(None, Some(Ins(c, a, b)))] && (a.Imm? ==> a.op == Num(v))
    ensures Fits(p) <==> StmtFits(Ins(c, a, b))
    ensures DistinctLabels(p)
    ensures Fits(p) ==> AllDefined(p) && Placed(p) && FileSpec(p, 1) == EncodeWith(Ins(c, a, b), v)
  {
    hide KnownCode, ArgsFit, LowBytes;
    if Fits(p) {
      assert AddrAt(p, 0) == 0;
      assert AddrAt(p, 1) == InsSize(c);
      assert Encode(p, 0) == EncodeWith(Ins(c, a, b), v) by {
        ValueUnused(c, a, b, v, ValueOf(p, OperandOf(Ins(c, a, b))));
      }
      hide EncodeWith;
      assert FileSpec(p, 0) == [];
      assert FileSpec(p, 1) == WriteAt([], 0, Encode(p, 0)) == Encode(p, 0);
    }
  }

  /** The value matters only for an immediate. */
  lemma ValueUnused(c: Byte, a: Arg, b: Arg, v: int, w: int)
    requires StmtFits(Ins(c, a, b)) && (a.Imm? ==> v == w)
    ensures EncodeWith(Ins(c, a, b), v) == EncodeWith(Ins(c, a, b), w)
  {
    EncodingExact(c, a, b, v);
    EncodingExact(c, a, b, w);
    hide LowBytes, EncodeWith, KnownCode, ArgsFit;
  }

  /** The simulator of `y64sim.c` calls an instruction bad exactly if its first byte is none of the table's. */
  lemma FetchBadIff(m: seq<Byte>, pc: int)
    ensures Fetch(m, pc) == BadIns <==> 0 <= pc < |m| && !InstructionByte(m[pc])
  {
    if 0 <= pc < |m| {
      KnownBytes(m[pc]);
    }
    hide KnownCode, InstructionByte;
  }

  /** From source to execution: with the program's file in memory and pc at an instruction's address, the bytes at pc
      are the table's, so that `IsaManual` says what the interpreter does with them. */
  lemma AssembledRuns(p: Program, s: State, i: nat, len: nat)
    requires Fits(p) && Placed(p) && Ascending(p) && i < |p| && p[i].stmt.Some? && p[i].stmt.value.Ins?
    requires LoadFile(len, FileSpec(p, |p|)) == Some(s.m) && len <= 0x7FFF_FFFF && s.pc == AddrAt(p, i)
    ensures var t := p[i].stmt.value;
            var bytes := BytesOf(t.code, t.a, t.b, ValueOf(p, OperandOf(t)));
            bytes.Some? && Manual.At(s, bytes.value)
  {
    hide FileSpec, EncodeWith, KnownCode, ArgsFit, AddrAt, LowBytes;
    var t := p[i].stmt.value;
    EncodingExact(t.code, t.a, t.b, ValueOf(p, OperandOf(t)));
    FileHolds(p, |p|, i);
    var f := FileSpec(p, |p|);
    assert Encode(p, i) == EncodeWith(t, ValueOf(p, OperandOf(t)));
    var n := |Encode(p, i)|;
    assert s.m[s.pc..s.pc + n] == f[s.pc..s.pc + n];
  }
}
