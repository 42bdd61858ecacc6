/** `y64asm.c`: one pass over the lines that leaves zeros where a label goes, and a list of places to relocate. */
module AsmOnePass {
  import opened Words
  import opened Memory
  import opened Isa
  import opened Asm

  /** `bin_t` and `reloc_t`; the symbol and relocation lists have the newest entry first. */
  datatype Bin = Bin(addr: int, codes: seq<Byte>, bytes: nat)
  datatype Reloc = Reloc(bin: nat, name: Name)

  // ---------- tables ----------

  predicate NeedRegA(code: Byte) { Hi4(code) in {I_RRMOVQ, I_RMMOVQ, I_ALU, I_PUSHQ, I_POPQ} }

  predicate NeedRegB(code: Byte) { Hi4(code) in {I_MRMOVQ, I_RRMOVQ, I_IRMOVQ, I_ALU} }

  predicate NeedImm(code: Byte) { Hi4(code) in {I_IRMOVQ, I_JMP, I_CALL} }

  predicate NeedMemA(code: Byte) { Hi4(code) == I_MRMOVQ }

  predicate NeedMemB(code: Byte) { Hi4(code) == I_RMMOVQ }

  /** `*(int64_t *)(codes + offset) = v`. */
  function Store(codes: seq<Byte>, offset: nat, v: int): (r: seq<Byte>)
    requires offset + 8 <= |codes|
    ensures |r| == |codes|
  {
    codes[..offset] + LowBytes(v, 8) + codes[offset + 8..]
  }

  const ZERO10: seq<Byte> := [0, 0, 0, 0, 0, 0, 0, 0, 0, 0]

  /** The value an operand has in the first pass. */
  function Early(op: Operand): int { match op case Num(v) => v case Sym(_) => 0 }

  // ---------- one line's bytes ----------

  /** A line's bytes, if its operand has value `v`. */
  predicate BinOk(b: Bin, addr: int, s: Stmt, v: int)
    requires StmtFits(s)
  {
    && b.addr == addr && b.bytes == SizeOf(s) && |b.codes| == 10
    && b.codes[..b.bytes] == EncodeWith(s, v)
  }

  /** The bytes of an instruction put together field by field. */
  lemma InstructionBytes(code: Byte, a: Arg, b: Arg, v: int, codes: seq<Byte>, imm: int)
    requires KnownCode(code) && ArgsFit(code, a, b)
    requires HasImm(code) ==> imm == ImmField(code, a, b, v)
    requires var regs, c0 := RegFields(code, a, b), ZERO10[0 := code];
             var c1 := if HasRegs(code) then c0[1 := Pack(regs.0, regs.1)] else c0;
             codes == if HasImm(code) then Store(c1, if HasRegs(code) then 2 else 1, imm) else c1
    ensures |codes| == 10 && codes[..InsSize(code)] == EncodeWith(Ins(code, a, b), v)
  {
    hide LowBytes, KnownCode, ArgsFit, RegFields, ImmField, Pack, Store;
    var regs, c0 := RegFields(code, a, b), ZERO10[0 := code];
    var c1 := if HasRegs(code) then c0[1 := Pack(regs.0, regs.1)] else c0;
    assert c1[..if HasRegs(code) then 2 else 1] == [code] + if HasRegs(code) then [Pack(regs.0, regs.1)] else [];
    if HasImm(code) {
      StorePrefix(c1, if HasRegs(code) then 2 else 1, imm);
    }
  }

  lemma StorePrefix(c: seq<Byte>, offset: nat, v: int)
    requires offset + 8 <= |c|
    ensures Store(c, offset, v)[..offset + 8] == c[..offset] + LowBytes(v, 8)
  {
  }

  /** Relocating a line replaces the operand's value. */
  lemma RelocatedBytes(b: Bin, addr: int, s: Stmt, v: int, w: int)
    requires StmtFits(s) && OperandOf(s).Sym? && BinOk(b, addr, s, v)
    ensures 8 <= b.bytes <= 10
    ensures BinOk(b.(codes := Store(b.codes, b.bytes - 8, w)), addr, s, w)
  {
    hide LowBytes, KnownCode;
    var c := b.codes;
    var r := Store(c, b.bytes - 8, w);
    assert r[..b.bytes] == c[..b.bytes][..b.bytes - 8] + LowBytes(w, 8);
    assert EncodeWith(s, w) == EncodeWith(s, v)[..b.bytes - 8] + LowBytes(w, 8);
  }

  // ---------- symbols ----------

  /** The symbol list after `n` lines. */
  function SymbolsAt(p: Program, n: nat): seq<Symbol>
    requires Fits(p) && n <= |p|
  {
    if n == 0 then []
    else
      match p[n - 1].tag
      case None => SymbolsAt(p, n - 1)
      case Some(name) => [Symbol(name, AddrAt(p, n - 1))] + SymbolsAt(p, n - 1)
  }

  lemma {:induction false} FindIsLabel(p: Program, n: nat, name: Name)
    requires Fits(p) && n <= |p|
    ensures Find(SymbolsAt(p, n), name) == AddrOfLine(p, DefinedAt(p, n, name))
  {
    hide AddrAt, Fits;
    if n > 0 {
      FindIsLabel(p, n - 1, name);
      SymbolStep(p, n - 1);
    }
  }

  lemma SymbolStep(p: Program, n: nat)
    requires Fits(p) && n < |p|
    ensures p[n].tag.None? ==> SymbolsAt(p, n + 1) == SymbolsAt(p, n)
    ensures p[n].tag.Some? ==>
              && SymbolsAt(p, n + 1)[0] == Symbol(p[n].tag.value, AddrAt(p, n))
              && SymbolsAt(p, n + 1)[1..] == SymbolsAt(p, n)
  {
    hide AddrAt, Fits;
  }

  /** No label of the first `n` lines is defined twice. */
  predicate DistinctTo(p: Program, n: nat)
    requires n <= |p|
  {
    forall i, j :: 0 <= i < j < n && p[i].tag.Some? ==> p[i].tag != p[j].tag
  }

  // ---------- alignment ----------

  /** C's `%`. */
  function Rem(a: int, b: int): int
    requires b > 0
  {
    if a >= 0 then a % b else -(-a % b)
  }

  function OnePassAlign(addr: int, to: int): int
    requires to > 0
  {
    if Rem(addr, to) != 0 then addr + to - Rem(addr, to) else addr
  }

  function OnePassAfter(addr: int, s: Stmt): int
    requires Supported(s)
  {
    match s
    case Pos(a) => a
    case Align(to) => OnePassAlign(addr, to)
    case _ => addr + SizeOf(s)
  }

  /** At nonnegative addresses the location counter moves as it should. */
  lemma OnePassAfterIsAfter(addr: int, s: Stmt)
    requires StmtFits(s) && addr >= 0
    ensures OnePassAfter(addr, s) == After(addr, s)
  {
  }

  lemma DataBytes(size: nat, op: Operand, v: int)
    requires StmtFits(Data(size, op))
    ensures Store(ZERO10, 0, v)[..size] == EncodeWith(Data(size, op), v)
  {
    LowBytesPrefix(v, size, 8);
    assert Store(ZERO10, 0, v)[..size] == LowBytes(v, 8)[..size];
  }

  lemma {:induction false} LowBytesPrefix(v: int, n: nat, m: nat)
    requires n <= m
    ensures LowBytes(v, m)[..n] == LowBytes(v, n)
    decreases n
  {
    if n > 0 {
      LowBytesPrefix(v / 256, n - 1, m - 1);
      assert LowBytes(v, m) == [v % 256] + LowBytes(v / 256, m - 1);
    }
  }

  // ---------- the lists after n lines ----------

  function NoteOperand(relocs: seq<Reloc>, bin: nat, s: Stmt): seq<Reloc> {
    match OperandOf(s)
    case Num(_) => relocs
    case Sym(name) => [Reloc(bin, name)] + relocs
  }

  function RelocsAt(p: Program, n: nat): seq<Reloc>
    requires n <= |p|
  {
    if n == 0 then []
    else match p[n - 1].stmt
      case None => RelocsAt(p, n - 1)
      case Some(s) => NoteOperand(RelocsAt(p, n - 1), n - 1, s)
  }

  /** The bytes kept for line `i`, if its operand has value `v`. */
  predicate LineOk(p: Program, b: Bin, i: nat, v: int)
    requires Fits(p) && i < |p|
  {
    match p[i].stmt
    case None => b.bytes == 0
    case Some(s) => BinOk(b, AddrAt(p, i), s, v)
  }

  function EarlyValue(p: Program, i: nat): int
    requires i < |p|
  {
    match p[i].stmt case None => 0 case Some(s) => Early(OperandOf(s))
  }

  function FinalValue(p: Program, i: nat): int
    requires Fits(p) && i < |p|
  {
    match p[i].stmt case None => 0 case Some(s) => ValueOf(p, OperandOf(s))
  }

  predicate HasSymbol(p: Program, i: nat)
    requires i < |p|
  {
    p[i].stmt.Some? && OperandOf(p[i].stmt.value).Sym?
  }

  lemma DuplicateLabel(p: Program, n: nat)
    requires Fits(p) && n < |p| && p[n].tag.Some? && Find(SymbolsAt(p, n), p[n].tag.value).Some?
    ensures !DistinctLabels(p)
  {
    FindIsLabel(p, n, p[n].tag.value);
  }

  lemma ParsedStep(p: Program, n: nat, b0: seq<Bin>, r0: seq<Reloc>, v0: int, s0: seq<Symbol>,
                   b1: seq<Bin>, r1: seq<Reloc>, v1: int, s1: seq<Symbol>)
    requires Fits(p) && Placed(p) && n < |p| && |b0| == n
    requires v0 == AddrAt(p, n) && s0 == SymbolsAt(p, n) && DistinctTo(p, n) && r0 == RelocsAt(p, n)
    requires forall i :: 0 <= i < n ==> LineOk(p, b0[i], i, EarlyValue(p, i))
    requires |b1| == n + 1 && b1[..n] == b0 && (p[n].tag.Some? ==> Find(s0, p[n].tag.value).None?)
    requires s1 == if p[n].tag.Some? then [Symbol(p[n].tag.value, v0)] + s0 else s0
    requires p[n].stmt.None? ==> v1 == v0 && r1 == r0 && b1[n].bytes == 0
    requires p[n].stmt.Some? ==>
               var s := p[n].stmt.value;
               v1 == OnePassAfter(v0, s) && BinOk(b1[n], v0, s, Early(OperandOf(s))) && r1 == NoteOperand(r0, n, s)
    ensures v1 == AddrAt(p, n + 1) && s1 == SymbolsAt(p, n + 1) && DistinctTo(p, n + 1) && r1 == RelocsAt(p, n + 1)
    ensures forall i :: 0 <= i < n + 1 ==> LineOk(p, b1[i], i, EarlyValue(p, i))
  {
    hide BinOk, EncodeWith, OnePassAfter, After, DistinctTo, StmtFits, LineOk;
    if p[n].stmt.Some? {
      OnePassAfterIsAfter(v0, p[n].stmt.value);
    }
    SymbolStep(p, n);
    NewLabel(p, n);
    forall i | 0 <= i < n
      ensures b1[i] == b0[i]
    {
      assert b1[..n][i] == b0[i];
    }
    ParsedLine(p, n, b1[n]);
  }

  lemma ParsedLine(p: Program, n: nat, b: Bin)
    requires Fits(p) && n < |p|
    requires if p[n].stmt.None? then b.bytes == 0
             else BinOk(b, AddrAt(p, n), p[n].stmt.value, Early(OperandOf(p[n].stmt.value)))
    ensures LineOk(p, b, n, EarlyValue(p, n))
  {
    hide BinOk, AddrAt;
  }

  lemma AddrAtStart(p: Program)
    requires Fits(p)
    ensures AddrAt(p, 0) == 0
  {
  }

  lemma NewLabel(p: Program, n: nat)
    requires Fits(p) && n < |p| && DistinctTo(p, n)
    requires p[n].tag.Some? ==> Find(SymbolsAt(p, n), p[n].tag.value).None?
    ensures DistinctTo(p, n + 1)
  {
    hide AddrAt, Fits, SymbolsAt;
    if p[n].tag.Some? {
      FindIsLabel(p, n, p[n].tag.value);
    }
  }

  /** The newest relocation belongs to the last line, of the first `m`, that refers to a symbol. */
  lemma {:induction false} NextReloc(p: Program, m: nat) returns (k: nat)
    requires m <= |p| && RelocsAt(p, m) != []
    ensures k < m && HasSymbol(p, k) && forall i :: k < i < m ==> !HasSymbol(p, i)
    ensures RelocsAt(p, m)[0] == Reloc(k, OperandOf(p[k].stmt.value).name) && RelocsAt(p, m)[1..] == RelocsAt(p, k)
  {
    if HasSymbol(p, m - 1) {
      k := m - 1;
    } else {
      k := NextReloc(p, m - 1);
    }
  }

  lemma {:induction false} NoRelocs(p: Program, m: nat)
    requires m <= |p| && RelocsAt(p, m) == []
    ensures forall i :: 0 <= i < m ==> !HasSymbol(p, i)
  {
    if m > 0 {
      NoRelocs(p, m - 1);
    }
  }

  /** Lines without a symbol are final from the start. */
  lemma NoSymbol(p: Program, i: nat)
    requires Fits(p) && i < |p| && !HasSymbol(p, i)
    ensures EarlyValue(p, i) == FinalValue(p, i) && Defined(p, i)
  {
  }

  lemma RelocateLine(p: Program, b: Bin, k: nat, addr: int)
    requires Fits(p) && k < |p| && HasSymbol(p, k) && LineOk(p, b, k, EarlyValue(p, k))
    requires LabelAddr(p, OperandOf(p[k].stmt.value).name) == Some(addr)
    ensures 8 <= b.bytes <= 10 && |b.codes| == 10
    ensures LineOk(p, b.(codes := Store(b.codes, b.bytes - 8, addr)), k, FinalValue(p, k)) && Defined(p, k)
  {
    RelocatedBytes(b, AddrAt(p, k), p[k].stmt.value, EarlyValue(p, k), addr);
  }

  // ---------- the assembler ----------

  class OnePass {
    var vmaddr: int
    var symbols: seq<Symbol>
    var relocs: seq<Reloc>
    var bins: seq<Bin>

    constructor ()
      ensures vmaddr == 0 && symbols == [] && relocs == [] && bins == []
    {
      vmaddr, symbols, relocs, bins := 0, [], [], [];
    }

    /** `find_symbol`. */
    method FindSymbol(name: Name) returns (r: Option<int>)
      ensures r == Find(symbols, name)
    {
      var s := symbols;
      while s != []
        invariant Find(s, name) == Find(symbols, name)
        decreases |s|
      {
        if s[0].name == name {
          return Some(s[0].addr);
        }
        s := s[1..];
      }
      return None;
    }

    /** `add_symbol`. */
    method AddSymbol(name: Name) returns (ok: bool)
      modifies this`symbols
      ensures ok == old(Find(symbols, name)).None?
      ensures symbols == if ok then [Symbol(name, vmaddr)] + old(symbols) else old(symbols)
    {
      var found := FindSymbol(name);
      if found.Some? {
        return false;
      }
      symbols := [Symbol(name, vmaddr)] + symbols;
      ok := true;
    }

    /** `add_reloc`. */
    method AddReloc(name: Name, bin: nat)
      modifies this`relocs
      ensures relocs == [Reloc(bin, name)] + old(relocs)
    {
      relocs := [Reloc(bin, name)] + relocs;
    }

    /** The value of a parsed immediate or data token; a symbol is noted for relocation and counts as zero. */
    method TakeOperand(op: Operand) returns (imm: int)
      modifies this`relocs
      ensures imm == Early(op)
      ensures relocs == if op.Sym? then [Reloc(|bins|, op.name)] + old(relocs) else old(relocs)
    {
      match op {
        case Num(v) => imm := v;
        case Sym(name) =>
          imm := 0;
          AddReloc(name, |bins|);
      }
    }

    /** `parse_line` for an instruction: registers, operands and bytes. */
    method ParseInstruction(code: Byte, a: Arg, b: Arg) returns (ok: bool, codes: seq<Byte>)
      requires KnownCode(code)
      modifies this`relocs
      ensures ok == ArgsFit(code, a, b)
      ensures ok ==>
                |codes| == 10 && codes[..InsSize(code)] == EncodeWith(Ins(code, a, b), Early(OperandOf(Ins(code, a, b))))
      ensures ok ==> relocs == if OperandOf(Ins(code, a, b)).Sym?
                                then [Reloc(|bins|, OperandOf(Ins(code, a, b)).name)] + old(relocs) else old(relocs)
    {
      codes := ZERO10[0 := code];
      var regA, regB, imm := REG_NONE, REG_NONE, 0;
      var regOrder, hasReg, hasImm := true, false, false;
      if NeedRegA(code) {
        if !a.Reg? { return false, codes; }
        regA := a.id;
        hasReg := true;
      }
      if NeedMemA(code) {
        if !a.Mem? { return false, codes; }
        imm, regA := a.disp, a.base;
        regOrder, hasReg, hasImm := false, true, true;
      }
      if NeedImm(code) {
        if !a.Imm? { return false, codes; }
        imm := TakeOperand(a.op);
        hasImm := true;
      }
      if !NeedRegA(code) && !NeedMemA(code) && !NeedImm(code) && !a.NoArg? { return false, codes; }
      if NeedRegB(code) {
        if !b.Reg? { return false, codes; }
        regB := b.id;
        hasReg := true;
      }
      if NeedMemB(code) {
        if !b.Mem? { return false, codes; }
        imm, regB := b.disp, b.base;
        hasReg, hasImm := true, true;
      }
      if !NeedRegB(code) && !NeedMemB(code) && !b.NoArg? { return false, codes; }
      var offset := 1;
      if hasReg {
        codes := codes[offset := if regOrder then Pack(regA, regB) else Pack(regB, regA)];
        offset := offset + 1;
      }
      if hasImm {
        codes := Store(codes, offset, imm);
      }
      ok := true;
      InstructionBytes(code, a, b, Early(OperandOf(Ins(code, a, b))), codes, imm);
    }

    /** `parse_line`: a label, a statement, or both, or neither. */
    method ParseLine(line: Line) returns (ok: bool)
      requires line.stmt.Some? ==> Supported(line.stmt.value)
      modifies this
      ensures ok <==>
                && (line.tag.Some? ==> old(Find(symbols, line.tag.value)).None?)
                && (line.stmt.Some? ==> StmtFits(line.stmt.value))
      ensures ok ==>
                symbols == if line.tag.Some? then [Symbol(line.tag.value, old(vmaddr))] + old(symbols) else old(symbols)
      ensures ok ==> |bins| == |old(bins)| + 1 && bins[..|old(bins)|] == old(bins)
      ensures ok && line.stmt.None? ==> vmaddr == old(vmaddr) && relocs == old(relocs) && bins[|old(bins)|].bytes == 0
      ensures ok && line.stmt.Some? ==>
                var s := line.stmt.value;
                && vmaddr == OnePassAfter(old(vmaddr), s)
                && BinOk(bins[|old(bins)|], old(vmaddr), s, Early(OperandOf(s)))
                && relocs == NoteOperand(old(relocs), |old(bins)|, s)
    {
      hide EncodeWith, KnownCode, ArgsFit, LowBytes;
      if line.tag.Some? {
        ok := AddSymbol(line.tag.value);
        if !ok { return; }
      }
      match line.stmt {
        case None =>
          bins := bins + [Bin(0, ZERO10, 0)];
        case Some(Ins(code, a, b)) =>
          if !KnownCode(code) { return false; }
          var codes;
          ok, codes := ParseInstruction(code, a, b);
          if !ok { return; }
          bins := bins + [Bin(vmaddr, codes, InsSize(code))];
          vmaddr := vmaddr + InsSize(code);
        case Some(Data(size, op)) =>
          var imm := TakeOperand(op);
          DataBytes(size, op, imm);
          bins := bins + [Bin(vmaddr, Store(ZERO10, 0, imm), size)];
          vmaddr := vmaddr + size;
        case Some(Pos(addr)) =>
          bins := bins + [Bin(vmaddr, Store(ZERO10, 0, addr), 0)];
          vmaddr := addr;
        case Some(Align(to)) =>
          bins := bins + [Bin(vmaddr, Store(ZERO10, 0, to), 0)];
          if Rem(vmaddr, to) != 0 {
            vmaddr := vmaddr + to - Rem(vmaddr, to);
          }
      }
      ok := true;
    }

    /** What is known after the first `n` lines of `p`. */
    ghost predicate Parsed(p: Program, n: nat)
      reads this
      requires Fits(p) && n <= |p|
    {
      && vmaddr == AddrAt(p, n) && symbols == SymbolsAt(p, n) && DistinctTo(p, n) && relocs == RelocsAt(p, n)
      && |bins| == n && forall i :: 0 <= i < n ==> LineOk(p, bins[i], i, EarlyValue(p, i))
    }

    /** `assemble`. */
    method Assemble(p: Program) returns (ok: bool)
      requires forall i :: 0 <= i < |p| && p[i].stmt.Some? ==> Supported(p[i].stmt.value)
      requires Fits(p) ==> Placed(p)
      requires vmaddr == 0 && symbols == [] && relocs == [] && bins == []
      modifies this
      ensures ok <==> Fits(p) && DistinctLabels(p)
      ensures ok ==> Parsed(p, |p|)
    {
      hide LineOk, BinOk, StmtFits, AddrAt, OnePassAfter;
      if Fits(p) { AddrAtStart(p); }
      var n := 0;
      while n < |p|
        invariant 0 <= n <= |p| && forall i :: 0 <= i < n && p[i].stmt.Some? ==> StmtFits(p[i].stmt.value)
        invariant Fits(p) ==> Parsed(p, n)
      {
        ghost var b0, r0, v0, s0 := bins, relocs, vmaddr, symbols;
        ok := ParseLine(p[n]);
        if !ok {
          if Fits(p) {
            DuplicateLabel(p, n);
          }
          return;
        }
        if Fits(p) {
          ParsedStep(p, n, b0, r0, v0, s0, bins, relocs, vmaddr, symbols);
        }
        n := n + 1;
      }
      ok := true;
    }

    /** `relocate`. */
    method Relocate(ghost p: Program) returns (ok: bool)
      requires Fits(p) && Parsed(p, |p|)
      modifies this`bins
      ensures ok <==> AllDefined(p)
      ensures ok ==> |bins| == |p| && forall i :: 0 <= i < |p| ==> LineOk(p, bins[i], i, FinalValue(p, i))
    {
      hide LineOk, EncodeWith;
      var todo := relocs;
      ghost var m := |p|;
      while todo != []
        invariant 0 <= m <= |p| && todo == RelocsAt(p, m)
        invariant |bins| == |p|
        invariant forall i :: 0 <= i < m ==> LineOk(p, bins[i], i, EarlyValue(p, i))
        invariant forall i :: m <= i < |p| ==> Defined(p, i) && LineOk(p, bins[i], i, FinalValue(p, i))
        decreases m
      {
        ghost var k := NextReloc(p, m);
        var s := FindSymbol(todo[0].name);
        FindIsLabel(p, |p|, todo[0].name);
        if s.None? {
          assert !Defined(p, k);
          return false;
        }
        var b := bins[todo[0].bin];
        ghost var st := p[k].stmt.value;
        RelocateLine(p, b, k, s.value);
        bins := bins[todo[0].bin := b.(codes := Store(b.codes, b.bytes - 8, s.value))];
        todo := todo[1..];
        forall i | k < i < m
          ensures EarlyValue(p, i) == FinalValue(p, i) && Defined(p, i)
        {
          NoSymbol(p, i);
        }
        m := k;
      }
      NoRelocs(p, m);
      forall i | 0 <= i < m
        ensures EarlyValue(p, i) == FinalValue(p, i) && Defined(p, i)
      {
        NoSymbol(p, i);
      }
      ok := true;
    }
  }
}
