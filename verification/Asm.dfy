/** Y86-64 assembly programs after tokenising, and what assembling them means: the address of every line, the value
    of every label and the bytes of every instruction. */
module Asm {
  import opened Words
  import opened Memory
  import opened Isa
  import opened Arith

  type Name = string

  datatype Operand = Num(value: Word) | Sym(name: Name)

  datatype Arg = NoArg | Reg(id: Nibble) | Mem(disp: Word, base: Nibble) | Imm(op: Operand)

  datatype Stmt =
    | Ins(code: Byte, a: Arg, b: Arg)          // one byte for instruction and function
    | Data(size: nat, op: Operand)             // .byte .word .long .quad
    | Pos(addr: Word)
    | Align(to: Word)

  datatype Line = Line(tag: Option<Name>, stmt: Option<Stmt>)

  type Program = seq<Line>

  /** The instructions both assemblers and the simulator know. */
  predicate KnownCode(code: Byte) {
    var i, f := Hi4(code), Lo4(code);
    if i == I_RRMOVQ || i == I_JMP then f <= 6
    else if i == I_ALU then f <= 3
    else i <= I_POPQ && f == 0
  }

  predicate HasRegs(code: Byte) { I_RRMOVQ <= Hi4(code) <= I_ALU || Hi4(code) == I_PUSHQ || Hi4(code) == I_POPQ }

  predicate HasImm(code: Byte) { I_IRMOVQ <= Hi4(code) <= I_MRMOVQ || Hi4(code) == I_JMP || Hi4(code) == I_CALL }

  function InsSize(code: Byte): nat { 1 + (if HasRegs(code) then 1 else 0) + (if HasImm(code) then 8 else 0) }

  /** The arguments an instruction is written with. */
  predicate ArgsFit(code: Byte, a: Arg, b: Arg) {
    var i := Hi4(code);
    if i == I_RRMOVQ || i == I_ALU then a.Reg? && b.Reg?
    else if i == I_IRMOVQ then a.Imm? && b.Reg?
    else if i == I_RMMOVQ then a.Reg? && b.Mem?
    else if i == I_MRMOVQ then a.Mem? && b.Reg?
    else if i == I_JMP || i == I_CALL then a.Imm? && b.NoArg?
    else if i == I_PUSHQ || i == I_POPQ then a.Reg? && b.NoArg?
    else a.NoArg? && b.NoArg?
  }

  /** A statement both assemblers accept. */
  predicate StmtFits(s: Stmt) {
    Supported(s) && (s.Ins? ==> KnownCode(s.code) && ArgsFit(s.code, s.a, s.b))
  }

  /** No symbol in less than eight bytes, no alignment below one. */
  predicate Supported(s: Stmt) {
    match s
    case Ins(_, _, _) => true
    case Data(size, op) => (size == 1 || size == 2 || size == 4 || size == 8) && (op.Sym? ==> size == 8)
    case Pos(_) => true
    case Align(to) => to > 0
  }

  function SizeOf(s: Stmt): nat {
    match s
    case Ins(code, _, _) => InsSize(code)
    case Data(size, _) => size
    case _ => 0
  }

  // ---------- addresses ----------

  /** The least multiple of `to` that is not below `addr`. */
  function AlignUp(addr: int, to: int): (r: int)
    requires to > 0
    ensures r % to == 0 && addr <= r < addr + to
  {
    if addr % to == 0 then addr
    else
      NextMultiple(addr, to);
      addr - addr % to + to
  }

  lemma NextMultiple(addr: int, to: int)
    requires to > 0
    ensures (addr - addr % to + to) % to == 0
  {
    var q := addr / to;
    DivMod(addr, to);
    assert to * (q + 1) == to * q + to;
    MultipleMod(to, q + 1);
  }

  function After(addr: int, s: Stmt): int
    requires StmtFits(s)
  {
    match s
    case Pos(a) => a
    case Align(to) => AlignUp(addr, to)
    case _ => addr + SizeOf(s)
  }

  predicate Fits(p: Program) { forall i :: 0 <= i < |p| && p[i].stmt.Some? ==> StmtFits(p[i].stmt.value) }

  /** The location counter before line `n`. */
  function AddrAt(p: Program, n: nat): int
    requires Fits(p) && n <= |p|
  {
    if n == 0 then 0
    else match p[n - 1].stmt
      case None => AddrAt(p, n - 1)
      case Some(s) => After(AddrAt(p, n - 1), s)
  }

  /** Every line is in the low 2^31 bytes. */
  predicate Placed(p: Program)
    requires Fits(p)
  {
    forall i :: 0 <= i <= |p| ==> 0 <= AddrAt(p, i) < 0x8000_0000
  }

  // ---------- labels ----------

  /** The line that defines a label, if one of the first `n` does. */
  function DefinedAt(p: Program, n: nat, name: Name): (r: Option<nat>)
    requires n <= |p|
    ensures r.Some? ==> r.value < n && p[r.value].tag == Some(name)
    ensures r.None? ==> forall i :: 0 <= i < n ==> p[i].tag != Some(name)
  {
    if n == 0 then None
    else if p[n - 1].tag == Some(name) then Some(n - 1)
    else DefinedAt(p, n - 1, name)
  }

  predicate DistinctLabels(p: Program) {
    forall i, j :: 0 <= i < j < |p| && p[i].tag.Some? ==> p[i].tag != p[j].tag
  }

  /** What a name stands for. */
  function LabelAddr(p: Program, name: Name): Option<int>
    requires Fits(p)
  {
    AddrOfLine(p, DefinedAt(p, |p|, name))
  }

  function AddrOfLine(p: Program, d: Option<nat>): Option<int>
    requires Fits(p) && (d.Some? ==> d.value <= |p|)
  {
    match d case None => None case Some(i) => Some(AddrAt(p, i))
  }

  predicate Defined(p: Program, i: nat)
    requires Fits(p) && i < |p|
  {
    p[i].stmt.Some? && OperandOf(p[i].stmt.value).Sym? ==> LabelAddr(p, OperandOf(p[i].stmt.value).name).Some?
  }

  predicate AllDefined(p: Program)
    requires Fits(p)
  {
    forall i :: 0 <= i < |p| ==> Defined(p, i)
  }

  /** An entry of a symbol table. */
  datatype Symbol = Symbol(name: Name, addr: int)

  function Find(symbols: seq<Symbol>, name: Name): Option<int> {
    if symbols == [] then None
    else if symbols[0].name == name then Some(symbols[0].addr)
    else Find(symbols[1..], name)
  }

  // ---------- bytes ----------

  /** The value of an operand; 0 for a name without a definition. */
  function ValueOf(p: Program, op: Operand): int
    requires Fits(p)
  {
    match op
    case Num(v) => v
    case Sym(name) => (match LabelAddr(p, name) case Some(a) => a case None => 0)
  }

  /** The register fields rA and rB. */
  function RegFields(code: Byte, a: Arg, b: Arg): (Nibble, Nibble)
    requires ArgsFit(code, a, b)
  {
    var i := Hi4(code);
    if i == I_RRMOVQ || i == I_ALU then (a.id, b.id)
    else if i == I_IRMOVQ then (REG_NONE, b.id)
    else if i == I_RMMOVQ then (a.id, b.base)
    else if i == I_MRMOVQ then (b.id, a.base)
    else if i == I_PUSHQ || i == I_POPQ then (a.id, REG_NONE)
    else (REG_NONE, REG_NONE)
  }

  /** The immediate, displacement or destination, where `v` is the value of the operand. */
  function ImmField(code: Byte, a: Arg, b: Arg, v: int): int
    requires ArgsFit(code, a, b)
  {
    var i := Hi4(code);
    if i == I_RMMOVQ then b.disp else if i == I_MRMOVQ then a.disp else v
  }

  /** The bytes a statement stands for when its operand has value `v`. */
  function EncodeWith(s: Stmt, v: int): (r: seq<Byte>)
    requires StmtFits(s)
    ensures |r| == SizeOf(s)
  {
    match s
    case Ins(code, a, b) =>
      var regs := RegFields(code, a, b);
      [code] + (if HasRegs(code) then [Pack(regs.0, regs.1)] else [])
      + (if HasImm(code) then LowBytes(ImmField(code, a, b, v), 8) else [])
    case Data(size, _) => LowBytes(v, size)
    case _ => []
  }

  function OperandOf(s: Stmt): Operand {
    match s
    case Ins(_, Imm(op), _) => op
    case Data(_, op) => op
    case _ => Num(0)
  }

  /** The bytes of line `i`. */
  function Encode(p: Program, i: nat): seq<Byte>
    requires Fits(p) && i < |p|
  {
    match p[i].stmt
    case None => []
    case Some(s) => EncodeWith(s, ValueOf(p, OperandOf(s)))
  }
}
