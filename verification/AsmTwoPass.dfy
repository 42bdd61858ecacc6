/** `yas.c`: one pass for the labels, one for the bytes, which are put together in a shared buffer. */
module AsmTwoPass {
  import opened Words
  import opened Memory
  import opened Isa
  import opened Arith
  import opened Asm

  /** What a line prints: nothing but its text, or an address and some bytes. */
  datatype Entry = Entry(blank: bool, pos: int, bytes: seq<Byte>)

  /** One argument in the instruction table: its kind, where it goes, and which nibble or how many bytes. */
  datatype ArgSpec = R_ARG(pos: nat, hi: bool) | M_ARG(pos: nat) | I_ARG(pos: nat, bytes: nat) | NO_ARG

  function Arg1(code: Byte): ArgSpec {
    var i := Hi4(code);
    if i == I_IRMOVQ then I_ARG(2, 8)
    else if i == I_JMP || i == I_CALL then I_ARG(1, 8)
    else if i == I_MRMOVQ then M_ARG(1)
    else if i in {I_RRMOVQ, I_ALU, I_RMMOVQ, I_PUSHQ, I_POPQ} then R_ARG(1, true)
    else NO_ARG
  }

  function Arg2(code: Byte): ArgSpec {
    var i := Hi4(code);
    if i in {I_RRMOVQ, I_ALU, I_IRMOVQ} then R_ARG(1, false)
    else if i == I_RMMOVQ then M_ARG(1)
    else if i == I_MRMOVQ then R_ARG(1, true)
    else NO_ARG
  }

  predicate ArgIs(spec: ArgSpec, a: Arg) {
    match spec
    case R_ARG(_, _) => a.Reg?
    case M_ARG(_) => a.Mem?
    case I_ARG(_, _) => a.Imm?
    case NO_ARG => a.NoArg?
  }

  // ---------- the buffer ----------

  /** A register number in the high or low nibble. */
  function SetNibble(c: seq<Byte>, pos: nat, hi: bool, id: Nibble): seq<Byte>
    requires pos < |c|
  {
    c[pos := if hi then Pack(id, Lo4(c[pos])) else Pack(Hi4(c[pos]), id)]
  }

  function PutNum(c: seq<Byte>, pos: nat, n: nat, v: int): (r: seq<Byte>)
    requires pos + n <= |c|
    ensures |r| == |c|
  {
    c[..pos] + LowBytes(v, n) + c[pos + n..]
  }

  /** What an argument writes, where `v` is the value of a label or number. */
  function PutArg(c: seq<Byte>, spec: ArgSpec, a: Arg, v: int): (r: seq<Byte>)
    requires |c| == 10 && ArgIs(spec, a) && InBuffer(spec)
    ensures |r| == 10
  {
    match spec
    case R_ARG(pos, hi) => SetNibble(c, pos, hi, a.id)
    case M_ARG(pos) => PutNum(SetNibble(c, pos, false, a.base), pos + 1, 8, a.disp)
    case I_ARG(pos, n) => PutNum(c, pos, n, v)
    case NO_ARG => c
  }

  predicate InBuffer(spec: ArgSpec) {
    match spec
    case R_ARG(pos, _) => pos < 10
    case M_ARG(pos) => pos + 9 <= 10
    case I_ARG(pos, n) => pos + n <= 10
    case NO_ARG => true
  }

  /** The tables ask for the arguments the instruction has. */
  lemma TablesFit(code: Byte, a: Arg, b: Arg)
    requires ArgsFit(code, a, b)
    ensures ArgIs(Arg1(code), a) && ArgIs(Arg2(code), b) && InBuffer(Arg1(code)) && InBuffer(Arg2(code))
  {
  }

  /** The arguments written into the buffer one after the other make the instruction. */
  lemma {:induction false} BufferIsEncoding(c: seq<Byte>, code: Byte, a: Arg, b: Arg, v: int)
    requires |c| == 10 && KnownCode(code) && ArgsFit(code, a, b)
    ensures ArgIs(Arg1(code), a) && ArgIs(Arg2(code), b) && InBuffer(Arg1(code)) && InBuffer(Arg2(code))
    ensures PutArg(PutArg(c[0 := code][1 := Pack(REG_NONE, REG_NONE)], Arg1(code), a, v), Arg2(code), b, v)[..InsSize(code)]
            == EncodeWith(Ins(code, a, b), v)
  {
    hide LowBytes, KnownCode, Pack;
    TablesFit(code, a, b);
    var regs := RegFields(code, a, b);
    var c2 := PutArg(PutArg(c[0 := code][1 := Pack(REG_NONE, REG_NONE)], Arg1(code), a, v), Arg2(code), b, v);
    assert c2[0] == code;
    assert HasRegs(code) ==> c2[1] == Pack(regs.0, regs.1);
    assert HasImm(code) ==> c2[InsSize(code) - 8..InsSize(code)] == LowBytes(ImmField(code, a, b, v), 8);
    Pieces(c2, HasRegs(code), HasImm(code));
  }

  lemma Pieces(c: seq<Byte>, regs: bool, imm: bool)
    requires |c| == 10
    ensures var k := if regs then 2 else 1;
            var n := if imm then k + 8 else k;
            c[..n] == [c[0]] + (if regs then [c[1]] else []) + if imm then c[n - 8..n] else []
  {
  }

  /** Byte `i` is `(v >> (i * 8)) & 0xFF`. */
  lemma {:induction false} LowBytesAt(v: int, n: nat, i: nat)
    requires i < n
    ensures LowBytes(v, n)[i] == v / Pow256(i) % 256
    decreases n
  {
    if i > 0 {
      LowBytesAt(v / 256, n - 1, i - 1);
      assert LowBytes(v, n)[i] == LowBytes(v / 256, n - 1)[i - 1];
      DivTwice(v, 256, Pow256(i - 1));
    }
  }

  // ---------- the symbol table ----------

  /** The table after `n` lines, oldest entry first. */
  function TableAt(p: Program, n: nat): seq<Symbol>
    requires Fits(p) && n <= |p|
  {
    if n == 0 then []
    else match p[n - 1].tag
      case None => TableAt(p, n - 1)
      case Some(name) => TableAt(p, n - 1) + [Symbol(name, AddrAt(p, n - 1))]
  }

  /** The entries of the symbol table. */
  const STAB: nat := 1000

  /** The program has no more labels than the table has entries. */
  predicate TableFits(p: Program)
    requires Fits(p)
  {
    |TableAt(p, |p|)| <= STAB
  }

  lemma {:induction false} TableGrows(p: Program, n: nat, m: nat)
    requires Fits(p) && n <= m <= |p|
    ensures |TableAt(p, n)| <= |TableAt(p, m)|
    ensures n < m && p[n].tag.Some? ==> |TableAt(p, n)| < |TableAt(p, m)|
  {
    hide AddrAt, Fits;
    if n < m {
      TableGrows(p, n, m - 1);
    }
  }

  lemma {:induction false} FindAppend(t: seq<Symbol>, s: Symbol, name: Name)
    ensures Find(t + [s], name) ==
            if Find(t, name).Some? then Find(t, name) else if s.name == name then Some(s.addr) else None
  {
    if t == [] {
      assert t + [s] == [s];
    } else {
      FindAppend(t[1..], s, name);
      assert (t + [s])[1..] == t[1..] + [s];
    }
  }

  /** The table finds a label exactly if there is one, and the right one if labels are distinct. */
  lemma {:induction false} FindInTable(p: Program, n: nat, name: Name)
    requires Fits(p) && n <= |p|
    ensures Find(TableAt(p, n), name).Some? <==> DefinedAt(p, n, name).Some?
    ensures DistinctLabels(p) ==> Find(TableAt(p, n), name) == AddrOfLine(p, DefinedAt(p, n, name))
  {
    hide AddrAt, Fits;
    if n > 0 {
      FindInTable(p, n - 1, name);
      if p[n - 1].tag.Some? {
        FindAppend(TableAt(p, n - 1), Symbol(p[n - 1].tag.value, AddrAt(p, n - 1)), name);
      }
    }
  }

  /** The value an operand gets in the second pass: -1 for a missing label. */
  function TableValue(t: seq<Symbol>, op: Operand): int {
    match op
    case Num(v) => v
    case Sym(name) => (match Find(t, name) case Some(a) => a case None => -1)
  }

  predicate Missing(t: seq<Symbol>, op: Operand) { op.Sym? && Find(t, op.name).None? }

  // ---------- alignment ----------

  function TwoPassAlign(addr: int, to: int): int
    requires to > 0
  {
    Quot(addr + to - 1, to) * to
  }

  /** C's `/`. */
  function Quot(a: int, b: int): int
    requires b > 0
  {
    if a >= 0 then a / b else -(-a / b)
  }

  /** At nonnegative addresses both assemblers' formulas give the least multiple not below the address. */
  lemma AlignsAgree(addr: int, to: int)
    requires addr >= 0 && to > 0
    ensures TwoPassAlign(addr, to) == AlignUp(addr, to)
  {
    var q, r := addr / to, addr % to;
    DivMod(addr, to);
    DivMod(addr + to - 1, to);
    var u := (addr + to - 1) / to;
    if r == 0 {
      UniqueQuotient(to, u, (addr + to - 1) % to, q, to - 1);
      assert u * to == q * to == addr;
    } else {
      assert to * (q + 1) == to * q + to;
      UniqueQuotient(to, u, (addr + to - 1) % to, q + 1, r - 1);
      assert u * to == (q + 1) * to;
    }
  }

  /** A 64-bit token assigned to a C `int`. */
  function ToInt(x: Word): int { (x + 0x8000_0000) % 0x1_0000_0000 - 0x8000_0000 }

  /** An alignment that is zero or negative as an `int`. */
  predicate Rejected(line: Line) { line.stmt.Some? && line.stmt.value.Align? && ToInt(line.stmt.value.to) <= 0 }

  /** The sum the alignment formula starts with is an `int`. */
  predicate InInt(addr: int, line: Line) {
    line.stmt.Some? && line.stmt.value.Align? ==> addr + ToInt(line.stmt.value.to) - 1 < 0x8000_0000
  }

  function TwoPassAfter(addr: int, s: Stmt): int
    requires StmtFits(s)
  {
    match s
    case Pos(a) => ToInt(a)
    case Align(to) => if ToInt(to) <= 0 then addr else TwoPassAlign(addr, ToInt(to))
    case _ => addr + SizeOf(s)
  }

  /** Every alignment is done without overflow: operand, and operand plus address less one, are `int`s. */
  predicate IntAligned(p: Program)
    requires Fits(p)
  {
    forall i :: 0 <= i < |p| ==> AlignedInInt(AddrAt(p, i), p[i])
  }

  predicate AlignedInInt(addr: int, line: Line) {
    line.stmt.Some? && line.stmt.value.Align? ==>
      line.stmt.value.to < 0x8000_0000 && addr + line.stmt.value.to - 1 < 0x8000_0000
  }

  /** Such an alignment is neither truncated nor rejected. */
  lemma AlignedIsInt(addr: int, line: Line)
    requires addr >= 0 && AlignedInInt(addr, line) && (line.stmt.Some? ==> StmtFits(line.stmt.value))
    ensures InInt(addr, line) && !Rejected(line)
    ensures line.stmt.Some? && line.stmt.value.Align? ==> ToInt(line.stmt.value.to) == line.stmt.value.to
  {
  }

  lemma TwoPassAfterIsAfter(addr: int, s: Stmt)
    requires StmtFits(s) && addr >= 0
    requires s.Pos? || s.Align? ==> ToInt(if s.Pos? then s.addr else s.to) == if s.Pos? then s.addr else s.to
    ensures TwoPassAfter(addr, s) == After(addr, s)
  {
    if s.Align? {
      AlignsAgree(addr, s.to);
    }
  }

  // ---------- what is printed ----------

  /** What a line prints in the second pass. */
  function Printed(t: seq<Symbol>, addr: int, line: Line): Entry
    requires line.stmt.Some? ==> StmtFits(line.stmt.value)
  {
    match line.stmt
    case None => Entry(line.tag.None?, addr, [])
    case Some(s) =>
      if s.Pos? || s.Align? then Entry(false, TwoPassAfter(addr, s), [])
      else Entry(false, addr, EncodeWith(s, TableValue(t, OperandOf(s))))
  }

  predicate MissingIn(t: seq<Symbol>, line: Line) {
    line.stmt.Some? && Missing(t, OperandOf(line.stmt.value))
  }

  predicate AnyMissing(t: seq<Symbol>, p: Program, n: nat)
    requires n <= |p|
  {
    n > 0 && (AnyMissing(t, p, n - 1) || MissingIn(t, p[n - 1]))
  }

  lemma {:induction false} AnyMissingMeans(t: seq<Symbol>, p: Program, n: nat)
    requires n <= |p|
    ensures AnyMissing(t, p, n) <==> exists i :: 0 <= i < n && MissingIn(t, p[i])
  {
    if n > 0 {
      AnyMissingMeans(t, p, n - 1);
    }
  }

  /** The state of a pass after `n` lines. */
  predicate Reached(p: Program, n: nat, pass: int, bytepos: int, start: seq<Symbol>, t: seq<Symbol>,
                    err0: bool, err: bool, listing: seq<Entry>)
    requires Fits(p) && n <= |p|
  {
    && bytepos == AddrAt(p, n)
    && if pass == 1 then t == TableAt(p, n) && err == err0 && listing == []
       else
         && t == start && |listing| == n && err == (err0 || AnyMissing(t, p, n))
         && (forall i :: 0 <= i < n ==> listing[i] == Printed(t, AddrAt(p, i), p[i]))
  }

  lemma ReachedStart(p: Program, pass: int, start: seq<Symbol>, err0: bool)
    requires Fits(p) && (pass == 1 ==> start == [])
    ensures Reached(p, 0, pass, 0, start, start, err0, err0, [])
  {
  }

  lemma ReachedStep(p: Program, n: nat, pass: int, b0: int, start: seq<Symbol>, t0: seq<Symbol>, err0: bool, e0: bool,
                    l0: seq<Entry>, b1: int, t1: seq<Symbol>, e1: bool, l1: seq<Entry>)
    requires Fits(p) && Placed(p) && IntAligned(p) && n < |p| && Reached(p, n, pass, b0, start, t0, err0, e0, l0)
    requires b1 == if p[n].stmt.Some? then TwoPassAfter(b0, p[n].stmt.value) else b0
    requires t1 == if pass == 1 && p[n].tag.Some? then t0 + [Symbol(p[n].tag.value, b0)] else t0
    requires pass == 1 ==> l1 == l0 && e1 == e0
    requires pass != 1 ==> l1 == l0 + [Printed(t1, b0, p[n])] && e1 == (e0 || MissingIn(t1, p[n]))
    ensures Reached(p, n + 1, pass, b1, start, t1, err0, e1, l1)
  {
    hide Printed, MissingIn, TwoPassAfter, After, StmtFits, ToInt;
    if p[n].stmt.Some? {
      KeptAsInt(p, n);
      TwoPassAfterIsAfter(b0, p[n].stmt.value);
    }
  }

  lemma KeptAsInt(p: Program, n: nat)
    requires Fits(p) && Placed(p) && IntAligned(p) && n < |p| && p[n].stmt.Some?
    ensures var s := p[n].stmt.value;
            s.Pos? || s.Align? ==> ToInt(if s.Pos? then s.addr else s.to) == if s.Pos? then s.addr else s.to
  {
    hide ToInt, AlignUp, KnownCode;
    AlignedIsInt(AddrAt(p, n), p[n]);
    assert 0 <= AddrAt(p, n + 1) < 0x8000_0000;
    if p[n].stmt.value.Pos? {
      SmallToInt(p[n].stmt.value.addr);
    }
  }

  lemma SmallToInt(x: Word)
    requires 0 <= x < 0x8000_0000
    ensures ToInt(x) == x
  {
  }

  lemma ReachedState(p: Program, n: nat, pass: int, bytepos: int, start: seq<Symbol>, t: seq<Symbol>,
                     err0: bool, err: bool, listing: seq<Entry>)
    requires Fits(p) && Placed(p) && n <= |p| && Reached(p, n, pass, bytepos, start, t, err0, err, listing)
    ensures 0 <= bytepos == AddrAt(p, n) && (pass == 1 ==> t == TableAt(p, n))
  {
  }

  lemma ReachedEnd(p: Program, pass: int, bytepos: int, start: seq<Symbol>, t: seq<Symbol>,
                   err0: bool, err: bool, listing: seq<Entry>)
    requires Fits(p) && Reached(p, |p|, pass, bytepos, start, t, err0, err, listing)
    ensures pass == 1 ==> t == TableAt(p, |p|) && err == err0 && listing == []
    ensures pass != 1 ==> t == start && |listing| == |p| && err == (err0 || AnyMissing(t, p, |p|))
    ensures pass != 1 ==> forall i :: 0 <= i < |p| ==> listing[i] == Printed(t, AddrAt(p, i), p[i])
  {
  }

  /** What line `i` should print. */
  function EntryOf(p: Program, i: nat): Entry
    requires Fits(p) && i < |p|
  {
    match p[i].stmt
    case None => Entry(p[i].tag.None?, AddrAt(p, i), [])
    case Some(s) => Entry(false, if s.Pos? || s.Align? then AddrAt(p, i + 1) else AddrAt(p, i), Encode(p, i))
  }

  /** Same place and number of bytes, whatever the values of labels. */
  predicate SameShape(e: Entry, f: Entry) { e.blank == f.blank && e.pos == f.pos && |e.bytes| == |f.bytes| }

  lemma PrintedIsEntry(p: Program, i: nat)
    requires Fits(p) && Placed(p) && IntAligned(p) && i < |p|
    ensures MissingIn(TableAt(p, |p|), p[i]) <==> !Defined(p, i)
    ensures SameShape(Printed(TableAt(p, |p|), AddrAt(p, i), p[i]), EntryOf(p, i))
    ensures DistinctLabels(p) && Defined(p, i) ==> Printed(TableAt(p, |p|), AddrAt(p, i), p[i]) == EntryOf(p, i)
  {
    hide LowBytes, KnownCode, TwoPassAlign, AlignUp, ToInt, IntAligned;
    if p[i].stmt.Some? {
      KeptAsInt(p, i);
      var s := p[i].stmt.value;
      if OperandOf(s).Sym? {
        FindInTable(p, |p|, OperandOf(s).name);
      }
      TwoPassAfterIsAfter(AddrAt(p, i), s);
    }
  }

  lemma DataIsLowBytes(size: nat, op: Operand, v: int)
    requires StmtFits(Data(size, op))
    ensures EncodeWith(Data(size, op), v) == LowBytes(v, size)
  {
  }

  /** Only the first argument is an immediate. */
  lemma OperandIsFirst(code: Byte, a: Arg, b: Arg)
    requires ArgsFit(code, a, b)
    ensures !b.Imm? && OperandOf(Ins(code, a, b)) == if a.Imm? then a.op else Num(0)
  {
  }

  /** Other arguments do not depend on the value of the label. */
  lemma IgnoresValue(c: seq<Byte>, spec: ArgSpec, a: Arg, v: int, w: int)
    requires |c| == 10 && ArgIs(spec, a) && InBuffer(spec) && (a.Imm? ==> v == w)
    ensures PutArg(c, spec, a, v) == PutArg(c, spec, a, w)
  {
  }

  // ---------- the assembler ----------

  class TwoPass {
    var pass: int
    var bytepos: int
    var symbols: seq<Symbol>
    var hitError: bool
    var listing: seq<Entry>
    const code: array<Byte>

    constructor ()
      ensures fresh(code) && code.Length == 10
      ensures pass == 1 && bytepos == 0 && symbols == [] && !hitError && listing == []
    {
      pass, bytepos, symbols, hitError, listing := 1, 0, [], false, [];
      code := new Byte[10](_ => 0);
    }

    /** `find_symbol`. */
    method FindSymbol(name: Name) returns (addr: int)
      modifies this`hitError
      ensures addr == TableValue(symbols, Sym(name)) && hitError == (old(hitError) || Missing(symbols, Sym(name)))
    {
      var i := 0;
      while i < |symbols|
        invariant 0 <= i <= |symbols| && Find(symbols, name) == Find(symbols[i..], name)
      {
        if symbols[i].name == name {
          return symbols[i].addr;
        }
        assert symbols[i..][1..] == symbols[i + 1..];
        i := i + 1;
      }
      hitError := true;
      return -1;
    }

    /** `get_reg`. */
    method GetReg(pos: nat, hi: bool, id: Nibble)
      requires code.Length == 10 && pos < 10
      modifies code
      ensures code[..] == SetNibble(old(code[..]), pos, hi, id)
    {
      var c := code[pos];
      if hi {
        c := Pack(id, Lo4(c));
      } else {
        c := Pack(Hi4(c), id);
      }
      code[pos] := c;
    }

    /** The byte loop of `get_num` and `get_mem`. */
    method PutBytes(pos: nat, n: nat, v: int)
      requires code.Length == 10 && pos + n <= 10
      modifies code
      ensures code[..] == PutNum(old(code[..]), pos, n, v)
    {
      ghost var c := code[..];
      var i := 0;
      while i < n
        invariant 0 <= i <= n
        invariant forall j :: 0 <= j < i ==> code[pos + j] == LowBytes(v, n)[j]
        invariant forall j :: 0 <= j < 10 && !(pos <= j < pos + i) ==> code[j] == c[j]
      {
        LowBytesAt(v, n, i);
        code[pos + i] := v / Pow256(i) % 256;
        i := i + 1;
      }
      assert forall j :: pos <= j < pos + n ==> code[j] == LowBytes(v, n)[j - pos];
    }

    /** `get_num`. */
    method GetNum(pos: nat, n: nat, op: Operand)
      requires code.Length == 10 && pos + n <= 10
      modifies code, this`hitError
      ensures code[..] == PutNum(old(code[..]), pos, n, TableValue(symbols, op))
      ensures hitError == (old(hitError) || Missing(symbols, op))
    {
      var val;
      match op {
        case Num(v) => val := v;
        case Sym(name) => val := FindSymbol(name);
      }
      PutBytes(pos, n, val);
    }

    /** `get_mem`. */
    method GetMem(pos: nat, disp: Word, base: Nibble)
      requires code.Length == 10 && pos + 9 <= 10
      modifies code
      ensures code[..] == PutNum(SetNibble(old(code[..]), pos, false, base), pos + 1, 8, disp)
    {
      code[pos] := Pack(Hi4(code[pos]), base);
      PutBytes(pos + 1, 8, disp);
    }

    method GetArg(spec: ArgSpec, a: Arg)
      requires code.Length == 10 && ArgIs(spec, a) && InBuffer(spec)
      modifies code, this`hitError
      ensures code[..] == PutArg(old(code[..]), spec, a, if a.Imm? then TableValue(symbols, a.op) else 0)
      ensures hitError == (old(hitError) || (a.Imm? && Missing(symbols, a.op)))
    {
      match spec {
        case R_ARG(pos, hi) => GetReg(pos, hi, a.id);
        case M_ARG(pos) => GetMem(pos, a.disp, a.base);
        case I_ARG(pos, n) => GetNum(pos, n, a.op);
        case NO_ARG =>
      }
    }

    /** `finish_line`. */
    method FinishLine(line: Line)
      requires code.Length == 10 && (line.stmt.Some? ==> StmtFits(line.stmt.value)) && InInt(bytepos, line)
      requires pass == 1 && line.tag.Some? ==> |symbols| < STAB
      modifies code, this`bytepos, this`symbols, this`hitError, this`listing
      ensures bytepos == if line.stmt.Some? then TwoPassAfter(old(bytepos), line.stmt.value) else old(bytepos)
      ensures symbols ==
              if pass == 1 && line.tag.Some? then old(symbols) + [Symbol(line.tag.value, old(bytepos))] else old(symbols)
      ensures listing == if pass == 1 || Rejected(line) then old(listing)
                         else old(listing) + [Printed(symbols, old(bytepos), line)]
      ensures hitError == (old(hitError) || Rejected(line) || (pass != 1 && MissingIn(symbols, line)))
    {
      hide EncodeWith, KnownCode, LowBytes, Find, Quot, ToInt;
      var savebytepos := bytepos;
      if line.tag.Some? && pass == 1 {
        symbols := symbols + [Symbol(line.tag.value, bytepos)];
      }
      match line.stmt {
        case None =>
          if pass != 1 {
            listing := listing + [Entry(line.tag.None?, savebytepos, [])];
          }
        case Some(Pos(addr)) =>
          bytepos := ToInt(addr);
          if pass != 1 {
            listing := listing + [Entry(false, bytepos, [])];
          }
        case Some(Align(to)) =>
          var a := ToInt(to);
          if a <= 0 {
            hitError := true;
            return;
          }
          bytepos := Quot(bytepos + a - 1, a) * a;
          if pass != 1 {
            listing := listing + [Entry(false, bytepos, [])];
          }
        case Some(Ins(c, a, b)) =>
          bytepos := bytepos + InsSize(c);
          if pass != 1 {
            PutInstruction(c, a, b);
            listing := listing + [Entry(false, savebytepos, code[..InsSize(c)])];
          }
        case Some(Data(size, op)) =>
          bytepos := bytepos + size;
          if pass != 1 {
            code[0] := 0;
            code[1] := Pack(REG_NONE, REG_NONE);
            GetNum(0, size, op);
            assert code[..size] == LowBytes(TableValue(symbols, op), size);
            DataIsLowBytes(size, op, TableValue(symbols, op));
            listing := listing + [Entry(false, savebytepos, code[..size])];
          }
      }
    }

    /** The second pass over an instruction. */
    method PutInstruction(c: Byte, a: Arg, b: Arg)
      requires code.Length == 10 && StmtFits(Ins(c, a, b))
      modifies code, this`hitError
      ensures code[..InsSize(c)] == EncodeWith(Ins(c, a, b), TableValue(symbols, OperandOf(Ins(c, a, b))))
      ensures hitError == (old(hitError) || Missing(symbols, OperandOf(Ins(c, a, b))))
    {
      hide EncodeWith, LowBytes, KnownCode, Find, PutArg;
      code[0] := c;
      code[1] := Pack(REG_NONE, REG_NONE);
      ghost var v := TableValue(symbols, OperandOf(Ins(c, a, b)));
      ghost var c0: seq<Byte> := old(code[..]);
      assert code[..] == c0[0 := c][1 := Pack(REG_NONE, REG_NONE)];
      BufferIsEncoding(c0, c, a, b, v);
      GetArg(Arg1(c), a);
      OperandIsFirst(c, a, b);
      IgnoresValue(c0[0 := c][1 := Pack(REG_NONE, REG_NONE)], Arg1(c), a, if a.Imm? then TableValue(symbols, a.op) else 0, v);
      ghost var c1: seq<Byte> := code[..];
      GetArg(Arg2(c), b);
      IgnoresValue(c1, Arg2(c), b, 0, v);
    }

    /** One pass over the file. */
    method RunPass(p: Program)
      requires code.Length == 10 && Fits(p) && Placed(p) && IntAligned(p) && TableFits(p)
      requires bytepos == 0 && listing == []
      requires pass == 1 ==> symbols == []
      modifies code, this`bytepos, this`symbols, this`hitError, this`listing
      ensures pass == 1 ==> symbols == TableAt(p, |p|) && hitError == old(hitError) && listing == []
      ensures pass != 1 ==> symbols == old(symbols) && |listing| == |p|
      ensures pass != 1 ==> forall i :: 0 <= i < |p| ==> listing[i] == Printed(symbols, AddrAt(p, i), p[i])
      ensures pass != 1 ==> hitError == (old(hitError) || AnyMissing(symbols, p, |p|))
    {
      hide Reached, Printed, MissingIn, StmtFits, TwoPassAfter, After, TableAt, AddrAt, ToInt, Rejected, InInt;
      ReachedStart(p, pass, symbols, hitError);
      var n := 0;
      while n < |p|
        invariant 0 <= n <= |p| && Reached(p, n, pass, bytepos, old(symbols), symbols, old(hitError), hitError, listing)
      {
        ghost var b0, t0, e0, l0 := bytepos, symbols, hitError, listing;
        ReachedState(p, n, pass, bytepos, old(symbols), symbols, old(hitError), hitError, listing);
        AlignedIsInt(bytepos, p[n]);
        TableGrows(p, n, |p|);
        FinishLine(p[n]);
        ReachedStep(p, n, pass, b0, old(symbols), t0, old(hitError), e0, l0, bytepos, symbols, hitError, listing);
        n := n + 1;
      }
      ReachedEnd(p, pass, bytepos, old(symbols), symbols, old(hitError), hitError, listing);
    }

    /** Both passes; `ok` unless some line was in error. */
    method Run(p: Program) returns (ok: bool)
      requires code.Length == 10 && Fits(p) && Placed(p) && IntAligned(p) && TableFits(p)
      requires pass == 1 && bytepos == 0 && symbols == [] && !hitError && listing == []
      modifies code, this
      ensures ok <==> AllDefined(p)
      ensures ok ==> |listing| == |p| && forall i :: 0 <= i < |p| ==> SameShape(listing[i], EntryOf(p, i))
      ensures ok && DistinctLabels(p) ==> forall i :: 0 <= i < |p| ==> listing[i] == EntryOf(p, i)
    {
      hide Printed, MissingIn, EntryOf, Placed, IntAligned, TableFits, Defined, AddrAt, StmtFits, SameShape;
      RunPass(p);
      if hitError {
        return false;
      }
      pass := 2;
      bytepos := 0;
      RunPass(p);
      forall i | 0 <= i < |p|
        ensures MissingIn(symbols, p[i]) <==> !Defined(p, i)
        ensures SameShape(Printed(symbols, AddrAt(p, i), p[i]), EntryOf(p, i))
        ensures DistinctLabels(p) && Defined(p, i) ==> Printed(symbols, AddrAt(p, i), p[i]) == EntryOf(p, i)
      {
        PrintedIsEntry(p, i);
      }
      AnyMissingMeans(symbols, p, |p|);
      ok := !hitError;
    }
  }
}
