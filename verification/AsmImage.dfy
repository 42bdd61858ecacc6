/** From assembled lines to a memory image and back: `binfile` of y64asm.c, `load_binfile` and the fetch half of
    `nexti` in y64sim.c. */
module AsmImage {
  import opened Words
  import opened Memory
  import opened Asm
  import opened AsmOnePass
  import TwoPass = AsmTwoPass
  import Listing = AsmListing

  // ---------- both assemblers agree ----------

  /** For every line that has bytes, the relocated one-pass bytes and address are those of the two-pass listing. */
  lemma OnePassEqualsTwoPasses(p: Program, bins: seq<Bin>, listing: seq<TwoPass.Entry>, i: nat)
    requires Fits(p) && i < |p| && |bins| == |listing| == |p|
    requires LineOk(p, bins[i], i, FinalValue(p, i)) && listing[i] == TwoPass.EntryOf(p, i)
    ensures bins[i].bytes == |listing[i].bytes|
    ensures bins[i].bytes > 0 ==>
              && bins[i].addr == listing[i].pos && !listing[i].blank
              && |bins[i].codes| >= bins[i].bytes && bins[i].codes[..bins[i].bytes] == listing[i].bytes
  {
    hide EncodeWith, KnownCode;
  }

  // ---------- the file ----------

  function Zeros(n: nat): seq<Byte> { seq(n, _ => 0) }

  /** `fseek` and `fwrite`: bytes past the end are preceded by zeros. */
  function WriteAt(f: seq<Byte>, addr: nat, bytes: seq<Byte>): (r: seq<Byte>)
    ensures |r| >= |f|
  {
    if bytes == [] then f
    else if addr + |bytes| <= |f| then f[..addr] + bytes + f[addr + |bytes|..]
    else if addr <= |f| then f[..addr] + bytes
    else f + Zeros(addr - |f|) + bytes
  }

  lemma WriteAtFacts(f: seq<Byte>, addr: nat, bytes: seq<Byte>)
    ensures var r := WriteAt(f, addr, bytes);
            && (bytes != [] ==> addr + |bytes| <= |r| && r[addr..addr + |bytes|] == bytes)
            && (forall k :: 0 <= k < |f| && k < addr ==> r[k] == f[k])
            && (bytes != [] && |f| <= addr + |bytes| ==> |r| == addr + |bytes|)
  {
  }

  predicate Writable(b: Bin) { b.bytes <= |b.codes| && (b.bytes > 0 ==> b.addr >= 0) }

  /** The file after the first `n` lines. */
  function FileOf(bins: seq<Bin>, n: nat): seq<Byte>
    requires n <= |bins| && forall i :: 0 <= i < |bins| ==> Writable(bins[i])
  {
    if n == 0 then []
    else
      var b := bins[n - 1];
      if b.bytes == 0 then FileOf(bins, n - 1) else WriteAt(FileOf(bins, n - 1), b.addr, b.codes[..b.bytes])
  }

  /** `binfile`. */
  method BinFile(bins: seq<Bin>) returns (out: seq<Byte>)
    requires forall i :: 0 <= i < |bins| ==> Writable(bins[i])
    ensures out == FileOf(bins, |bins|)
  {
    out := [];
    var n := 0;
    while n < |bins|
      invariant 0 <= n <= |bins| && out == FileOf(bins, n)
    {
      if bins[n].bytes > 0 {
        out := WriteAt(out, bins[n].addr, bins[n].codes[..bins[n].bytes]);
      }
      n := n + 1;
    }
  }

  // ---------- the file a program stands for ----------

  /** The bytes of the first `n` lines, each written at its address. */
  function FileSpec(p: Program, n: nat): seq<Byte>
    requires Fits(p) && Placed(p) && n <= |p|
  {
    if n == 0 then [] else WriteAt(FileSpec(p, n - 1), AddrAt(p, n - 1), Encode(p, n - 1))
  }

  function SizeAt(p: Program, i: nat): nat
    requires i < |p|
  {
    match p[i].stmt case None => 0 case Some(s) => SizeOf(s)
  }

  predicate AllFinal(p: Program, bins: seq<Bin>)
    requires Fits(p)
  {
    |bins| == |p| && forall i :: 0 <= i < |p| ==> LineOk(p, bins[i], i, FinalValue(p, i))
  }

  lemma FinalLine(p: Program, bins: seq<Bin>, i: nat)
    requires Fits(p) && Placed(p) && AllFinal(p, bins) && i < |p|
    ensures |bins| == |p| && bins[i].bytes == SizeAt(p, i) == |Encode(p, i)|
    ensures bins[i].bytes > 0 ==>
              && |bins[i].codes| == 10 && bins[i].bytes <= 10 && bins[i].addr == AddrAt(p, i) >= 0
              && bins[i].codes[..bins[i].bytes] == Encode(p, i)
  {
    assert LineOk(p, bins[i], i, FinalValue(p, i));
    hide EncodeWith, KnownCode, ArgsFit, AddrAt;
  }

  lemma {:induction false} FileOfIsFileSpec(p: Program, bins: seq<Bin>, n: nat)
    requires Fits(p) && Placed(p) && AllFinal(p, bins) && n <= |p|
    ensures |bins| == |p| && forall i :: 0 <= i < |p| ==> Writable(bins[i])
    ensures FileOf(bins, n) == FileSpec(p, n)
  {
    hide Fits, AddrAt, Encode, AllFinal, SizeAt;
    assert |bins| == |p| by { if |p| > 0 { FinalLine(p, bins, 0); } else { NoBins(p, bins); } }
    forall i | 0 <= i < |p|
      ensures Writable(bins[i])
    {
      FinalLine(p, bins, i);
    }
    if n > 0 {
      FileOfIsFileSpec(p, bins, n - 1);
      FinalLine(p, bins, n - 1);
    }
  }

  lemma NoBins(p: Program, bins: seq<Bin>)
    requires Fits(p) && AllFinal(p, bins)
    ensures |bins| == |p|
  {
  }

  /** All of `y64asm` after tokenising: parse, relocate, write the file. */
  method Y64Asm(p: Program) returns (ok: bool, file: seq<Byte>)
    requires forall i :: 0 <= i < |p| && p[i].stmt.Some? ==> Supported(p[i].stmt.value)
    requires Fits(p) ==> Placed(p)
    ensures ok <==> Fits(p) && DistinctLabels(p) && AllDefined(p)
    ensures ok ==> file == FileSpec(p, |p|)
  {
    hide AllDefined, FileSpec, FileOf, LineOk;
    file := [];
    var a := new OnePass();
    ok := a.Assemble(p);
    if !ok { return; }
    ok := a.Relocate(p);
    if !ok { return; }
    FileOfIsFileSpec(p, a.bins, |p|);
    file := BinFile(a.bins);
  }

  // ---------- no line overwrites another ----------

  /** `.pos` never moves back. */
  predicate Ascending(p: Program)
    requires Fits(p)
  {
    forall i :: 0 <= i < |p| && p[i].stmt.Some? && p[i].stmt.value.Pos? ==> p[i].stmt.value.addr >= AddrAt(p, i)
  }

  lemma {:induction false} LinesApart(p: Program, i: nat, j: nat)
    requires Fits(p) && Ascending(p) && i < j <= |p|
    ensures AddrAt(p, i) + SizeAt(p, i) <= AddrAt(p, j)
  {
    hide StmtFits, Fits, SizeOf;
    LineEnds(p, j - 1);
    if i < j - 1 {
      LinesApart(p, i, j - 1);
    }
  }

  lemma {:induction false} LineEnds(p: Program, i: nat)
    requires Fits(p) && Ascending(p) && i < |p|
    ensures AddrAt(p, i) + SizeAt(p, i) <= AddrAt(p, i + 1)
  {
    hide AddrAt, KnownCode, ArgsFit;
    AddrStep(p, i);
  }

  lemma {:induction false} AddrStep(p: Program, i: nat)
    requires Fits(p) && i < |p|
    ensures AddrAt(p, i + 1) == match p[i].stmt case None => AddrAt(p, i) case Some(s) => After(AddrAt(p, i), s)
  {
  }

  lemma EncodedSize(p: Program, i: nat)
    requires Fits(p) && i < |p|
    ensures |Encode(p, i)| == SizeAt(p, i)
  {
    hide EncodeWith;
  }

  /** Every line's bytes are in the file, at its address. */
  lemma {:induction false} FileHolds(p: Program, n: nat, i: nat)
    requires Fits(p) && Placed(p) && Ascending(p) && i < n <= |p| && SizeAt(p, i) > 0
    ensures var a, f := AddrAt(p, i), FileSpec(p, n);
            a >= 0 && a + SizeAt(p, i) <= |f| && f[a..a + SizeAt(p, i)] == Encode(p, i)
  {
    hide Fits, AddrAt, Encode, SizeAt, WriteAt;
    EncodedSize(p, n - 1);
    EncodedSize(p, i);
    WriteAtFacts(FileSpec(p, n - 1), AddrAt(p, n - 1), Encode(p, n - 1));
    if i < n - 1 {
      FileHolds(p, n - 1, i);
      LinesApart(p, i, n - 1);
      var a, f, f0 := AddrAt(p, i), FileSpec(p, n), FileSpec(p, n - 1);
      assert f[a..a + SizeAt(p, i)] == f0[a..a + SizeAt(p, i)] by {
        if Encode(p, n - 1) == [] { WriteAtNothing(f0, AddrAt(p, n - 1)); }
      }
    }
  }

  lemma WriteAtNothing(f: seq<Byte>, addr: nat)
    ensures WriteAt(f, addr, []) == f
  {
  }

  // ---------- the simulator ----------

  /** `load_binfile`: the file has to end before the memory does. */
  function LoadFile(len: nat, file: seq<Byte>): Option<seq<Byte>> {
    if |file| >= len then None else Some(file + Zeros(len - |file|))
  }

  /** What `nexti` has read when it starts to execute. */
  datatype Fetched = Adr | BadIns | Fetched(icode: Nibble, ifun: Nibble, regA: Nibble, regB: Nibble, imm: Word, next: int)

  /** The fetch half of `nexti`. */
  function Fetch(m: seq<Byte>, pc: int): Fetched {
    match GetByte(m, pc)
    case None => Adr
    case Some(codefun) =>
      if !KnownCode(codefun) then BadIns
      else
        var icode, next := Hi4(codefun), pc + 1;
        if HasRegs(codefun) && GetByte(m, next).None? then Adr
        else
          var regs := if HasRegs(codefun) then GetByte(m, next).value else Pack(REG_NONE, REG_NONE);
          var next1 := if HasRegs(codefun) then next + 1 else next;
          if !HasImm(codefun) then Fetched.Fetched(icode, Lo4(codefun), Hi4(regs), Lo4(regs), 0, next1)
          else
            match GetWord(m, next1)
            case None => Adr
            case Some(imm) => Fetched.Fetched(icode, Lo4(codefun), Hi4(regs), Lo4(regs), imm, next1 + 8)
  }

  lemma ImmIsWord(code: Byte, a: Arg, b: Arg, v: Word)
    requires ArgsFit(code, a, b)
    ensures -TWO_63 <= ImmField(code, a, b, v) < TWO_63
  {
  }

  /** Fetching where an instruction's bytes stand returns its parts. */
  lemma FetchEncoded(m: seq<Byte>, pc: int, code: Byte, a: Arg, b: Arg, v: Word)
    requires KnownCode(code) && ArgsFit(code, a, b) && pc >= 0 && pc + InsSize(code) <= |m|
    requires m[pc..pc + InsSize(code)] == EncodeWith(Ins(code, a, b), v)
    ensures var regs := RegFields(code, a, b);
            Fetch(m, pc) == Fetched.Fetched(Hi4(code), Lo4(code), regs.0, regs.1,
                                            if HasImm(code) then ImmField(code, a, b, v) else 0, pc + InsSize(code))
  {
    hide LowBytes, WordOf, KnownCode, ArgsFit, Pack;
    var e := EncodeWith(Ins(code, a, b), v);
    assert m[pc] == e[0] == code;
    if HasRegs(code) {
      assert m[pc + 1] == e[1];
    }
    if HasImm(code) {
      var k := InsSize(code) - 8;
      assert m[pc + k..pc + k + 8] == e[k..] == LowBytes(ImmField(code, a, b, v), 8);
      ImmIsWord(code, a, b, v);
      WordRoundTrip(ImmField(code, a, b, v));
    }
  }

  /** Assembling, loading and fetching gives back each instruction: its code, its registers and its operand. */
  lemma {:induction false} AssembledDecodesBack(p: Program, len: nat, i: nat)
    requires Fits(p) && Placed(p) && Ascending(p) && i < |p| && p[i].stmt.Some? && p[i].stmt.value.Ins?
    requires LoadFile(len, FileSpec(p, |p|)).Some?
    ensures var s, m, pc := p[i].stmt.value, LoadFile(len, FileSpec(p, |p|)).value, AddrAt(p, i);
            var regs, v := RegFields(s.code, s.a, s.b), ValueOf(p, OperandOf(s));
            && -TWO_63 <= v < TWO_63
            && Fetch(m, pc) == Fetched.Fetched(Hi4(s.code), Lo4(s.code), regs.0, regs.1,
                                               if HasImm(s.code) then ImmField(s.code, s.a, s.b, v) else 0, pc + SizeAt(p, i))
  {
    hide EncodeWith, KnownCode, ArgsFit, AddrAt, Fetch, FileSpec;
    FileHolds(p, |p|, i);
    var s, f := p[i].stmt.value, FileSpec(p, |p|);
    var m, pc, v := LoadFile(len, f).value, AddrAt(p, i), ValueOf(p, OperandOf(s));
    ValueInRange(p, OperandOf(s));
    assert m[pc..pc + SizeAt(p, i)] == f[pc..pc + SizeAt(p, i)];
    FetchEncoded(m, pc, s.code, s.a, s.b, v);
  }

  lemma ValueInRange(p: Program, op: Operand)
    requires Fits(p) && Placed(p)
    ensures -TWO_63 <= ValueOf(p, op) < TWO_63
  {
  }

  // ---------- both ways to a memory image ----------

  lemma {:induction false} PadWrite(f: seq<Byte>, len: nat, addr: nat, bytes: seq<Byte>)
    requires bytes != [] && |WriteAt(f, addr, bytes)| <= len
    ensures |f| <= len && addr + |bytes| <= len
    ensures Listing.WriteMem(f + Zeros(len - |f|), addr, bytes)
            == WriteAt(f, addr, bytes) + Zeros(len - |WriteAt(f, addr, bytes)|)
  {
    WriteAtFacts(f, addr, bytes);
    var m, g := f + Zeros(len - |f|), WriteAt(f, addr, bytes);
    var w, z := Listing.WriteMem(m, addr, bytes), g + Zeros(len - |g|);
    forall k | 0 <= k < len
      ensures w[k] == z[k]
    {
    }
  }

  /** The listing `yas` should print. */
  function EntriesOf(p: Program): (r: seq<TwoPass.Entry>)
    requires Fits(p)
    ensures |r| == |p| && forall i :: 0 <= i < |p| ==> r[i] == TwoPass.EntryOf(p, i)
  {
    seq(|p|, i requires 0 <= i < |p| => TwoPass.EntryOf(p, i))
  }

  predicate LowAddresses(p: Program)
    requires Fits(p)
  {
    forall i :: 0 <= i <= |p| ==> 0 <= AddrAt(p, i) <= 0xFFFF
  }

  lemma EntriesPrintable(p: Program)
    requires Fits(p) && LowAddresses(p)
    ensures forall i :: 0 <= i < |p| ==> Listing.Printable(EntriesOf(p)[i])
    ensures Placed(p)
  {
    hide EncodeWith, KnownCode, AddrAt;
  }

  /** All of `yas` after tokenising: two passes, then the listing. */
  method Yas(p: Program, src: seq<Listing.Text>) returns (ok: bool, lines: seq<Listing.Text>)
    requires Fits(p) && LowAddresses(p) && TwoPass.IntAligned(p) && TwoPass.TableFits(p) && |src| == |p|
    ensures ok <==> AllDefined(p)
    ensures forall i :: 0 <= i < |p| ==> Listing.Printable(EntriesOf(p)[i])
    ensures ok && DistinctLabels(p) ==> lines == Listing.TextsOf(EntriesOf(p), src, |p|)
  {
    hide AllDefined, TwoPass.EntryOf, Listing.TextOf, LowAddresses, Listing.Printable, TwoPass.SameShape;
    hide TwoPass.IntAligned, TwoPass.TableFits, AddrAt, StmtFits;
    EntriesPrintable(p);
    lines := [];
    var a := new TwoPass.TwoPass();
    ok := a.Run(p);
    if !ok { return; }
    forall i | 0 <= i < |p|
      ensures Listing.Printable(a.listing[i])
    {
      assert Listing.Printable(EntriesOf(p)[i]);
      ShapePrintable(a.listing[i], TwoPass.EntryOf(p, i));
    }
    assert DistinctLabels(p) ==> a.listing == EntriesOf(p);
    var n := 0;
    while n < |a.listing|
      invariant 0 <= n <= |p| == |a.listing| && forall i :: 0 <= i < |p| ==> Listing.Printable(a.listing[i])
      invariant DistinctLabels(p) ==> a.listing == EntriesOf(p)
      invariant lines == Listing.TextsOf(a.listing, src, n)
    {
      var line := Listing.PrintCode(a.listing[n], src[n]);
      lines := lines + [line];
      n := n + 1;
    }
  }

  lemma ShapePrintable(e: TwoPass.Entry, f: TwoPass.Entry)
    requires TwoPass.SameShape(e, f) && Listing.Printable(f)
    ensures Listing.Printable(e)
  {
  }

  /** The listing entries of a program written to memory in order make the same memory as the file. */
  lemma {:induction false} ListingIsFile(p: Program, len: nat, n: nat)
    requires Fits(p) && Placed(p) && n <= |p| && |FileSpec(p, n)| <= len
    requires forall i :: 0 <= i < |p| ==> Listing.Printable(EntriesOf(p)[i]) && Listing.InMemory(EntriesOf(p)[i], len)
    ensures Listing.WriteAll(Zeros(len), EntriesOf(p), n) == FileSpec(p, n) + Zeros(len - |FileSpec(p, n)|)
  {
    hide Fits, AddrAt, Encode, WriteAt, Listing.WriteMem, Listing.Printable, Listing.InMemory, TwoPass.EntryOf;
    if n > 0 {
      var e, f := EntriesOf(p)[n - 1], FileSpec(p, n - 1);
      EntryBytes(p, n - 1);
      ListingIsFile(p, len, n - 1);
      if e.bytes == [] {
        WriteAtNothing(f, AddrAt(p, n - 1));
        assert e.pos >= 0 by { PrintablePos(e); }
        Listing.WriteNothing(Listing.WriteAll(Zeros(len), EntriesOf(p), n - 1), e.pos);
      } else {
        PadWrite(f, len, AddrAt(p, n - 1), e.bytes);
      }
    }
  }

  lemma PrintablePos(e: TwoPass.Entry)
    requires Listing.Printable(e)
    ensures e.pos >= 0
  {
  }

  lemma EntryBytes(p: Program, i: nat)
    requires Fits(p) && i < |p|
    ensures TwoPass.EntryOf(p, i).bytes == Encode(p, i)
    ensures Encode(p, i) != [] ==> TwoPass.EntryOf(p, i).pos == AddrAt(p, i)
  {
    hide KnownCode;
  }

  /** Every entry's bytes are inside the file. */
  lemma {:induction false} EntriesInFile(p: Program, n: nat, i: nat)
    requires Fits(p) && Placed(p) && i < n <= |p|
    ensures Listing.InMemory(TwoPass.EntryOf(p, i), |FileSpec(p, n)|)
  {
    hide Fits, AddrAt, Encode, WriteAt, TwoPass.EntryOf;
    EntryBytes(p, i);
    WriteAtFacts(FileSpec(p, n - 1), AddrAt(p, n - 1), Encode(p, n - 1));
    if i < n - 1 {
      EntriesInFile(p, n - 1, i);
    }
  }

  /** `yas` and `load_mem` on one side, `y64asm` and `load_binfile` on the other, load the same memory. */
  lemma {:induction false} BothLoadTheSame(p: Program, src: seq<Listing.Text>, len: nat)
    requires Fits(p) && LowAddresses(p) && |src| == |p|
    ensures Placed(p) && forall i :: 0 <= i < |p| ==> Listing.Printable(EntriesOf(p)[i])
    ensures LoadFile(len, FileSpec(p, |p|)).Some? ==>
              var l := Listing.LoadLines(Listing.TextsOf(EntriesOf(p), src, |p|), Listing.Loaded(Zeros(len), 0));
              l.Some? && Some(l.value.m) == LoadFile(len, FileSpec(p, |p|))
  {
    EntriesPrintable(p);
    if LoadFile(len, FileSpec(p, |p|)).Some? {
      forall i | 0 <= i < |p|
        ensures Listing.InMemory(EntriesOf(p)[i], len)
      {
        EntriesInFile(p, |p|, i);
      }
      hide Listing.LoadLines, FileSpec, TwoPass.EntryOf, Listing.TextOf;
      ListingIsFile(p, len, |p|);
      Listing.LoadUndoesPrint(EntriesOf(p), src, |p|, Zeros(len));
    }
  }

  /** Both assemblers run on one program: the one-pass one accepts it exactly if the two-pass one does and no label
      is defined twice, and then every line has the same address and bytes. */
  method AssembleBothWays(p: Program) returns (ok1: bool, ok2: bool, bins: seq<Bin>, listing: seq<TwoPass.Entry>)
    requires Fits(p) && Placed(p) && TwoPass.IntAligned(p) && TwoPass.TableFits(p)
    ensures ok1 <==> ok2 && DistinctLabels(p)
    ensures ok1 ==> |bins| == |listing| == |p| && forall i :: 0 <= i < |p| ==> SameLine(bins[i], listing[i])
  {
    hide LineOk, AllDefined, TwoPass.EntryOf, TwoPass.SameShape, TwoPass.IntAligned, TwoPass.TableFits, Placed, SameLine;
    var a := new OnePass();
    ok1 := a.Assemble(p);
    if ok1 {
      ok1 := a.Relocate(p);
    }
    var b := new TwoPass.TwoPass();
    ok2 := b.Run(p);
    bins, listing := a.bins, b.listing;
    if ok1 {
      forall i | 0 <= i < |p|
        ensures SameLine(bins[i], listing[i])
      {
        OnePassEqualsTwoPasses(p, bins, listing, i);
        SameLineHolds(bins[i], listing[i]);
      }
    }
  }

  predicate SameLine(b: Bin, e: TwoPass.Entry) {
    && b.bytes == |e.bytes|
    && (b.bytes > 0 ==> b.addr == e.pos && !e.blank && |b.codes| >= b.bytes && b.codes[..b.bytes] == e.bytes)
  }

  lemma SameLineHolds(b: Bin, e: TwoPass.Entry)
    requires b.bytes == |e.bytes|
    requires b.bytes > 0 ==> b.addr == e.pos && !e.blank && |b.codes| >= b.bytes && b.codes[..b.bytes] == e.bytes
    ensures SameLine(b, e)
  {
  }

  /** One program through both tool chains: `y64asm` and `load_binfile`, and `yas` and `load_mem`. Where the first
      succeeds so does the second, with the same memory. */
  method LoadBothWays(p: Program, src: seq<Listing.Text>, len: nat) returns (ok: bool, image: seq<Byte>, mem: array<Byte>)
    requires Fits(p) && LowAddresses(p) && TwoPass.IntAligned(p) && TwoPass.TableFits(p) && |src| == |p|
    ensures Placed(p) && (ok <==> DistinctLabels(p) && AllDefined(p) && |FileSpec(p, |p|)| < len)
    ensures ok ==> Some(image) == LoadFile(len, FileSpec(p, |p|)) && mem[..] == image && fresh(mem)
  {
    hide AllDefined, FileSpec, LowAddresses, Listing.LoadLines, Listing.TextOf, TwoPass.EntryOf, Listing.Printable;
    EntriesPrintable(p);
    mem := new Byte[len](_ => 0);
    image := [];
    var file;
    ok, file := Y64Asm(p);
    if !ok { return; }
    var loaded := LoadFile(len, file);
    if loaded.None? { return false, image, mem; }
    image := loaded.value;
    var ok2, lines := Yas(p, src);
    assert mem[..] == Zeros(len);
    BothLoadTheSame(p, src, len);
    var count := Listing.LoadMem(lines, mem);
  }
}
