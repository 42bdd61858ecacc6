/** The `.yo` listing: `print_code` of yas.c writes it, `load_mem` of isa.c reads it back. */
module AsmListing {
  import opened Words
  import opened Memory
  import opened AsmTwoPass

  type Text = seq<char>

  // ---------- hexadecimal ----------

  function Digit(h: int): char
    requires 0 <= h < 16
  {
    if h < 10 then '0' + h as char else 'a' + (h - 10) as char
  }

  predicate IsXDigit(c: char) { '0' <= c <= '9' || 'a' <= c <= 'f' || 'A' <= c <= 'F' }

  /** `hex2dig`. */
  function Hex2Dig(c: char): (h: int)
    requires IsXDigit(c)
    ensures 0 <= h < 16
  {
    if '0' <= c <= '9' then c as int - '0' as int
    else if 'A' <= c <= 'F' then c as int - 'A' as int + 10
    else c as int - 'a' as int + 10
  }

  function PairValue(high: char, low: char): Byte
    requires IsXDigit(high) && IsXDigit(low)
  {
    Hex2Dig(high) * 16 + Hex2Dig(low)
  }

  lemma DigitReadsBack(h: int)
    requires 0 <= h < 16
    ensures IsXDigit(Digit(h)) && Hex2Dig(Digit(h)) == h
  {
  }

  function Pow16(n: nat): (p: nat)
    ensures p >= 1
  {
    if n == 0 then 1 else 16 * Pow16(n - 1)
  }

  /** `v >> (4 * k)`. */
  function Shift4(v: nat, k: nat): nat { if k == 0 then v else Shift4(v / 16, k - 1) }

  lemma {:induction false} ShiftOnce(v: nat, k: nat)
    ensures Shift4(v, k + 1) == Shift4(v, k) / 16
  {
    if k > 0 {
      ShiftOnce(v / 16, k - 1);
    }
  }

  lemma {:induction false} ShiftOut(v: nat, k: nat)
    requires v < Pow16(k)
    ensures Shift4(v, k) == 0
  {
    if k > 0 {
      ShiftOut(v / 16, k - 1);
    }
  }

  /** The `n` low hexadecimal digits of `v`, most significant first. */
  function HexDigits(v: nat, n: nat): (t: Text)
    ensures |t| == n
    decreases n
  {
    if n == 0 then [] else HexDigits(v / 16, n - 1) + [Digit(v % 16)]
  }

  lemma {:induction false} HexDigitAt(v: nat, n: nat, i: nat)
    requires i < n
    ensures HexDigits(v, n)[n - 1 - i] == Digit(Shift4(v, i) % 16)
    decreases n
  {
    if i > 0 {
      HexDigitAt(v / 16, n - 1, i - 1);
    }
  }

  function HexBytes(b: seq<Byte>): (t: Text)
    ensures |t| == 2 * |b|
  {
    if b == [] then [] else HexDigits(b[0], 2) + HexBytes(b[1..])
  }

  lemma {:induction false} HexBytesAppend(b: seq<Byte>, x: Byte)
    ensures HexBytes(b + [x]) == HexBytes(b) + HexDigits(x, 2)
  {
    hide HexDigits;
    if b == [] {
      assert b + [x] == [x];
    } else {
      HexBytesAppend(b[1..], x);
      assert (b + [x])[1..] == b[1..] + [x];
    }
  }

  // ---------- print_code ----------

  /** What `print_code` accepts: addresses of at most four digits and at most ten bytes. */
  predicate Printable(e: Entry) { 0 <= e.pos <= 0xFFFF && |e.bytes| <= 10 && (e.blank ==> e.bytes == []) }

  predicate InMemory(e: Entry, len: nat) { e.bytes != [] ==> e.pos + |e.bytes| <= len }

  const BLANK_WIDE: Text := "                             | "
  const BLANK: Text := "                            | "
  const CODE_WIDE: Text := "0x0000:                      | "
  const CODE: Text := "0x000:                      | "

  function Spaces(n: nat): Text { seq(n, _ => ' ') }

  /** The text of a listing line; `src` is the source line. */
  function TextOf(e: Entry, src: Text): Text
    requires Printable(e)
  {
    if e.blank then (if e.pos > 0xFFF then BLANK_WIDE else BLANK) + src
    else if e.pos > 0xFFF then
      "0x" + HexDigits(e.pos, 4) + ":" + HexBytes(e.bytes) + Spaces(22 - 2 * |e.bytes|) + "| " + src
    else
      "0x" + HexDigits(e.pos, 3) + ": " + HexBytes(e.bytes) + Spaces(21 - 2 * |e.bytes|) + "| " + src
  }

  function Overlay(t: Text, at: nat, s: Text): (r: Text)
    requires at + |s| <= |t|
    ensures |r| == |t|
  {
    t[..at] + s + t[at + |s|..]
  }

  /** `hexstuff`. */
  method HexStuff(dest: array<char>, at: nat, value: nat, len: nat)
    requires at + len <= dest.Length
    modifies dest
    ensures dest[..] == Overlay(old(dest[..]), at, HexDigits(value, len))
  {
    ghost var t := dest[..];
    var i := 0;
    while i < len
      invariant 0 <= i <= len
      invariant forall k :: 0 <= k < dest.Length && !(at + len - i <= k < at + len) ==> dest[k] == t[k]
      invariant forall k :: at + len - i <= k < at + len ==> dest[k] == HexDigits(value, len)[k - at]
    {
      HexDigitAt(value, len, i);
      dest[at + len - i - 1] := Digit(Shift4(value, i) % 16);
      i := i + 1;
    }
  }

  /** `print_code` without the Verilog option. */
  method PrintCode(e: Entry, src: Text) returns (line: Text)
    requires Printable(e)
    ensures line == TextOf(e, src)
  {
    if e.blank {
      return (if e.pos > 0xFFF then BLANK_WIDE else BLANK) + src;
    }
    hide HexDigits, CODE, CODE_WIDE, Spaces;
    TemplateFilled(e.pos, e.bytes);
    var template, digits := CODE, 3;
    if e.pos > 0xFFF {
      template, digits := CODE_WIDE, 4;
    }
    var outstring := new char[|template|](i requires 0 <= i < |template| => template[i]);
    assert outstring[..] == template;
    HexStuff(outstring, 2, e.pos, digits);
    PutCode(outstring, e.bytes);
    line := outstring[..] + src;
  }

  /** The code bytes, two digits each, from column 7 on. */
  method PutCode(outstring: array<char>, bytes: seq<Byte>)
    requires 7 + 2 * |bytes| <= outstring.Length
    modifies outstring
    ensures outstring[..] == Overlay(old(outstring[..]), 7, HexBytes(bytes))
  {
    hide HexDigits, HexBytes, Overlay;
    ghost var t: Text := outstring[..];
    OverlayNothing(t, 7);
    var i := 0;
    while i < |bytes|
      invariant 0 <= i <= |bytes| && outstring[..] == Overlay(t, 7, HexBytes(bytes[..i]))
    {
      HexStuff(outstring, 7 + 2 * i, bytes[i], 2);
      assert bytes[..i + 1] == bytes[..i] + [bytes[i]];
      HexBytesAppend(bytes[..i], bytes[i]);
      OverlayNext(t, 7, HexBytes(bytes[..i]), HexDigits(bytes[i], 2));
      i := i + 1;
    }
    assert bytes[..i] == bytes;
  }

  lemma OverlayNothing(t: Text, at: nat)
    requires at <= |t|
    ensures Overlay(t, at, HexBytes([])) == t
  {
  }

  lemma OverlayNext(t: Text, at: nat, a: Text, b: Text)
    requires at + |a| + |b| <= |t|
    ensures Overlay(Overlay(t, at, a), at + |a|, b) == Overlay(t, at, a + b)
  {
  }

  lemma {:induction false} Templates()
    ensures CODE_WIDE == "0x" + "0000" + (":" + Spaces(22) + "| ")
    ensures CODE == "0x" + "000" + (": " + Spaces(21) + "| ")
  {
  }

  lemma OverlayMiddle(a: Text, b: Text, c: Text, s: Text)
    requires |s| == |b|
    ensures Overlay(a + b + c, |a|, s) == a + s + c
  {
  }

  lemma OverlaySpaces(a: Text, n: nat, c: Text, s: Text)
    requires |s| <= n
    ensures Overlay(a + Spaces(n) + c, |a|, s) == a + s + Spaces(n - |s|) + c
  {
    assert Spaces(n) == Spaces(|s|) + Spaces(n - |s|);
    OverlayMiddle(a, Spaces(|s|), Spaces(n - |s|) + c, s);
    assert a + Spaces(n) + c == a + Spaces(|s|) + (Spaces(n - |s|) + c);
    assert a + s + (Spaces(n - |s|) + c) == a + s + Spaces(n - |s|) + c;
  }

  lemma Filled(zeros: Text, digits: Text, colon: Text, n: nat, code: Text)
    requires |zeros| == |digits| && |code| <= n && |digits| + |colon| == 5
    ensures var t := "0x" + zeros + (colon + Spaces(n) + "| ");
            && |t| == n + 9
            && Overlay(Overlay(t, 2, digits), 7, code) == "0x" + digits + colon + code + Spaces(n - |code|) + "| "
  {
    OverlayMiddle("0x", zeros, colon + Spaces(n) + "| ", digits);
    assert "0x" + digits + (colon + Spaces(n) + "| ") == ("0x" + digits + colon) + Spaces(n) + "| ";
    OverlaySpaces("0x" + digits + colon, n, "| ", code);
  }

  lemma TemplateFilled(pos: int, bytes: seq<Byte>)
    requires 0 <= pos <= 0xFFFF && |bytes| <= 10
    ensures |CODE_WIDE| == 31 && |CODE| == 30
    ensures Overlay(Overlay(CODE_WIDE, 2, HexDigits(pos, 4)), 7, HexBytes(bytes))
            == "0x" + HexDigits(pos, 4) + ":" + HexBytes(bytes) + Spaces(22 - 2 * |bytes|) + "| "
    ensures Overlay(Overlay(CODE, 2, HexDigits(pos, 3)), 7, HexBytes(bytes))
            == "0x" + HexDigits(pos, 3) + ": " + HexBytes(bytes) + Spaces(21 - 2 * |bytes|) + "| "
  {
    hide HexDigits, HexBytes, Spaces, CODE, CODE_WIDE, Overlay;
    Templates();
    Filled("0000", HexDigits(pos, 4), ":", 22, HexBytes(bytes));
    Filled("000", HexDigits(pos, 3), ": ", 21, HexBytes(bytes));
  }

  // ---------- the columns ----------

  /** The printed digit. */
  function Hex(h: int): char
    requires 0 <= h < 16
  {
    "0123456789abcdef"[h]
  }

  /** Digits are written in lower case and read in both cases; nothing else is a digit. */
  lemma DigitCharacters(h: int, c: char)
    requires 0 <= h < 16
    ensures Digit(h) == Hex(h)
    ensures IsXDigit(c) <==> c in "0123456789abcdefABCDEF"
    ensures IsXDigit(c) ==> (Hex2Dig(c) == h <==> c == Hex(h) || c == "0123456789ABCDEF"[h])
  {
  }

  lemma ByteDigits(x: Byte)
    ensures HexDigits(x, 2) == [Hex(x / 16), Hex(x % 16)]
  {
    hide Hex, Digit, HexDigits;
    TwoDigits(x);
    DigitCharacters(x / 16, '0');
    DigitCharacters(x % 16, '0');
  }

  lemma {:induction false} HexBytesAt(b: seq<Byte>, i: nat)
    requires i < |b|
    ensures HexBytes(b)[2 * i] == Hex(b[i] / 16) && HexBytes(b)[2 * i + 1] == Hex(b[i] % 16)
  {
    hide Hex, HexDigits;
    ByteDigits(b[0]);
    if i > 0 {
      HexBytesAt(b[1..], i - 1);
    }
  }

  lemma AddressDigits(pos: nat, n: nat)
    requires 3 <= n <= 4
    ensures var d := HexDigits(pos, n);
            && d[n - 1] == Hex(pos % 16) && d[n - 2] == Hex(pos / 16 % 16) && d[n - 3] == Hex(pos / 256 % 16)
            && (n == 4 ==> d[0] == Hex(pos / 4096 % 16))
  {
    hide Hex, HexDigits, Digit, Shift4;
    Shifts(pos);
    AddressDigit(pos, n, 0);
    AddressDigit(pos, n, 1);
    AddressDigit(pos, n, 2);
    if n == 4 {
      AddressDigit(pos, n, 3);
    }
  }

  lemma AddressDigit(pos: nat, n: nat, i: nat)
    requires i < n
    ensures HexDigits(pos, n)[n - 1 - i] == Hex(Shift4(pos, i) % 16)
  {
    hide Hex, HexDigits, Digit, Shift4;
    HexDigitAt(pos, n, i);
    DigitCharacters(Shift4(pos, i) % 16, '0');
  }

  lemma Shifts(v: nat)
    ensures Shift4(v, 0) == v && Shift4(v, 1) == v / 16 && Shift4(v, 2) == v / 256 && Shift4(v, 3) == v / 4096
  {
    assert Shift4(v / 16, 1) == Shift4(v / 16 / 16, 0);
    assert Shift4(v / 16, 2) == Shift4(v / 16 / 16, 1) == Shift4(v / 16 / 16 / 16, 0);
  }

  /** A listing line column by column: address in three or four digits, colon, two digits a byte from column 7 on,
      blanks, bar, source line. */
  lemma TextColumns(e: Entry, src: Text)
    requires Printable(e)
    ensures var t, w := TextOf(e, src), if e.pos > 0xFFF then 1 else 0;
            && |t| == 30 + w + |src| && t[28 + w..30 + w] == "| " && t[30 + w..] == src
            && (e.blank ==> forall k :: 0 <= k < 28 + w ==> t[k] == ' ')
            && (!e.blank ==>
                  && t[0] == '0' && t[1] == 'x' && t[5 + w] == ':' && (w == 0 ==> t[6] == ' ')
                  && (w == 1 ==> t[2] == Hex(e.pos / 4096 % 16))
                  && t[2 + w] == Hex(e.pos / 256 % 16) && t[3 + w] == Hex(e.pos / 16 % 16) && t[4 + w] == Hex(e.pos % 16)
                  && (forall i :: 0 <= i < |e.bytes| ==>
                        t[7 + 2 * i] == Hex(e.bytes[i] / 16) && t[8 + 2 * i] == Hex(e.bytes[i] % 16))
                  && forall k :: 7 + 2 * |e.bytes| <= k < 28 + w ==> t[k] == ' ')
  {
    hide HexDigits, HexBytes, Hex;
    if !e.blank {
      AddressDigits(e.pos, if e.pos > 0xFFF then 4 else 3);
      forall i | 0 <= i < |e.bytes|
        ensures HexBytes(e.bytes)[2 * i] == Hex(e.bytes[i] / 16) && HexBytes(e.bytes)[2 * i + 1] == Hex(e.bytes[i] % 16)
      {
        HexBytesAt(e.bytes, i);
      }
    }
  }

  // ---------- load_mem ----------

  predicate IsSpace(c: char) { c == ' ' || c == '\t' || c == '\n' || c == '\r' || c == 11 as char || c == 12 as char }

  /** C strings end with a zero character. */
  function At(s: Text, i: nat): char { if i < |s| then s[i] else 0 as char }

  function SkipSpace(s: Text, i: nat): (j: nat)
    requires i <= |s|
    ensures i <= j <= |s|
    decreases |s| - i
  {
    if i < |s| && IsSpace(s[i]) then SkipSpace(s, i + 1) else i
  }

  /** The digits from `i` on continue the number `acc`: where they end, and the number. */
  function ReadAddr(s: Text, i: nat, acc: nat): (r: (nat, nat))
    requires i <= |s|
    ensures i <= r.0 <= |s|
    decreases |s| - i
  {
    if i < |s| && IsXDigit(s[i]) then ReadAddr(s, i + 1, acc * 16 + Hex2Dig(s[i])) else (i, acc)
  }

  /** Memory, and how many bytes have been stored in it. */
  datatype Loaded = Loaded(m: Mem, count: nat)

  /** Pairs of digits from `i` on go to memory from `pos` on; nothing if an address is out of memory. */
  function ReadBytes(s: Text, i: nat, l: Loaded, pos: nat): (r: Option<Loaded>)
    ensures r.Some? ==> |r.value.m| == |l.m|
    decreases |s| - i
  {
    if i + 1 < |s| && IsXDigit(s[i]) && IsXDigit(s[i + 1]) then
      if pos >= |l.m| then None
      else ReadBytes(s, i + 2, Loaded(l.m[pos := PairValue(s[i], s[i + 1])], l.count + 1), pos + 1)
    else Some(l)
  }

  /** One line of the file; lines without an address change nothing. */
  function LoadLine(s: Text, l: Loaded): (r: Option<Loaded>)
    ensures r.Some? ==> |r.value.m| == |l.m|
  {
    var i := SkipSpace(s, 0);
    if At(s, i) != '0' || (At(s, i + 1) != 'x' && At(s, i + 1) != 'X') then Some(l)
    else
      var a := ReadAddr(s, i + 2, 0);
      var j := SkipSpace(s, a.0);
      if At(s, j) != ':' then None else ReadBytes(s, SkipSpace(s, j + 1), l, a.1)
  }

  function LoadLines(lines: seq<Text>, l: Loaded): (r: Option<Loaded>)
    ensures r.Some? ==> |r.value.m| == |l.m|
  {
    if lines == [] then Some(l)
    else
      match LoadLines(lines[..|lines| - 1], l)
      case None => None
      case Some(l1) => LoadLine(lines[|lines| - 1], l1)
  }

  /** `load_mem` without the display code: the number of bytes stored, or 0 where an address is out of memory or a
      colon is missing. */
  method LoadMem(lines: seq<Text>, m: array<Byte>) returns (byteCnt: nat)
    modifies m
    ensures match LoadLines(lines, Loaded(old(m[..]), 0))
            case Some(l) => m[..] == l.m && byteCnt == l.count
            case None => byteCnt == 0
  {
    byteCnt := 0;
    ghost var start := Loaded(m[..], 0);
    var n := 0;
    while n < |lines|
      invariant 0 <= n <= |lines| && LoadLines(lines[..n], start) == Some(Loaded(m[..], byteCnt))
    {
      assert lines[..n + 1][..n] == lines[..n];
      LoadFails(lines, n + 1, start);
      var ok;
      ok, byteCnt := LoadOne(lines[n], m, byteCnt);
      if !ok {
        return 0;
      }
      n := n + 1;
    }
    assert lines[..n] == lines;
  }

  /** One turn of the loop of `load_mem`. */
  method LoadOne(buf: Text, m: array<Byte>, byteCnt: nat) returns (ok: bool, k: nat)
    modifies m
    ensures ok == LoadLine(buf, Loaded(old(m[..]), byteCnt)).Some?
    ensures ok ==> Some(Loaded(m[..], k)) == LoadLine(buf, Loaded(old(m[..]), byteCnt))
  {
    ok, k := true, byteCnt;
    var cpos := SkipBlanks(buf, 0);
    if At(buf, cpos) != '0' || (At(buf, cpos + 1) != 'x' && At(buf, cpos + 1) != 'X') {
      return;
    }
    cpos := cpos + 2;
    var bytepos: nat := 0;
    ghost var start := cpos;
    while cpos < |buf| && IsXDigit(buf[cpos])
      invariant start <= cpos <= |buf| && ReadAddr(buf, start, 0) == ReadAddr(buf, cpos, bytepos)
    {
      bytepos := bytepos * 16 + Hex2Dig(buf[cpos]);
      cpos := cpos + 1;
    }
    cpos := SkipBlanks(buf, cpos);
    if At(buf, cpos) != ':' {
      return false, 0;
    }
    cpos := SkipBlanks(buf, cpos + 1);
    ghost var from, l0, pos0 := cpos, Loaded(m[..], k), bytepos;
    while cpos + 1 < |buf| && IsXDigit(buf[cpos]) && IsXDigit(buf[cpos + 1])
      invariant from <= cpos <= |buf|
      invariant ReadBytes(buf, from, l0, pos0) == ReadBytes(buf, cpos, Loaded(m[..], k), bytepos)
    {
      if bytepos >= m.Length {
        return false, 0;
      }
      m[bytepos] := PairValue(buf[cpos], buf[cpos + 1]);
      bytepos, cpos, k := bytepos + 1, cpos + 2, k + 1;
    }
  }

  method SkipBlanks(buf: Text, from: nat) returns (cpos: nat)
    requires from <= |buf|
    ensures cpos == SkipSpace(buf, from)
  {
    cpos := from;
    while cpos < |buf| && IsSpace(buf[cpos])
      invariant from <= cpos <= |buf| && SkipSpace(buf, from) == SkipSpace(buf, cpos)
    {
      cpos := cpos + 1;
    }
  }

  /** An error in the first `n` lines is an error. */
  lemma {:induction false} LoadFails(lines: seq<Text>, n: nat, l: Loaded)
    requires n <= |lines|
    ensures LoadLines(lines[..n], l).None? ==> LoadLines(lines, l).None?
    decreases |lines|
  {
    if n < |lines| {
      assert lines[..|lines| - 1][..n] == lines[..n];
      LoadFails(lines[..|lines| - 1], n, l);
    } else {
      assert lines[..n] == lines;
    }
  }

  // ---------- reading back what was printed ----------

  lemma {:induction false} ReadDigits(s: Text, i: nat, v: nat, n: nat, j: nat)
    requires j <= n && i + n < |s| && s[i..i + n] == HexDigits(v, n) && !IsXDigit(s[i + n])
    ensures ReadAddr(s, i + j, Shift4(v, n - j)) == (i + n, v)
    decreases n - j
  {
    hide HexDigits, Shift4, IsXDigit, Hex2Dig, Digit;
    if j < n {
      var k := n - 1 - j;
      HexDigitAt(v, n, k);
      DigitReadsBack(Shift4(v, k) % 16);
      assert s[i + j] == s[i..i + n][j];
      ShiftOnce(v, k);
      ReadDigits(s, i, v, n, j + 1);
    } else {
      ShiftZero(v);
    }
  }

  lemma ShiftZero(v: nat)
    ensures Shift4(v, 0) == v
  {
  }

  function WriteMem(m: Mem, pos: nat, b: seq<Byte>): (r: Mem)
    requires b != [] ==> pos + |b| <= |m|
    ensures |r| == |m|
  {
    if b == [] then m else m[..pos] + b + m[pos + |b|..]
  }

  /** Bytes `b` stored at `pos` and counted. */
  function Stored(l: Loaded, pos: nat, b: seq<Byte>): Loaded
    requires b != [] ==> pos + |b| <= |l.m|
  {
    Loaded(WriteMem(l.m, pos, b), l.count + |b|)
  }

  lemma {:induction false} ReadHexBytes(s: Text, i: nat, b: seq<Byte>, l: Loaded, pos: nat)
    requires i + 2 * |b| < |s| && s[i..i + 2 * |b|] == HexBytes(b) && !IsXDigit(s[i + 2 * |b|])
    ensures (b != [] ==> pos + |b| <= |l.m|) ==> ReadBytes(s, i, l, pos) == Some(Stored(l, pos, b))
    ensures b != [] && pos + |b| > |l.m| ==> ReadBytes(s, i, l, pos) == None
    decreases |b|
  {
    hide HexBytes, HexDigits, PairValue, IsXDigit;
    if b == [] {
      assert l == Stored(l, pos, b);
    } else {
      BytePair(s, i, b);
      if pos < |l.m| {
        var l1 := Loaded(l.m[pos := b[0]], l.count + 1);
        ReadHexBytes(s, i + 2, b[1..], l1, pos + 1);
        assert pos + |b| <= |l.m| ==> WriteMem(l1.m, pos + 1, b[1..]) == WriteMem(l.m, pos, b);
      }
    }
  }

  lemma BytePair(s: Text, i: nat, b: seq<Byte>)
    requires b != [] && i + 2 * |b| < |s| && s[i..i + 2 * |b|] == HexBytes(b)
    ensures IsXDigit(s[i]) && IsXDigit(s[i + 1]) && PairValue(s[i], s[i + 1]) == b[0]
    ensures s[i + 2..i + 2 + 2 * |b[1..]|] == HexBytes(b[1..])
  {
    var t, d, r := HexBytes(b), HexDigits(b[0], 2), HexBytes(b[1..]);
    assert t == d + r;
    TwoDigits(b[0]);
    Slices(s, i, t);
    assert t[0] == d[0] && t[1] == d[1] && t[2..] == r;
    hide HexBytes, HexDigits, PairValue, IsXDigit, Digit;
  }

  lemma Slices(s: Text, i: nat, t: Text)
    requires i + |t| <= |s| && s[i..i + |t|] == t && |t| >= 2
    ensures s[i] == t[0] && s[i + 1] == t[1] && s[i + 2..i + |t|] == t[2..]
  {
  }

  lemma TwoDigits(x: Byte)
    ensures HexDigits(x, 2) == [Digit(x / 16), Digit(x % 16)]
    ensures IsXDigit(Digit(x / 16)) && IsXDigit(Digit(x % 16)) && PairValue(Digit(x / 16), Digit(x % 16)) == x
  {
    hide Digit, IsXDigit, Hex2Dig, HexDigits;
    HexStep(x, 2);
    HexStep(x / 16, 1);
    HexStep(x / 16 / 16, 0);
    assert x / 16 % 16 == x / 16;
    DigitReadsBack(x / 16);
    DigitReadsBack(x % 16);
  }

  lemma HexStep(v: nat, n: nat)
    ensures HexDigits(v, n) == if n == 0 then [] else HexDigits(v / 16, n - 1) + [Digit(v % 16)]
  {
  }

  lemma {:induction false} SkipRun(s: Text, i: nat, k: nat)
    requires i + k < |s| && (forall x :: i <= x < i + k ==> s[x] == ' ') && !IsSpace(s[i + k])
    ensures SkipSpace(s, i) == i + k
    decreases k
  {
    if k > 0 {
      SkipRun(s, i + 1, k - 1);
    }
  }

  /** The parts of a printed line: `n` address digits, the code from column `c` on, and the bar in column `d`. */
  predicate Layout(s: Text, n: nat, pos: nat, c: nat, b: seq<Byte>, d: nat) {
    && 3 + n <= c && c + 2 * |b| < d < |s| && s[0] == '0' && s[1] == 'x' && s[2..2 + n] == HexDigits(pos, n) && s[2 + n] == ':'
    && Blank(s, 3 + n, c) && s[c..c + 2 * |b|] == HexBytes(b) && Blank(s, c + 2 * |b|, d) && s[d] == '|'
  }

  predicate Blank(s: Text, i: nat, j: nat)
    requires j <= |s|
  {
    forall x :: i <= x < j ==> s[x] == ' '
  }

  lemma {:induction false} LayoutOf(s: Text, n: nat, pos: nat, colon: Text, b: seq<Byte>, pad: nat, src: Text)
    requires (colon == ":" || colon == ": ") && pad > 0
    requires s == "0x" + HexDigits(pos, n) + colon + HexBytes(b) + Spaces(pad) + "| " + src
    ensures var c := 2 + n + |colon|;
            Layout(s, n, pos, c, b, c + 2 * |b| + pad)
  {
    hide HexDigits, HexBytes, Spaces, Blank, Layout;
    var head, tail := "0x" + HexDigits(pos, n) + colon, "| " + src;
    HeadParts(HexDigits(pos, n), colon);
    assert tail[0] == '|';
    assert s == head + HexBytes(b) + Spaces(pad) + tail;
    Join(s, head, n, pos, b, pad, tail);
  }

  lemma {:induction false} Join(s: Text, head: Text, n: nat, pos: nat, b: seq<Byte>, pad: nat, tail: Text)
    requires s == head + HexBytes(b) + Spaces(pad) + tail
    requires |head| >= 3 + n && head[0] == '0' && head[1] == 'x' && head[2..2 + n] == HexDigits(pos, n)
    requires head[2 + n] == ':'
    requires Blank(head, 3 + n, |head|) && pad > 0 && tail != [] && tail[0] == '|'
    ensures Layout(s, n, pos, |head|, b, |head| + 2 * |b| + pad)
  {
    hide HexDigits, HexBytes, Spaces, Blank;
    Parts(s, head, HexBytes(b), pad, tail);
    HeadOf(s, head, n);
  }

  lemma HeadParts(digits: Text, colon: Text)
    requires colon == ":" || colon == ": "
    ensures var head, n := "0x" + digits + colon, |digits|;
            && |head| >= 3 + n && head[0] == '0' && head[1] == 'x' && head[2..2 + n] == digits && head[2 + n] == ':'
            && Blank(head, 3 + n, |head|)
  {
  }

  lemma Parts(s: Text, head: Text, code: Text, pad: nat, tail: Text)
    requires s == head + code + Spaces(pad) + tail && tail != []
    ensures var c := |head|;
            && |s| > c + |code| + pad && s[..c] == head && s[c..c + |code|] == code
            && Blank(s, c + |code|, c + |code| + pad) && s[c + |code| + pad] == tail[0]
  {
  }

  lemma HeadOf(s: Text, head: Text, n: nat)
    requires |s| >= |head| >= 3 + n && s[..|head|] == head && Blank(head, 3 + n, |head|)
    ensures s[0] == head[0] && s[1] == head[1] && s[2..2 + n] == head[2..2 + n] && s[2 + n] == head[2 + n]
    ensures Blank(s, 3 + n, |head|)
  {
    assert forall x :: 0 <= x < |head| ==> s[x] == head[x];
  }

  lemma LoadLayout(s: Text, n: nat, pos: nat, c: nat, b: seq<Byte>, d: nat, l: Loaded)
    requires Layout(s, n, pos, c, b, d) && pos < Pow16(n) && (b != [] ==> pos + |b| <= |l.m|)
    ensures LoadLine(s, l) == Some(Stored(l, pos, b))
  {
    hide HexDigits, HexBytes, Pow16, ReadBytes, ReadAddr, SkipSpace, Stored, Shift4, Blank;
    ReadHead(s, n, pos, c, b, d);
    ReadCode(s, 3 + n, c, b, d, pos, l);
  }

  lemma ReadHead(s: Text, n: nat, pos: nat, c: nat, b: seq<Byte>, d: nat)
    requires Layout(s, n, pos, c, b, d) && pos < Pow16(n)
    ensures SkipSpace(s, 0) == 0 && ReadAddr(s, 2, 0) == (2 + n, pos) && SkipSpace(s, 2 + n) == 2 + n
  {
    hide HexDigits, HexBytes, Pow16, Blank;
    SkipRun(s, 0, 0);
    ShiftOut(pos, n);
    ReadDigits(s, 2, pos, n, 0);
    SkipRun(s, 2 + n, 0);
  }

  lemma ReadCode(s: Text, i: nat, c: nat, b: seq<Byte>, d: nat, pos: nat, l: Loaded)
    requires i <= c && c + 2 * |b| < d < |s| && Blank(s, i, c) && s[c..c + 2 * |b|] == HexBytes(b)
    requires Blank(s, c + 2 * |b|, d) && s[d] == '|' && (b != [] ==> pos + |b| <= |l.m|)
    ensures ReadBytes(s, SkipSpace(s, i), l, pos) == Some(Stored(l, pos, b))
  {
    hide Stored, ReadBytes, HexBytes, SkipSpace, PairValue;
    assert s[c + 2 * |b|] == ' ';
    if b == [] {
      SkipRun(s, i, d - i);
      ReadStops(s, d, l, pos);
      StoreNothing(l, pos);
    } else {
      BytePair(s, c, b);
      SkipRun(s, i, c - i);
      ReadHexBytes(s, c, b, l, pos);
    }
  }

  lemma ReadStops(s: Text, i: nat, l: Loaded, pos: nat)
    requires i < |s| && !IsXDigit(s[i])
    ensures ReadBytes(s, i, l, pos) == Some(l)
  {
  }

  lemma Pow16Values()
    ensures Pow16(3) == 0x1000 && Pow16(4) == 0x1_0000
  {
    assert Pow16(2) == 0x100;
  }

  /** A printed line is read back: its bytes go to its address, a line without an address changes nothing. */
  lemma {:induction false} LoadPrintedLine(e: Entry, src: Text, l: Loaded)
    requires Printable(e) && InMemory(e, |l.m|)
    ensures LoadLine(TextOf(e, src), l) == Some(Stored(l, e.pos, e.bytes))
  {
    hide HexDigits, HexBytes, Pow16, LoadLine, Stored;
    Pow16Values();
    if e.blank {
      LoadBlank(e.pos > 0xFFF, src, l);
      StoreNothing(l, e.pos);
    } else if e.pos > 0xFFF {
      LayoutOf(TextOf(e, src), 4, e.pos, ":", e.bytes, 22 - 2 * |e.bytes|, src);
      LoadLayout(TextOf(e, src), 4, e.pos, 7, e.bytes, 29, l);
    } else {
      LayoutOf(TextOf(e, src), 3, e.pos, ": ", e.bytes, 21 - 2 * |e.bytes|, src);
      LoadLayout(TextOf(e, src), 3, e.pos, 7, e.bytes, 28, l);
    }
  }

  lemma WriteNothing(m: Mem, pos: nat)
    ensures WriteMem(m, pos, []) == m
  {
  }

  lemma StoreNothing(l: Loaded, pos: nat)
    ensures Stored(l, pos, []) == l
  {
  }

  lemma LoadBlank(wide: bool, src: Text, l: Loaded)
    ensures LoadLine((if wide then BLANK_WIDE else BLANK) + src, l) == Some(l)
  {
    var s := (if wide then BLANK_WIDE else BLANK) + src;
    SkipRun(s, 0, if wide then 29 else 28);
  }

  // ---------- whole listings ----------

  function TextsOf(listing: seq<Entry>, src: seq<Text>, n: nat): seq<Text>
    requires n <= |listing| == |src| && forall i :: 0 <= i < |listing| ==> Printable(listing[i])
  {
    if n == 0 then [] else TextsOf(listing, src, n - 1) + [TextOf(listing[n - 1], src[n - 1])]
  }

  function WriteAll(m: Mem, listing: seq<Entry>, n: nat): (r: Mem)
    requires n <= |listing| && forall i :: 0 <= i < |listing| ==> Printable(listing[i]) && InMemory(listing[i], |m|)
    ensures |r| == |m|
  {
    if n == 0 then m else WriteMem(WriteAll(m, listing, n - 1), listing[n - 1].pos, listing[n - 1].bytes)
  }

  function BytesIn(listing: seq<Entry>, n: nat): nat
    requires n <= |listing|
  {
    if n == 0 then 0 else BytesIn(listing, n - 1) + |listing[n - 1].bytes|
  }

  /** `load_mem` undoes `print_code`: exactly the bytes of the listing are stored, each at its address. */
  lemma {:induction false} LoadUndoesPrint(listing: seq<Entry>, src: seq<Text>, n: nat, m: Mem)
    requires n <= |listing| == |src| && forall i :: 0 <= i < |listing| ==>
              Printable(listing[i]) && InMemory(listing[i], |m|)
    ensures LoadLines(TextsOf(listing, src, n), Loaded(m, 0)) == Some(Loaded(WriteAll(m, listing, n), BytesIn(listing, n)))
  {
    hide TextOf, LoadLine, WriteMem;
    if n > 0 {
      LoadUndoesPrint(listing, src, n - 1, m);
      var t := TextsOf(listing, src, n);
      assert t[..|t| - 1] == TextsOf(listing, src, n - 1);
      LoadPrintedLine(listing[n - 1], src[n - 1], Loaded(WriteAll(m, listing, n - 1), BytesIn(listing, n - 1)));
    }
  }
}
