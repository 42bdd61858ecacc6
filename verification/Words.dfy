/** Machine numbers: 64-bit signed words, bytes, nibbles and their little-endian encoding. */
module Words {
  import opened Arith

  const TWO_63: int := 0x8000_0000_0000_0000
  const TWO_64: int := 0x1_0000_0000_0000_0000

  /** `word_t`: a 64-bit two's complement integer. */
  type Word = x: int | -0x8000_0000_0000_0000 <= x < 0x8000_0000_0000_0000
  type Byte = x: int | 0 <= x < 256
  type Nibble = x: int | 0 <= x < 16

  /** The word congruent to `x`: what 64-bit arithmetic keeps of an exact result. */
  function Wrap(x: int): Word {
    (x + TWO_63) % TWO_64 - TWO_63
  }

  lemma WrapWitness(x: int) returns (k: int)
    ensures Wrap(x) == x - k * TWO_64
  {
    k := (x + TWO_63) / TWO_64;
  }

  /** The bit pattern of `w` read as an unsigned number. */
  function Unsigned(w: Word): (u: nat)
    ensures u < TWO_64 && Wrap(u) == w
  {
    if w < 0 then w + TWO_64 else w
  }

  /** Bitwise operators on `n`-bit patterns. */
  function BitAnd(a: nat, b: nat, n: nat): nat {
    if n == 0 then 0 else (if a % 2 == 1 && b % 2 == 1 then 1 else 0) + 2 * BitAnd(a / 2, b / 2, n - 1)
  }

  function BitXor(a: nat, b: nat, n: nat): nat {
    if n == 0 then 0 else (if a % 2 != b % 2 then 1 else 0) + 2 * BitXor(a / 2, b / 2, n - 1)
  }

  function And(a: Word, b: Word): Word {
    Wrap(BitAnd(Unsigned(a), Unsigned(b), 64))
  }

  function Xor(a: Word, b: Word): Word {
    Wrap(BitXor(Unsigned(a), Unsigned(b), 64))
  }

  /** Bit `i` of a pattern, counted from the least significant. */
  predicate Bit(u: nat, i: nat) { if i == 0 then u % 2 == 1 else Bit(u / 2, i - 1) }

  lemma {:induction false} BitsOfAnd(a: nat, b: nat, n: nat, i: nat)
    requires i < n
    ensures BitAnd(a, b, n) < Pow2(n) && (Bit(BitAnd(a, b, n), i) <==> Bit(a, i) && Bit(b, i))
  {
    if n > 1 {
      BitsOfAnd(a / 2, b / 2, n - 1, if i > 0 then i - 1 else 0);
    } else {
      assert BitAnd(a / 2, b / 2, 0) == 0;
    }
  }

  lemma {:induction false} BitsOfXor(a: nat, b: nat, n: nat, i: nat)
    requires i < n
    ensures BitXor(a, b, n) < Pow2(n) && (Bit(BitXor(a, b, n), i) <==> Bit(a, i) != Bit(b, i))
  {
    if n > 1 {
      BitsOfXor(a / 2, b / 2, n - 1, if i > 0 then i - 1 else 0);
    } else {
      assert BitXor(a / 2, b / 2, 0) == 0;
    }
  }

  lemma Pow2Of64()
    ensures Pow2(64) == TWO_64
  {
    assert Pow2(4) == 16;
    Doubled(4, 16);
    Doubled(8, 256);
    Doubled(16, 0x1_0000);
    Doubled(32, 0x1_0000_0000);
  }

  lemma Doubled(n: nat, v: nat)
    requires Pow2(n) == v
    ensures Pow2(2 * n) == v * v
  {
    Pow2Sum(n, n);
  }

  lemma PatternKept(u: nat)
    requires u < TWO_64
    ensures Unsigned(Wrap(u)) == u
  {
  }

  /** AND and XOR bit by bit. */
  lemma BitwiseExact(a: Word, b: Word, i: nat)
    requires i < 64
    ensures Bit(Unsigned(And(a, b)), i) <==> Bit(Unsigned(a), i) && Bit(Unsigned(b), i)
    ensures Bit(Unsigned(Xor(a, b)), i) <==> Bit(Unsigned(a), i) != Bit(Unsigned(b), i)
  {
    hide BitAnd, BitXor, Bit, Unsigned, Wrap, Pow2;
    Pow2Of64();
    BitsOfAnd(Unsigned(a), Unsigned(b), 64, i);
    BitsOfXor(Unsigned(a), Unsigned(b), 64, i);
    PatternKept(BitAnd(Unsigned(a), Unsigned(b), 64));
    PatternKept(BitXor(Unsigned(a), Unsigned(b), 64));
  }

  function Hi4(b: Byte): Nibble { b / 16 }

  function Lo4(b: Byte): Nibble { b % 16 }

  function Pack(hi: Nibble, lo: Nibble): (b: Byte)
    ensures Hi4(b) == hi && Lo4(b) == lo
  {
    hi * 16 + lo
  }

  /** The `n` low bytes of `v`, least significant first (arithmetic shifts, so `v` may be negative). */
  function LowBytes(v: int, n: nat): (s: seq<Byte>)
    ensures |s| == n
    decreases n
  {
    if n == 0 then [] else [v % 256] + LowBytes(v / 256, n - 1)
  }

  /** Byte `i` is the `i`-th base-256 digit, whatever the number of bytes. */
  lemma {:induction false} ByteOfWord(v: int, n: nat, i: nat)
    requires i < n
    ensures LowBytes(v, n)[i] == v / Pow256(i) % 256
    decreases n
  {
    if i > 0 {
      ByteOfWord(v / 256, n - 1, i - 1);
      DivideTwice(v, Pow256(i - 1));
    }
  }

  lemma DivideTwice(v: int, m: int)
    requires m > 0
    ensures v / 256 / m == v / (256 * m)
  {
    DivTwice(v, 256, m);
  }

  /** The unsigned number whose base-256 digits are `s`, least significant first. */
  function FromBytes(s: seq<Byte>): (u: nat) {
    if s == [] then 0 else s[0] + 256 * FromBytes(s[1..])
  }

  function Pow256(n: nat): (p: nat)
    ensures p > 0
  {
    if n == 0 then 1 else 256 * Pow256(n - 1)
  }

  lemma {:induction false} Pow256Is8()
    ensures Pow256(8) == TWO_64
  {
    assert Pow256(4) == 0x1_0000_0000 by {
      assert Pow256(2) == 0x1_0000;
    }
    assert Pow256(6) == 0x1_0000_0000_0000;
  }

  /** Decoding an encoding returns the value modulo `256^n`. */
  lemma {:induction false} FromLowBytes(v: int, n: nat)
    ensures exists k: int :: FromBytes(LowBytes(v, n)) == v - k * Pow256(n)
    ensures FromBytes(LowBytes(v, n)) < Pow256(n)
    decreases n
  {
    if n == 0 {
      assert v - v * Pow256(0) == 0;
    } else {
      FromLowBytes(v / 256, n - 1);
      var k: int :| FromBytes(LowBytes(v / 256, n - 1)) == v / 256 - k * Pow256(n - 1);
      assert LowBytes(v, n)[1..] == LowBytes(v / 256, n - 1);
      assert 256 * (k * Pow256(n - 1)) == k * Pow256(n);
      assert FromBytes(LowBytes(v, n)) == v - k * Pow256(n);
    }
  }

  /** Bytes to word: assemble the pattern, read it as signed. */
  function WordOf(s: seq<Byte>): Word {
    Wrap(FromBytes(s))
  }

  lemma WrapCongruent(x: int, y: int, k: int)
    requires x == y - k * TWO_64
    ensures Wrap(x) == Wrap(y)
  {
    var a, b := Wrap(x), Wrap(y);
    var i := WrapWitness(x);
    var j := WrapWitness(y);
    assert a - b == (j - k - i) * TWO_64;
  }

  lemma WrapId(w: Word)
    ensures Wrap(w) == w
  {
  }

  /** Round trip: the eight bytes of a word decode to that word. */
  lemma WordRoundTrip(w: Word)
    ensures WordOf(LowBytes(w, 8)) == w
  {
    FromLowBytes(w, 8);
    Pow256Is8();
    var k: int :| FromBytes(LowBytes(w, 8)) == w - k * Pow256(8);
    WrapCongruent(FromBytes(LowBytes(w, 8)), w, k);
    WrapId(w);
  }

  /** The other direction: eight bytes are the encoding of the word they decode to. */
  lemma BytesRoundTrip(s: seq<Byte>)
    requires |s| == 8
    ensures LowBytes(WordOf(s), 8) == s
  {
    hide LowBytes, FromBytes, Wrap, Pow256;
    var u := FromBytes(s);
    var k := WrapWitness(u);
    Pow256Is8();
    LowBytesPeriodic(u, -k, 8);
    assert WordOf(s) == u + (-k) * Pow256(8);
    LowBytesFromBytes(s);
  }

  lemma {:induction false} LowBytesFromBytes(s: seq<Byte>)
    ensures LowBytes(FromBytes(s), |s|) == s
  {
    if s != [] {
      LowBytesFromBytes(s[1..]);
      assert FromBytes(s) / 256 == FromBytes(s[1..]) && FromBytes(s) % 256 == s[0];
    }
  }

  /** Adding a multiple of `256^n` does not change the `n` low bytes. */
  lemma {:induction false} LowBytesPeriodic(v: int, k: int, n: nat)
    ensures LowBytes(v + k * Pow256(n), n) == LowBytes(v, n)
    decreases n
  {
    if n > 0 {
      var p := k * Pow256(n - 1);
      assert k * Pow256(n) == 256 * p;
      assert (v + 256 * p) % 256 == v % 256 && (v + 256 * p) / 256 == v / 256 + p;
      LowBytesPeriodic(v / 256, k, n - 1);
    }
  }
}
