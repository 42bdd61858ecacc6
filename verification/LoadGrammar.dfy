/** What `load_mem` makes of a line of text, whoever wrote it: the three kinds of lines, by their shape. */
module LoadGrammar {
  import opened Words
  import opened Memory
  import opened AsmListing

  /** `isspace`; the digits are those of `AsmListing.DigitCharacters`. */
  lemma SpaceCharacters(c: char)
    ensures IsSpace(c) <==> c in " \t\n\r" || c as int == 11 || c as int == 12
  {
  }

  /** The characters from `lo` up to `hi` are blanks, and the next one is not. */
  predicate BlanksTo(s: Text, lo: int, hi: int) {
    0 <= lo <= hi <= |s| && (forall k :: lo <= k < hi ==> IsSpace(s[k])) && (hi < |s| ==> !IsSpace(s[hi]))
  }

  predicate DigitsTo(s: Text, lo: int, hi: int) {
    0 <= lo <= hi <= |s| && (forall k :: lo <= k < hi ==> IsXDigit(s[k])) && (hi < |s| ==> !IsXDigit(s[hi]))
  }

  /** Pairs of digits, and no pair behind them. */
  predicate PairsTo(s: Text, lo: int, n: nat) {
    && 0 <= lo && lo + 2 * n <= |s| && (forall k :: lo <= k < lo + 2 * n ==> IsXDigit(s[k]))
    && (lo + 2 * n + 1 < |s| ==> !IsXDigit(s[lo + 2 * n]) || !IsXDigit(s[lo + 2 * n + 1]))
  }

  /** The number written from `lo` up to `hi`, most significant digit first. */
  function NumberIn(s: Text, lo: int, hi: int): nat
    requires 0 <= lo <= hi <= |s| && forall k :: lo <= k < hi ==> IsXDigit(s[k])
    decreases hi - lo
  {
    if lo == hi then 0 else 16 * NumberIn(s, lo, hi - 1) + Hex2Dig(s[hi - 1])
  }

  /** The bytes of the pairs are in memory from `pos` on, the rest of it is as it was, and they are counted. */
  ghost predicate Stores(l: Loaded, r: Option<Loaded>, s: Text, lo: int, n: nat, pos: nat)
    requires PairsTo(s, lo, n)
  {
    if n > 0 && pos + n > |l.m| then r == None
    else
      && r.Some? && r.value.count == l.count + n && |r.value.m| == |l.m|
      && (forall k :: 0 <= k < n ==> r.value.m[pos + k] == 16 * Hex2Dig(s[lo + 2 * k]) + Hex2Dig(s[lo + 2 * k + 1]))
      && (forall p :: 0 <= p < |l.m| && !(pos <= p < pos + n) ==> r.value.m[p] == l.m[p])
  }

  lemma {:induction false} SkipTo(s: Text, i: nat, j: nat)
    requires BlanksTo(s, i, j)
    ensures SkipSpace(s, i) == j
    decreases j - i
  {
    if i < j {
      SkipTo(s, i + 1, j);
    }
  }

  lemma {:induction false} ReadTo(s: Text, lo: nat, i: nat, hi: nat)
    requires DigitsTo(s, lo, hi) && lo <= i <= hi
    ensures ReadAddr(s, i, NumberIn(s, lo, i)) == (hi, NumberIn(s, lo, hi))
    decreases hi - i
  {
    if i < hi {
      ReadTo(s, lo, i + 1, hi);
    }
  }

  lemma {:induction false} StoreTo(s: Text, lo: nat, n: nat, l: Loaded, pos: nat)
    requires PairsTo(s, lo, n)
    ensures Stores(l, ReadBytes(s, lo, l, pos), s, lo, n, pos)
    decreases n
  {
    if n > 0 && pos < |l.m| {
      var x := PairValue(s[lo], s[lo + 1]);
      StoreTo(s, lo + 2, n - 1, Loaded(l.m[pos := x], l.count + 1), pos + 1);
      StoredOneMore(s, lo, n, l, ReadBytes(s, lo, l, pos), pos, x);
    }
  }

  lemma StoredOneMore(s: Text, lo: nat, n: nat, l: Loaded, r: Option<Loaded>, pos: nat, x: Byte)
    requires PairsTo(s, lo, n) && n > 0 && pos < |l.m| && PairsTo(s, lo + 2, n - 1) && x == PairValue(s[lo], s[lo + 1])
    requires Stores(Loaded(l.m[pos := x], l.count + 1), r, s, lo + 2, n - 1, pos + 1)
    ensures Stores(l, r, s, lo, n, pos)
  {
    if pos + n <= |l.m| {
      forall k | 0 <= k < n
        ensures r.value.m[pos + k] == 16 * Hex2Dig(s[lo + 2 * k]) + Hex2Dig(s[lo + 2 * k + 1])
      {
        if k > 0 {
          assert r.value.m[pos + 1 + (k - 1)] == 16 * Hex2Dig(s[lo + 2 + 2 * (k - 1)]) + Hex2Dig(s[lo + 2 + 2 * (k - 1) + 1]);
        }
      }
    }
  }

  /** Blanks, "0x" or "0X", digits up to `j`, blanks up to a colon at `k`, blanks up to `c`, `n` pairs of digits: the
      line stores its bytes at the address, or is an error if one of them is out of memory. */
  lemma LineStores(s: Text, i: nat, j: nat, k: nat, c: nat, n: nat, l: Loaded)
    requires BlanksTo(s, 0, i) && i + 2 <= j <= k < c <= |s| && s[i] == '0' && (s[i + 1] == 'x' || s[i + 1] == 'X')
    requires DigitsTo(s, i + 2, j) && BlanksTo(s, j, k) && s[k] == ':' && BlanksTo(s, k + 1, c) && PairsTo(s, c, n)
    ensures Stores(l, LoadLine(s, l), s, c, n, NumberIn(s, i + 2, j))
  {
    SkipTo(s, 0, i);
    ReadTo(s, i + 2, i + 2, j);
    SkipTo(s, j, k);
    SkipTo(s, k + 1, c);
    StoreTo(s, c, n, l, NumberIn(s, i + 2, j));
    hide SkipSpace, ReadAddr, ReadBytes, Stores, PairsTo;
  }

  /** A line whose first word does not begin with "0x" or "0X" changes nothing. */
  lemma LineIgnored(s: Text, i: nat, l: Loaded)
    requires BlanksTo(s, 0, i)
    requires |s| < i + 2 || s[i] != '0' || (s[i + 1] != 'x' && s[i + 1] != 'X')
    ensures LoadLine(s, l) == Some(l)
  {
    SkipTo(s, 0, i);
    hide SkipSpace, ReadAddr, ReadBytes;
  }

  /** An address that no colon follows is an error. */
  lemma LineWithoutColon(s: Text, i: nat, j: nat, k: nat, l: Loaded)
    requires BlanksTo(s, 0, i) && i + 2 <= j <= k <= |s| && s[i] == '0' && (s[i + 1] == 'x' || s[i + 1] == 'X')
    requires DigitsTo(s, i + 2, j) && BlanksTo(s, j, k) && (k < |s| ==> s[k] != ':')
    ensures LoadLine(s, l) == None
  {
    SkipTo(s, 0, i);
    ReadTo(s, i + 2, i + 2, j);
    SkipTo(s, j, k);
    hide SkipSpace, ReadAddr, ReadBytes;
  }
}
