/** How each kind of header update changes the tiling of the heap. Every update is described by the tag
    words it changes, so that links may change at the same time. */
module MmShape {
  import opened MmHeap

  function End(h: Words, p: int): int
    requires 0 <= p < |h|
  {
    p + Len(h[p])
  }

  lemma ChunkBounds(h: Words, starts: set<int>, high: int, p: int)
    requires Shape(h, starts, high) && p in starts
    ensures LO <= p && Len(h[p]) >= 4 && p + 4 <= End(h, p) <= high < |h|
    ensures End(h, p) == high || End(h, p) in starts
  {
    assert Chunk(h, starts, high, p);
  }

  /** `h1` keeps the tags of chunk `s`: its header and, if it is free, its footer. */
  ghost predicate KeepsTags(h: Words, h1: Words, s: int)
    requires 0 <= s < |h| && |h1| == |h|
  {
    h1[s] == h[s] && (Free(h, s) && 0 < End(h, s) <= |h| ==> h1[End(h, s) - 1] == h[End(h, s) - 1])
  }

  /** A chunk whose tags and whose predecessor's tags are kept stays a chunk. */
  lemma ChunkKept(h: Words, starts: set<int>, high: int, h1: Words, starts1: set<int>, high1: int, s: int)
    requires Shape(h, starts, high) && s in starts && s in starts1 && |h1| == |h| && high1 < |h|
    requires forall t :: t in starts1 ==> 0 <= t < |h|
    requires KeepsTags(h, h1, s)
    requires End(h, s) == high1 || (End(h, s) < high1 && End(h, s) in starts1)
    requires forall q :: q in starts && Free(h, q) && End(h, q) == s ==> q in starts1 && KeepsTags(h, h1, q)
    ensures Chunk(h1, starts1, high1, s) && Len(h1[s]) == Len(h[s])
  {
    ChunkBounds(h, starts, high, s);
    assert Chunk(h, starts, high, s);
    if !IsPUsed(h[s]) {
      var q := s - Len(h[s - 1]);
      assert q in starts && Free(h, q) && End(h, q) == s;
      ChunkBounds(h, starts, high, q);
    }
    hide Len, Clean, IsPUsed, IsUsed;
  }

  lemma TagsFrame(h: Words, h1: Words, starts: set<int>, high: int)
    requires Shape(h, starts, high) && |h1| == |h|
    requires forall s :: s in starts ==> KeepsTags(h, h1, s)
    ensures Shape(h1, starts, high) && FreeSet(h1, starts) == FreeSet(h, starts)
  {
    hide Len, Clean, IsPUsed, IsUsed, Chunk;
    forall p | p in starts
      ensures Len(h1[p]) == Len(h[p]) && Chunk(h1, starts, high, p)
    {
      ChunkBounds(h, starts, high, p);
      ChunkKept(h, starts, high, h1, starts, high, p);
    }
  }

  lemma FreeApart(h: Words, starts: set<int>, high: int)
    requires Shape(h, starts, high)
    ensures Apart(h, FreeSet(h, starts))
  {
    hide Len, Clean, IsPUsed, IsUsed, Chunk;
    forall x | x in starts
      ensures x + 4 <= End(h, x) <= high
    {
      ChunkBounds(h, starts, high, x);
    }
  }

  /** Links are never tags. */
  lemma LinksAreNotTags(h: Words, h1: Words, starts: set<int>, high: int, free: set<int>)
    requires Shape(h, starts, high) && free <= starts && |h1| == |h|
    requires forall w :: 0 <= w < |h| && !LinkWord(free, w) ==> h1[w] == h[w]
    ensures forall p :: p in starts ==> KeepsTags(h, h1, p)
  {
    hide Len, Clean, IsPUsed, IsUsed, Chunk;
    forall p | p in starts
      ensures KeepsTags(h, h1, p)
    {
      ChunkBounds(h, starts, high, p);
      if p - 1 in starts { ChunkBounds(h, starts, high, p - 1); }
      if p - 2 in starts { ChunkBounds(h, starts, high, p - 2); }
      assert !LinkWord(free, p);
      var f := End(h, p) - 1;
      assert f - 1 !in starts && f - 2 !in starts;
      assert !LinkWord(free, f);
    }
  }

  /** Payload words of used chunks are neither tags nor links. */
  lemma PayloadIsPrivate(h: Words, starts: set<int>, high: int, q: int, w: int)
    requires Shape(h, starts, high) && q in starts && !Free(h, q) && q < w < End(h, q)
    ensures LO <= w < high && w !in starts && !LinkWord(FreeSet(h, starts), w)
    ensures forall p :: p in starts && p != q ==> !(p <= w < End(h, p))
  {
    hide Len, Clean, IsPUsed, IsUsed, Chunk;
    ChunkBounds(h, starts, high, q);
    forall p | p in starts && p != q
      ensures !(p <= w < End(h, p)) && w != p && w - 1 != p && w - 2 != p
    {
      ChunkBounds(h, starts, high, p);
    }
  }

  // ---------- allocation ----------

  /** A whole free chunk becomes used; the word after it gets PUSED. */
  ghost predicate TakesWhole(h: Words, h1: Words, starts: set<int>, p: int)
    requires forall s :: s in starts ==> 0 <= s < |h|
  {
    && p in starts && Free(h, p) && |h1| == |h| && 0 <= End(h, p) < |h|
    && h1[p] == GetPSize(h[p]) + 3
    && h1[End(h, p)] == OrPUsed(h[End(h, p)])
    && (forall s :: s in starts && s != p && s != End(h, p) ==> KeepsTags(h, h1, s))
    && (End(h, p) in starts && Free(h, End(h, p)) && 0 < End(h, End(h, p)) <= |h| ==>
          h1[End(h, End(h, p)) - 1] == h[End(h, End(h, p)) - 1])
  }

  lemma TakeWhole(h: Words, h1: Words, starts: set<int>, high: int, p: int)
    requires Shape(h, starts, high) && TakesWhole(h, h1, starts, p)
    ensures |h1| == |h| && p in starts && Shape(h1, starts, high)
    ensures FreeSet(h1, starts) == FreeSet(h, starts) - {p}
    ensures forall s :: s in starts ==> Len(h1[s]) == Len(h[s])
  {
    TakesWholeLength(h, h1, starts, p);
    TakeWholeShape(h, h1, starts, high, p);
    hide Len, IsUsed, Chunk, TakesWhole;
    forall s | s in starts
      ensures Len(h1[s]) == Len(h[s]) && IsUsed(h1[s]) == (s == p || IsUsed(h[s]))
    {
      TakeWholeChunk(h, h1, starts, high, p, s);
    }
  }

  lemma TakeWholeShape(h: Words, h1: Words, starts: set<int>, high: int, p: int)
    requires Shape(h, starts, high) && TakesWhole(h, h1, starts, p)
    ensures Shape(h1, starts, high)
  {
    TakesWholeLength(h, h1, starts, p);
    hide Len, Chunk, TakesWhole;
    forall s | s in starts
      ensures Len(h1[s]) == Len(h[s]) && Chunk(h1, starts, high, s)
    {
      TakeWholeChunk(h, h1, starts, high, p, s);
    }
  }

  lemma TakesWholeLength(h: Words, h1: Words, starts: set<int>, p: int)
    requires forall s :: s in starts ==> 0 <= s < |h|
    requires TakesWhole(h, h1, starts, p)
    ensures p in starts && |h1| == |h|
  {
  }

  lemma TakeWholeChunk(h: Words, h1: Words, starts: set<int>, high: int, p: int, s: int)
    requires Shape(h, starts, high) && TakesWhole(h, h1, starts, p) && s in starts
    ensures |h1| == |h| && Len(h1[s]) == Len(h[s]) && Chunk(h1, starts, high, s)
    ensures IsUsed(h1[s]) == (s == p || IsUsed(h[s]))
  {
    var n := End(h, p);
    ChunkBounds(h, starts, high, p);
    ChunkBounds(h, starts, high, s);
    if s == p {
      SizeOfWord(h[p]);
      HeaderWord(GetPSize(h[p]));
      hide GetPSize, OrPUsed, Clean, IsUsed, IsPUsed;
    } else if s == n {
      OrPUsedFacts(h[n]);
      hide GetPSize, OrPUsed, Clean, IsUsed, IsPUsed, Len;
      assert Chunk(h, starts, high, s);
    } else {
      if n in starts && Free(h, n) {
        assert Chunk(h, starts, high, n);
        assert KeepsTags(h, h1, n);
      }
      hide Chunk, Len, Clean, IsUsed, IsPUsed, GetPSize, OrPUsed;
      ChunkKept(h, starts, high, h1, starts, high, s);
    }
  }

  /** A free chunk is split: its first `a` words become used, the rest a free chunk of its own. */
  ghost predicate Splits(h: Words, h1: Words, starts: set<int>, p: int, a: int)
    requires forall s :: s in starts ==> 0 <= s < |h|
  {
    && p in starts && Free(h, p) && |h1| == |h| && End(h, p) <= |h|
    && a >= 4 && a % 4 == 0 && a + 4 <= Len(h[p])
    && h1[p] == 8 * a + 3
    && h1[p + a] == 8 * (Len(h[p]) - a) + 2 && h1[End(h, p) - 1] == 8 * (Len(h[p]) - a) + 2
    && (forall s :: s in starts && s != p ==> KeepsTags(h, h1, s))
  }

  lemma Split(h: Words, h1: Words, starts: set<int>, high: int, p: int, a: int)
    requires Shape(h, starts, high) && Splits(h, h1, starts, p, a)
    ensures |h1| == |h| && p in starts && p + a !in starts && 0 <= p + a < |h|
    ensures Shape(h1, starts + {p + a}, high)
    ensures FreeSet(h1, starts + {p + a}) == FreeSet(h, starts) - {p} + {p + a}
    ensures Len(h1[p]) == a && GetPSize(h1[p + a]) == 8 * (Len(h[p]) - a)
    ensures forall s :: s in starts && s != p ==> Len(h1[s]) == Len(h[s])
  {
    SplitTags(h, h1, starts, high, p, a);
    SplitShape(h, h1, starts, high, p, a);
    hide Len, IsUsed, GetPSize, Chunk, Splits;
    ChunkBounds(h, starts, high, p);
    forall s | s in starts && s != p
      ensures Len(h1[s]) == Len(h[s]) && IsUsed(h1[s]) == IsUsed(h[s])
    {
      SplitOther(h, h1, starts, high, p, a, s);
    }
    FreshStart(h, starts, high, p, a);
  }

  lemma FreshStart(h: Words, starts: set<int>, high: int, p: int, a: int)
    requires Shape(h, starts, high) && p in starts && 0 < a < Len(h[p])
    ensures p + a !in starts
    ensures forall s :: s in starts && s < p + a && s != p ==> End(h, s) <= p
  {
    hide Chunk, Len;
    forall s | s in starts
      ensures s != p + a
    {
      ChunkBounds(h, starts, high, s);
    }
  }

  lemma SplitShape(h: Words, h1: Words, starts: set<int>, high: int, p: int, a: int)
    requires Shape(h, starts, high) && Splits(h, h1, starts, p, a)
    ensures Shape(h1, starts + {p + a}, high)
  {
    var q := p + a;
    var starts1 := starts + {q};
    SplitTags(h, h1, starts, high, p, a);
    ChunkBounds(h, starts, high, p);
    var e := End(h, p);
    forall s | s in starts1
      ensures LO <= s < high && Chunk(h1, starts1, high, s)
      ensures s == p || s == q || (s in starts && s < p && s + Len(h1[s]) <= p) || (s in starts && s >= e)
      ensures s != p && s != q ==> Len(h1[s]) == Len(h[s])
    {
      SplitEach(h, h1, starts, high, p, a, s);
    }
    hide Len, Chunk, Splits, IsUsed, GetPSize, End;
    assert p + Len(h1[p]) == q && q + Len(h1[q]) == e;
  }

  lemma SplitEach(h: Words, h1: Words, starts: set<int>, high: int, p: int, a: int, s: int)
    requires Shape(h, starts, high) && Splits(h, h1, starts, p, a) && s in starts + {p + a}
    ensures |h1| == |h| && LO <= s < high && Chunk(h1, starts + {p + a}, high, s)
    ensures s == p || s == p + a || (s in starts && s < p && s + Len(h1[s]) <= p) || (s in starts && s >= End(h, p))
    ensures s != p && s != p + a ==> Len(h1[s]) == Len(h[s])
  {
    SplitTags(h, h1, starts, high, p, a);
    hide Len, IsUsed, GetPSize, Chunk, Splits;
    ChunkBounds(h, starts, high, p);
    if s in starts && s != p {
      ChunkBounds(h, starts, high, s);
      SplitOther(h, h1, starts, high, p, a, s);
    }
  }

  lemma SplitTags(h: Words, h1: Words, starts: set<int>, high: int, p: int, a: int)
    requires Shape(h, starts, high) && Splits(h, h1, starts, p, a)
    ensures |h1| == |h| && p in starts && 4 <= a <= Len(h[p]) - 4
    ensures Chunk(h1, starts + {p + a}, high, p) && Chunk(h1, starts + {p + a}, high, p + a)
    ensures Len(h1[p]) == a && IsUsed(h1[p])
    ensures Len(h1[p + a]) == Len(h[p]) - a && !IsUsed(h1[p + a])
    ensures GetPSize(h1[p + a]) == 8 * (Len(h[p]) - a)
  {
    ChunkBounds(h, starts, high, p);
    SplitHeaders(h, h1, starts, p, a);
    hide Len, Clean, IsPUsed, IsUsed, GetPSize;
  }

  lemma SplitHeaders(h: Words, h1: Words, starts: set<int>, p: int, a: int)
    requires forall s :: s in starts ==> 0 <= s < |h|
    requires Splits(h, h1, starts, p, a)
    ensures var r := Len(h[p]) - a;
            && Len(h1[p]) == a && IsUsed(h1[p]) && IsPUsed(h1[p]) && Clean(h1[p])
            && Len(h1[p + a]) == r && GetPSize(h1[p + a]) == 8 * r && Clean(h1[p + a])
            && !IsUsed(h1[p + a]) && IsPUsed(h1[p + a]) && Len(h1[End(h, p) - 1]) == r
  {
    SizeOfWord(h[p]);
    hide Len, Clean, IsPUsed, IsUsed, GetPSize;
    HeaderWord(8 * a);
    HeaderWord(8 * (Len(h[p]) - a));
  }

  lemma SplitOther(h: Words, h1: Words, starts: set<int>, high: int, p: int, a: int, s: int)
    requires Shape(h, starts, high) && Splits(h, h1, starts, p, a) && s in starts && s != p
    ensures |h1| == |h| && Len(h1[s]) == Len(h[s]) && Chunk(h1, starts + {p + a}, high, s) && h1[s] == h[s]
  {
    var n := End(h, p);
    ChunkBounds(h, starts, high, p);
    ChunkBounds(h, starts, high, s);
    if s == n {
      SplitHeaders(h, h1, starts, p, a);
      hide GetPSize, Clean, IsUsed, IsPUsed, Len;
      assert Chunk(h, starts, high, s);
      assert PrevFree(h1, starts + {p + a}, s);
    } else {
      hide Chunk, Len, Clean, IsUsed, IsPUsed, GetPSize;
      ChunkKept(h, starts, high, h1, starts + {p + a}, high, s);
    }
  }

  // ---------- growth ----------

  /** A used chunk of `a` words is appended, and behind it a free one of `r` words if `r` is not 0. */
  ghost predicate Appends(h: Words, h1: Words, starts: set<int>, high: int, a: int, r: int)
    requires forall s :: s in starts ==> 0 <= s < |h|
  {
    && |h1| == |h| && LO <= high && high + a + r < |h| && a >= 4 && a % 4 == 0 && (r == 0 || r >= 4) && r % 4 == 0
    && h1[high] == 8 * a + 3
    && (r > 0 ==> h1[high + a] == 8 * r + 2 && h1[high + a + r - 1] == 8 * r + 3)
    && (forall s :: s in starts ==> KeepsTags(h, h1, s))
  }

  function Appended(starts: set<int>, high: int, a: int, r: int): set<int> {
    starts + {high} + (if r > 0 then {high + a} else {})
  }

  lemma Append(h: Words, h1: Words, starts: set<int>, high: int, a: int, r: int)
    requires Shape(h, starts, high) && Appends(h, h1, starts, high, a, r)
    ensures |h1| == |h| && LO <= high && a >= 4 && r >= 0 && high + a + r < |h|
    ensures Shape(h1, Appended(starts, high, a, r), high + a + r)
    ensures FreeSet(h1, Appended(starts, high, a, r)) == FreeSet(h, starts) + (if r > 0 then {high + a} else {})
    ensures Len(h1[high]) == a && (r > 0 ==> GetPSize(h1[high + a]) == 8 * r)
    ensures forall s :: s in starts ==> Len(h1[s]) == Len(h[s])
  {
    AppendNew(h, h1, starts, high, a, r);
    AppendShape(h, h1, starts, high, a, r);
    hide Len, IsUsed, GetPSize, Chunk, Appends;
    forall s | s in starts
      ensures Len(h1[s]) == Len(h[s]) && h1[s] == h[s]
    {
      AppendOld(h, h1, starts, high, a, r, s);
    }
  }

  lemma AppendShape(h: Words, h1: Words, starts: set<int>, high: int, a: int, r: int)
    requires Shape(h, starts, high) && Appends(h, h1, starts, high, a, r)
    ensures Shape(h1, Appended(starts, high, a, r), high + a + r)
  {
    var starts1, high1 := Appended(starts, high, a, r), high + a + r;
    AppendedStarts(h, starts, high, a, r);
    AppendNew(h, h1, starts, high, a, r);
    hide Len, IsUsed, GetPSize, Chunk, Appends;
    forall s | s in starts1
      ensures LO <= s < high1 && Chunk(h1, starts1, high1, s)
      ensures s in starts ==> Len(h1[s]) == Len(h[s]) && s + Len(h[s]) <= high
      ensures s in starts || s == high || (s == high + a && r > 0)
    {
      if s in starts {
        AppendOld(h, h1, starts, high, a, r, s);
      }
    }
  }

  lemma AppendOld(h: Words, h1: Words, starts: set<int>, high: int, a: int, r: int, s: int)
    requires Shape(h, starts, high) && Appends(h, h1, starts, high, a, r) && s in starts
    ensures |h1| == |h| && h1[s] == h[s] && s + Len(h[s]) <= high
    ensures forall t :: t in Appended(starts, high, a, r) ==> 0 <= t < |h|
    ensures Chunk(h1, Appended(starts, high, a, r), high + a + r, s)
  {
    hide Chunk, Len;
    ChunkBounds(h, starts, high, s);
    ChunkKept(h, starts, high, h1, Appended(starts, high, a, r), high + a + r, s);
  }

  lemma AppendNew(h: Words, h1: Words, starts: set<int>, high: int, a: int, r: int)
    requires Shape(h, starts, high) && Appends(h, h1, starts, high, a, r)
    ensures |h1| == |h| && LO <= high && a >= 4 && r >= 0 && high + a + r < |h| && high !in starts
    ensures high + a !in starts
    ensures Chunk(h1, Appended(starts, high, a, r), high + a + r, high)
    ensures r > 0 ==> Chunk(h1, Appended(starts, high, a, r), high + a + r, high + a)
    ensures Len(h1[high]) == a && IsUsed(h1[high])
    ensures r > 0 ==> Len(h1[high + a]) == r && GetPSize(h1[high + a]) == 8 * r && !IsUsed(h1[high + a])
  {
    AppendedStarts(h, starts, high, a, r);
    AppendHeaders(h, h1, starts, high, a, r);
    hide Len, Clean, IsPUsed, IsUsed, GetPSize, Shape;
  }

  lemma AppendedStarts(h: Words, starts: set<int>, high: int, a: int, r: int)
    requires Shape(h, starts, high) && a >= 4 && (r == 0 || r >= 4) && high + a + r < |h|
    ensures high !in starts && high + a !in starts
    ensures forall t :: t in Appended(starts, high, a, r) ==> 0 <= t < |h|
  {
    hide Chunk, Len;
    if high in starts { ChunkBounds(h, starts, high, high); }
    if high + a in starts { ChunkBounds(h, starts, high, high + a); }
  }

  lemma AppendHeaders(h: Words, h1: Words, starts: set<int>, high: int, a: int, r: int)
    requires forall s :: s in starts ==> 0 <= s < |h|
    requires Appends(h, h1, starts, high, a, r)
    ensures Len(h1[high]) == a && IsUsed(h1[high]) && IsPUsed(h1[high]) && Clean(h1[high])
    ensures r > 0 ==>
              && Len(h1[high + a]) == r && GetPSize(h1[high + a]) == 8 * r && Clean(h1[high + a])
              && !IsUsed(h1[high + a]) && IsPUsed(h1[high + a]) && Len(h1[high + a + r - 1]) == r
  {
    HeaderWord(8 * a);
    HeaderWord(8 * r);
    hide Len, Clean, IsPUsed, IsUsed, GetPSize;
  }

  /** The last chunk, used, is lengthened in place. */
  lemma GrowLast(h: Words, h1: Words, starts: set<int>, high: int, p: int, n: int)
    requires Shape(h, starts, high) && p in starts && !Free(h, p) && End(h, p) == high
    requires n >= Len(h[p]) && n % 4 == 0 && p + n < |h|
    requires h1 == h[p := 8 * n + GetFlag(h[p])]
    ensures Shape(h1, starts, p + n) && FreeSet(h1, starts) == FreeSet(h, starts)
    ensures Len(h1[p]) == n && IsUsed(h1[p])
  {
    ChunkBounds(h, starts, high, p);
    GrowLastShape(h, h1, starts, high, p, n);
    ResizedHeader(h[p], n);
    hide Len, Clean, IsPUsed, IsUsed, GetPSize, GetFlag, Chunk;
  }

  lemma GrowLastShape(h: Words, h1: Words, starts: set<int>, high: int, p: int, n: int)
    requires Shape(h, starts, high) && p in starts && !Free(h, p) && End(h, p) == high
    requires n >= Len(h[p]) && n % 4 == 0 && p + n < |h|
    requires h1 == h[p := 8 * n + GetFlag(h[p])]
    ensures Shape(h1, starts, p + n)
  {
    ChunkBounds(h, starts, high, p);
    ResizedHeader(h[p], n);
    GrownChunk(h, h1, starts, high, p, n);
    hide Len, IsUsed, GetFlag, Chunk;
    forall s | s in starts && s != p
      ensures h1[s] == h[s] && s < p && Chunk(h1, starts, p + n, s)
    {
      GrowLastOther(h, h1, starts, high, p, n, s);
    }
  }

  lemma GrownChunk(h: Words, h1: Words, starts: set<int>, high: int, p: int, n: int)
    requires Shape(h, starts, high) && p in starts && !Free(h, p) && End(h, p) == high
    requires n >= Len(h[p]) && n % 4 == 0 && p + n < |h|
    requires h1 == h[p := 8 * n + GetFlag(h[p])]
    ensures Chunk(h1, starts, p + n, p)
  {
    ChunkBounds(h, starts, high, p);
    ResizedHeader(h[p], n);
    hide Len, Clean, IsPUsed, IsUsed, GetPSize, GetFlag;
    assert Chunk(h, starts, high, p);
  }

  lemma GrowLastOther(h: Words, h1: Words, starts: set<int>, high: int, p: int, n: int, s: int)
    requires Shape(h, starts, high) && p in starts && !Free(h, p) && End(h, p) == high && n >= Len(h[p])
    requires p + n < |h| && h1 == h[p := 8 * n + GetFlag(h[p])] && s in starts && s != p
    ensures h1[s] == h[s] && s < p && Chunk(h1, starts, p + n, s)
  {
    hide Len, IsUsed, GetFlag, Chunk;
    ChunkBounds(h, starts, high, p);
    ChunkBounds(h, starts, high, s);
    ChunkKept(h, starts, high, h1, starts, p + n, s);
  }

  lemma ResizedHeader(w: int, n: int)
    requires n % 4 == 0
    ensures Len(8 * n + GetFlag(w)) == n && IsUsed(8 * n + GetFlag(w)) == IsUsed(w)
    ensures IsPUsed(8 * n + GetFlag(w)) == IsPUsed(w) && Clean(8 * n + GetFlag(w)) == Clean(w)
  {
    var k := n / 4;
    LowBits(k, GetFlag(w));
    LowBits(w / 32, w % 32);
  }

  // ---------- release ----------

  /** The starts that disappear when the chunks from `b` up to `e` become one. */
  function Inner(starts: set<int>, b: int, e: int): set<int> {
    set s | s in starts && b < s < e
  }

  /** The chunks from `b` up to `e` become one free chunk. If `clear`, the used chunk at `e` loses PUSED. */
  ghost predicate Merges(h: Words, h1: Words, starts: set<int>, high: int, b: int, e: int, clear: bool)
    requires forall s :: s in starts ==> 0 <= s < |h|
  {
    && |h1| == |h| && b in starts && b + 4 <= e <= high < |h| && (e - b) % 4 == 0 && IsPUsed(h[b])
    && (e == high || e in starts)
    && (forall s :: s in starts && b <= s < e ==> End(h, s) <= e)
    && h1[b] == 8 * (e - b) + 2 && h1[e - 1] == 8 * (e - b) + 2
    && (forall s :: s in starts && !(b <= s <= e) ==> KeepsTags(h, h1, s))
    && (e in starts ==>
          if clear then IsUsed(h[e]) && h1[e] == ClearPUsed(h[e]) else KeepsTags(h, h1, e))
  }

  lemma Merge(h: Words, h1: Words, starts: set<int>, high: int, b: int, e: int, clear: bool)
    requires Shape(h, starts, high) && Merges(h, h1, starts, high, b, e, clear)
    ensures |h1| == |h| && b in starts && Shape(h1, starts - Inner(starts, b, e), high)
    ensures FreeSet(h1, starts - Inner(starts, b, e)) == FreeSet(h, starts) - Inner(starts, b, e) + {b}
    ensures GetPSize(h1[b]) == 8 * (e - b)
    ensures forall s :: s in starts && !(b <= s < e) ==> Len(h1[s]) == Len(h[s])
  {
    MergeHeaders(h, h1, starts, high, b, e, clear);
    MergeShape(h, h1, starts, high, b, e, clear);
    hide Len, IsUsed, GetPSize, Chunk, Merges, ClearPUsed;
    forall s | s in starts && !(b <= s < e)
      ensures Len(h1[s]) == Len(h[s]) && IsUsed(h1[s]) == IsUsed(h[s])
    {
      MergeOther(h, h1, starts, high, b, e, clear, s);
    }
  }

  lemma MergeHeaders(h: Words, h1: Words, starts: set<int>, high: int, b: int, e: int, clear: bool)
    requires forall s :: s in starts ==> 0 <= s < |h|
    requires Merges(h, h1, starts, high, b, e, clear)
    ensures |h1| == |h| && b in starts && b + 4 <= e <= high < |h|
    ensures Len(h1[b]) == e - b && GetPSize(h1[b]) == 8 * (e - b) && Clean(h1[b])
    ensures !IsUsed(h1[b]) && IsPUsed(h1[b]) && Len(h1[e - 1]) == e - b
  {
    hide Len, Clean, IsUsed, IsPUsed, GetPSize, ClearPUsed;
    HeaderWord(8 * (e - b));
  }

  lemma MergeShape(h: Words, h1: Words, starts: set<int>, high: int, b: int, e: int, clear: bool)
    requires Shape(h, starts, high) && Merges(h, h1, starts, high, b, e, clear)
    ensures Shape(h1, starts - Inner(starts, b, e), high)
  {
    var starts1 := starts - Inner(starts, b, e);
    MergeHeaders(h, h1, starts, high, b, e, clear);
    hide Len, IsUsed, GetPSize, Chunk, Merges, ClearPUsed, Clean, IsPUsed;
    forall s | s in starts1
      ensures LO <= s < high && Chunk(h1, starts1, high, s)
      ensures s == b || (s < b && s + Len(h1[s]) <= b) || (s >= e && Len(h1[s]) == Len(h[s]))
      ensures s != b ==> Len(h1[s]) == Len(h[s])
    {
      if s == b {
        MergedChunk(h, h1, starts, high, b, e, clear);
      } else {
        MergeOther(h, h1, starts, high, b, e, clear, s);
      }
    }
  }

  lemma MergedChunk(h: Words, h1: Words, starts: set<int>, high: int, b: int, e: int, clear: bool)
    requires Shape(h, starts, high) && Merges(h, h1, starts, high, b, e, clear)
    ensures |h1| == |h| && Chunk(h1, starts - Inner(starts, b, e), high, b)
  {
    MergeHeaders(h, h1, starts, high, b, e, clear);
    hide Len, Clean, IsUsed, IsPUsed, GetPSize, ClearPUsed;
  }

  lemma MergeOther(h: Words, h1: Words, starts: set<int>, high: int, b: int, e: int, clear: bool, s: int)
    requires Shape(h, starts, high) && Merges(h, h1, starts, high, b, e, clear) && s in starts && !(b <= s < e)
    ensures |h1| == |h| && Len(h1[s]) == Len(h[s]) && IsUsed(h1[s]) == IsUsed(h[s])
    ensures Chunk(h1, starts - Inner(starts, b, e), high, s)
    ensures s < b ==> End(h, s) <= b
  {
    if s == e {
      MergeNext(h, h1, starts, high, b, e, clear);
    } else {
      MergeFar(h, h1, starts, high, b, e, clear, s);
    }
  }

  lemma MergeNext(h: Words, h1: Words, starts: set<int>, high: int, b: int, e: int, clear: bool)
    requires Shape(h, starts, high) && Merges(h, h1, starts, high, b, e, clear) && e in starts
    ensures |h1| == |h| && Len(h1[e]) == Len(h[e]) && IsUsed(h1[e]) == IsUsed(h[e])
    ensures Chunk(h1, starts - Inner(starts, b, e), high, e)
  {
    ChunkBounds(h, starts, high, e);
    MergeHeaders(h, h1, starts, high, b, e, clear);
    ClearPUsedFacts(h[e]);
    hide Len, Clean, IsUsed, IsPUsed, GetPSize, ClearPUsed;
    assert Chunk(h, starts, high, e);
    assert PrevFree(h1, starts - Inner(starts, b, e), e);
  }

  lemma MergeFar(h: Words, h1: Words, starts: set<int>, high: int, b: int, e: int, clear: bool, s: int)
    requires Shape(h, starts, high) && Merges(h, h1, starts, high, b, e, clear)
    requires s in starts && (s < b || s > e)
    ensures |h1| == |h| && Len(h1[s]) == Len(h[s]) && IsUsed(h1[s]) == IsUsed(h[s])
    ensures Chunk(h1, starts - Inner(starts, b, e), high, s)
    ensures s < b ==> End(h, s) <= b
  {
    var starts1 := starts - Inner(starts, b, e);
    ChunkBounds(h, starts, high, s);
    hide Len, Clean, IsUsed, IsPUsed, GetPSize, Chunk, ClearPUsed;
    forall q | q in starts && Free(h, q) && End(h, q) == s
      ensures q in starts1 && KeepsTags(h, h1, q)
    {
      ChunkBounds(h, starts, high, q);
    }
    ChunkKept(h, starts, high, h1, starts1, high, s);
  }

  /** The chunks from `b` on are given back to the top of the heap; no tag changes. */
  lemma Shrink(h: Words, h1: Words, starts: set<int>, high: int, b: int)
    requires Shape(h, starts, high) && b in starts && |h1| == |h|
    requires forall s :: s in starts ==> KeepsTags(h, h1, s)
    ensures var starts1 := set s | s in starts && s < b;
            Shape(h1, starts1, b) && FreeSet(h1, starts1) == set s | s in FreeSet(h, starts) && s < b
  {
    var starts1 := set s | s in starts && s < b;
    ChunkBounds(h, starts, high, b);
    hide Len, Clean, IsUsed, IsPUsed, GetPSize, Chunk;
    forall s | s in starts1
      ensures Len(h1[s]) == Len(h[s]) && Chunk(h1, starts1, b, s)
    {
      ChunkBounds(h, starts, high, s);
      forall q | q in starts && Free(h, q) && End(h, q) == s
        ensures q in starts1
      {
        ChunkBounds(h, starts, high, q);
      }
      assert End(h, s) <= b;
      ChunkKept(h, starts, high, h1, starts1, b, s);
    }
    assert b > LO ==> LO in starts1;
  }
}
