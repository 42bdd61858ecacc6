/** The heap invariant and what each operation of the allocator does to it, on word sequences. */
module MmOps {
  import opened MmHeap
  import opened MmShape

  ghost predicate HeapInv(h: Words, starts: set<int>, lists: seq<seq<int>>, high: int) {
    Shape(h, starts, high) && Lists(h, FreeSet(h, starts), lists)
  }

  function UsedSet(h: Words, starts: set<int>): set<int>
    requires forall s :: s in starts ==> 0 <= s < |h|
  {
    set p | p in starts && !Free(h, p)
  }

  /** Chunk `q` keeps its length and every payload word. */
  ghost predicate Untouched(h: Words, h1: Words, q: int)
    requires 0 <= q < |h| && |h1| == |h|
  {
    Len(h1[q]) == Len(h[q]) && forall w :: q < w < End(h, q) && w < |h| ==> h1[w] == h[w]
  }

  /** The used chunks of `h` other than those in `except` are still used and untouched. */
  ghost predicate OthersKept(h: Words, starts: set<int>, h1: Words, starts1: set<int>, except: set<int>)
    requires forall s :: s in starts ==> 0 <= s < |h|
    requires forall s :: s in starts1 ==> 0 <= s < |h1|
  {
    && |h1| == |h|
    && (forall q :: q in UsedSet(h, starts) && q !in except ==> q in UsedSet(h1, starts1) && Untouched(h, h1, q))
  }

  /** A word that is no link, no chunk start and in no region being rebuilt keeps its value. */
  ghost predicate ChangesOnly(h: Words, h1: Words, starts: set<int>, lo: int, hi: int)
    requires forall s :: s in starts ==> 0 <= s < |h|
  {
    && |h1| == |h|
    && (forall w :: 0 <= w < |h| && w !in starts && !LinkWord(FreeSet(h, starts), w) && !(lo <= w < hi) ==> h1[w] == h[w])
  }

  lemma UntouchedOutside(h: Words, starts: set<int>, high: int, h1: Words, lo: int, hi: int, q: int)
    requires Shape(h, starts, high) && q in UsedSet(h, starts) && ChangesOnly(h, h1, starts, lo, hi)
    requires End(h, q) <= lo || hi <= q
    requires Len(h1[q]) == Len(h[q])
    ensures Untouched(h, h1, q)
  {
    hide Len, IsUsed, Chunk, LinkWord;
    forall w | q < w < End(h, q) && w < |h|
      ensures h1[w] == h[w]
    {
      PayloadIsPrivate(h, starts, high, q, w);
    }
  }

  /** Lists depend only on the headers and links of their nodes. */
  lemma ListsFrame(h: Words, h1: Words, free: set<int>, lists: seq<seq<int>>)
    requires Lists(h, free, lists) && |h1| == |h|
    requires forall w :: 0 <= w < LO ==> h1[w] == h[w]
    requires forall x :: x in free ==> h1[x] == h[x] && h1[x + 1] == h[x + 1] && h1[x + 2] == h[x + 2]
    ensures Lists(h1, free, lists)
  {
    hide HeaderIndex, GetPSize, Distinct;
    forall x | x in free
      ensures ListOf(h1, x) == ListOf(h, x)
    {
    }
    forall c | 0 <= c < HEADERS
      ensures Linked(h1, 3 * c, lists[c])
    {
      hide ListOf;
      LinkedFrame(h, h1, free, 3 * c, lists[c]);
    }
    hide ListOf, Linked;
  }

  /** Inserting a free chunk that is in no list yet completes the invariant. */
  lemma InsertKeepsHeap(h: Words, h1: Words, starts: set<int>, high: int, lists: seq<seq<int>>, free: set<int>, q: int)
    requires Shape(h, starts, high) && q in starts && FreeSet(h, starts) == free + {q} && q !in free
    requires Lists(h, free, lists)
    requires 0 <= ListOf(h, q) < HEADERS && Inserts(h, h1, q, 3 * ListOf(h, q))
    ensures HeapInv(h1, starts, lists[ListOf(h, q) := lists[ListOf(h, q)] + [q]], high)
    ensures |h1| == |h| && FreeSet(h1, starts) == free + {q}
    ensures forall w :: 0 <= w < |h| && !LinkWord(free + {q}, w) ==> h1[w] == h[w]
    ensures forall s :: s in starts ==> h1[s] == h[s]
  {
    FreeApart(h, starts, high);
    hide Chunk, ListOf, Inserts, LinkWord, Apart;
    InsertLists(h, h1, free, lists, q);
    LinksAreNotTags(h, h1, starts, high, free + {q});
    hide Lists;
    TagsFrame(h, h1, starts, high);
  }

  lemma MemberCount(h: Words, free: set<int>, lists: seq<seq<int>>)
    requires Lists(h, free, lists)
    ensures |lists| == HEADERS
  {
  }

  lemma ListIndex(size: int)
    requires size >= 32 && size % 32 == 0
    ensures 1 <= HeaderIndex(size) < HEADERS
  {
  }

  lemma FreeListIndex(h: Words, starts: set<int>, high: int, x: int)
    requires Shape(h, starts, high) && x in starts
    ensures GetPSize(h[x]) >= 32 && GetPSize(h[x]) % 32 == 0 && 1 <= ListOf(h, x) < HEADERS
  {
    ChunkBounds(h, starts, high, x);
    SizeOfWord(h[x]);
    ListIndex(GetPSize(h[x]));
  }

  // ---------- whole chunk taken ----------

  /** `g` differs from `h` in links only. */
  ghost predicate LinksOnly(h: Words, g: Words, starts: set<int>)
    requires forall s :: s in starts ==> 0 <= s < |h|
  {
    |g| == |h| && forall w :: 0 <= w < |h| && !LinkWord(FreeSet(h, starts), w) ==> g[w] == h[w]
  }

  lemma TakesWholeTags(h: Words, g: Words, h1: Words, starts: set<int>, high: int, p: int)
    requires Shape(h, starts, high) && p in FreeSet(h, starts) && LinksOnly(h, g, starts)
    requires 0 <= End(h, p) < |h|
    requires h1 == g[p := GetPSize(h[p]) + 3][End(h, p) := OrPUsed(g[End(h, p)])]
    ensures TakesWhole(h, h1, starts, p)
  {
    var n := End(h, p);
    ChunkBounds(h, starts, high, p);
    LinksAreNotTags(h, g, starts, high, FreeSet(h, starts));
    NotALink(h, starts, high, n);
    hide Len, IsUsed, GetPSize, OrPUsed, Chunk, LinkWord;
    forall s | s in starts && s != p && s != n
      ensures KeepsTags(h, h1, s)
    {
      ChunkBounds(h, starts, high, s);
    }
    if n in starts {
      ChunkBounds(h, starts, high, n);
    }
  }

  /** The word just past a chunk is not a link. */
  lemma NotALink(h: Words, starts: set<int>, high: int, n: int)
    requires Shape(h, starts, high) && (n in starts || n == high)
    ensures !LinkWord(FreeSet(h, starts), n)
  {
    hide Chunk, Len, IsUsed;
    if n - 1 in starts { ChunkBounds(h, starts, high, n - 1); }
    if n - 2 in starts { ChunkBounds(h, starts, high, n - 2); }
  }

  lemma TakeExactLists(h: Words, g: Words, h1: Words, starts: set<int>, high: int, lists1: seq<seq<int>>, p: int)
    requires Shape(h, starts, high) && p in FreeSet(h, starts) && LinksOnly(h, g, starts)
    requires Lists(g, FreeSet(h, starts) - {p}, lists1)
    requires 0 <= End(h, p) < |h|
    requires h1 == g[p := GetPSize(h[p]) + 3][End(h, p) := OrPUsed(g[End(h, p)])]
    ensures Lists(h1, FreeSet(h, starts) - {p}, lists1)
  {
    var n := End(h, p);
    ChunkBounds(h, starts, high, p);
    NotALink(h, starts, high, n);
    if n in starts && Free(h, n) {
      assert Chunk(h, starts, high, n);
      assert OrPUsed(g[n]) == g[n];
    }
    hide Len, IsUsed, GetPSize, OrPUsed, Chunk, Members, Linked, IsPUsed;
    forall x | x in FreeSet(h, starts) - {p}
      ensures h1[x] == g[x] && h1[x + 1] == g[x + 1] && h1[x + 2] == g[x + 2]
    {
      ChunkBounds(h, starts, high, x);
    }
    ListsFrame(g, h1, FreeSet(h, starts) - {p}, lists1);
  }

  /** From `h` (before), through `g` (unlinked), to `h1`: header used, following word marked. */
  lemma TakeExactKeeps(h: Words, g: Words, h1: Words, starts: set<int>, high: int, lists1: seq<seq<int>>, p: int)
    requires Shape(h, starts, high) && p in FreeSet(h, starts)
    requires LinksOnly(h, g, starts) && Lists(g, FreeSet(h, starts) - {p}, lists1)
    requires 0 <= End(h, p) < |h|
    requires h1 == g[p := GetPSize(h[p]) + 3][End(h, p) := OrPUsed(g[End(h, p)])]
    ensures HeapInv(h1, starts, lists1, high)
    ensures UsedSet(h1, starts) == UsedSet(h, starts) + {p} && Len(h1[p]) == Len(h[p])
    ensures OthersKept(h, starts, h1, starts, {})
  {
    TakesWholeTags(h, g, h1, starts, high, p);
    TakeWhole(h, h1, starts, high, p);
    TakeExactLists(h, g, h1, starts, high, lists1, p);
    TakeExactTouches(h, g, h1, starts, high, p);
    hide Len, IsUsed, GetPSize, OrPUsed, Chunk, LinkWord, Lists, TakesWhole, LinksOnly, ChangesOnly, OthersKept;
    UsedAndFree(h, starts, h1, starts, {p}, {});
    EndsBelow(h, starts, high);
    KeptOutside(h, starts, high, h1, starts, high, high + 1, {});
  }

  lemma EndsBelow(h: Words, starts: set<int>, high: int)
    requires Shape(h, starts, high)
    ensures forall q :: q in starts ==> q + 4 <= End(h, q) <= high
  {
    forall q | q in starts
      ensures q + 4 <= End(h, q) <= high
    {
      ChunkBounds(h, starts, high, q);
    }
  }

  /** Freeing up `gone` chunks of the free set and adding `back` turns around in the used set. */
  lemma UsedAndFree(h: Words, starts: set<int>, h1: Words, starts1: set<int>, gone: set<int>, back: set<int>)
    requires forall s :: s in starts ==> 0 <= s < |h|
    requires forall s :: s in starts1 ==> 0 <= s < |h1|
    requires FreeSet(h1, starts1) == FreeSet(h, starts) - gone + back
    requires starts <= starts1 && starts1 <= starts + gone + back && gone <= starts1 && gone !! back
    requires back !! UsedSet(h, starts)
    ensures UsedSet(h1, starts1) == UsedSet(h, starts) + gone
  {
    hide IsUsed;
    forall q | q in starts1
      ensures q in UsedSet(h1, starts1) <==> q in UsedSet(h, starts) + gone
    {
      assert q in UsedSet(h1, starts1) <==> q !in FreeSet(h1, starts1);
      assert q in starts ==> (q in UsedSet(h, starts) <==> q !in FreeSet(h, starts));
    }
  }

  lemma TakeExactTouches(h: Words, g: Words, h1: Words, starts: set<int>, high: int, p: int)
    requires Shape(h, starts, high) && p in FreeSet(h, starts) && LinksOnly(h, g, starts)
    requires 0 <= End(h, p) < |h|
    requires h1 == g[p := GetPSize(h[p]) + 3][End(h, p) := OrPUsed(g[End(h, p)])]
    ensures ChangesOnly(h, h1, starts, high, high + 1)
  {
    hide Len, IsUsed, GetPSize, OrPUsed, Chunk, LinkWord;
    ChunkBounds(h, starts, high, p);
  }

  /** Used chunks outside the rebuilt region that are still used with the same length are untouched. */
  lemma KeptOutside(h: Words, starts: set<int>, high: int, h1: Words, starts1: set<int>, lo: int, hi: int,
                    except: set<int>)
    requires Shape(h, starts, high) && ChangesOnly(h, h1, starts, lo, hi)
    requires forall s :: s in starts1 ==> 0 <= s < |h1|
    requires forall q :: q in UsedSet(h, starts) && q !in except ==>
               q in UsedSet(h1, starts1) && Len(h1[q]) == Len(h[q]) && (End(h, q) <= lo || hi <= q)
    ensures OthersKept(h, starts, h1, starts1, except)
  {
    hide Len, IsUsed, Chunk, LinkWord, End, Untouched;
    forall q | q in UsedSet(h, starts) && q !in except
      ensures Untouched(h, h1, q)
    {
      UntouchedOutside(h, starts, high, h1, lo, hi, q);
    }
  }

  // ---------- free chunk split ----------

  /** From `h`, through `g` (unlinked), to `t`: both halves' tags written. */
  ghost predicate SplitsFrom(h: Words, g: Words, t: Words, starts: set<int>, p: int, a: int)
    requires forall s :: s in starts ==> 0 <= s < |h|
  {
    && p in FreeSet(h, starts) && LinksOnly(h, g, starts) && p + 8 <= End(h, p) < |h|
    && a >= 4 && a % 4 == 0 && a + 4 <= Len(h[p])
    && t == g[p := 8 * a + 3][p + a := 8 * (Len(h[p]) - a) + 2][End(h, p) - 1 := 8 * (Len(h[p]) - a) + 2]
  }

  lemma SplitsTags(h: Words, g: Words, t: Words, starts: set<int>, high: int, p: int, a: int)
    requires Shape(h, starts, high) && SplitsFrom(h, g, t, starts, p, a)
    ensures Splits(h, t, starts, p, a)
  {
    ChunkBounds(h, starts, high, p);
    LinksAreNotTags(h, g, starts, high, FreeSet(h, starts));
    hide Len, IsUsed, Chunk, LinkWord;
    forall s | s in starts && s != p
      ensures KeepsTags(h, t, s)
    {
      ChunkBounds(h, starts, high, s);
    }
  }

  lemma SplitLists(h: Words, g: Words, t: Words, starts: set<int>, high: int, lists1: seq<seq<int>>, p: int, a: int)
    requires Shape(h, starts, high) && SplitsFrom(h, g, t, starts, p, a)
    requires Lists(g, FreeSet(h, starts) - {p}, lists1)
    ensures Lists(t, FreeSet(h, starts) - {p}, lists1) && |lists1| == HEADERS
  {
    ChunkBounds(h, starts, high, p);
    hide Len, IsUsed, Chunk, Members, Linked;
    forall x | x in FreeSet(h, starts) - {p}
      ensures t[x] == g[x] && t[x + 1] == g[x + 1] && t[x + 2] == g[x + 2]
    {
      ChunkBounds(h, starts, high, x);
    }
    ListsFrame(g, t, FreeSet(h, starts) - {p}, lists1);
    MemberCount(g, FreeSet(h, starts) - {p}, lists1);
  }

  lemma SplitKeeps(h: Words, g: Words, t: Words, h1: Words, starts: set<int>, high: int, lists1: seq<seq<int>>,
                   p: int, a: int)
    requires Shape(h, starts, high) && SplitsFrom(h, g, t, starts, p, a)
    requires Lists(g, FreeSet(h, starts) - {p}, lists1)
    requires |t| == |h| && 0 <= p + a < |t| && Inserts(t, h1, p + a, 3 * ListOf(t, p + a))
    ensures var c := ListOf(t, p + a);
            0 <= c < |lists1| && HeapInv(h1, starts + {p + a}, lists1[c := lists1[c] + [p + a]], high)
    ensures UsedSet(h1, starts + {p + a}) == UsedSet(h, starts) + {p} && Len(h1[p]) == a && h1[p + a] == t[p + a]
    ensures OthersKept(h, starts, h1, starts + {p + a}, {})
  {
    hide Splits, Inserts, Len, IsUsed, Chunk, LinkWord, Lists, GetPSize, ListOf, OthersKept;
    var free, q := FreeSet(h, starts), p + a;
    var starts1 := starts + {q};
    SplitsTags(h, g, t, starts, high, p, a);
    Split(h, t, starts, high, p, a);
    SplitLists(h, g, t, starts, high, lists1, p, a);
    assert q in starts1 && q !in starts && q !in free - {p};
    assert FreeSet(t, starts1) == (free - {p}) + {q};
    FreeListIndex(t, starts1, high, q);
    InsertKeepsHeap(t, h1, starts1, high, lists1, free - {p}, q);
    SplitOthers(h, g, t, h1, starts, high, p, a);
  }

  lemma SplitOthers(h: Words, g: Words, t: Words, h1: Words, starts: set<int>, high: int, p: int, a: int)
    requires Shape(h, starts, high) && SplitsFrom(h, g, t, starts, p, a)
    requires Splits(h, t, starts, p, a) && |h1| == |h|
    requires FreeSet(h1, starts + {p + a}) == FreeSet(h, starts) - {p} + {p + a}
    requires forall w :: 0 <= w < |h| && !LinkWord(FreeSet(h, starts) - {p} + {p + a}, w) ==> h1[w] == t[w]
    requires forall s :: s in starts + {p + a} ==> h1[s] == t[s]
    ensures UsedSet(h1, starts + {p + a}) == UsedSet(h, starts) + {p}
    ensures OthersKept(h, starts, h1, starts + {p + a}, {})
  {
    hide Splits, Len, IsUsed, Chunk, GetPSize, OthersKept, Untouched;
    var starts1 := starts + {p + a};
    Split(h, t, starts, high, p, a);
    UsedAndFree(h, starts, h1, starts1, {p}, {p + a});
    EndsBelow(h, starts, high);
    assert ChangesOnly(h, h1, starts, p, End(h, p));
    assert p in starts && p !in UsedSet(h, starts);
    assert forall q :: q in UsedSet(h, starts) ==> End(h, q) <= p || End(h, p) <= q;
    hide LinkWord, LinksOnly, ChangesOnly, SplitsFrom;
    KeptOutside(h, starts, high, h1, starts1, p, End(h, p), {});
  }

  // ---------- growth ----------

  /** `t` has the tags of the appended chunks. */
  ghost predicate AppendsFrom(h: Words, t: Words, high: int, a: int, r: int) {
    && LO <= high && high + a + r < |h| && a >= 4 && a % 4 == 0 && (r == 0 || r >= 4) && r % 4 == 0
    && t == (if r == 0 then h[high := 8 * a + 3]
             else h[high := 8 * a + 3][high + a := 8 * r + 2][high + a + r - 1 := 8 * r + 3])
  }

  lemma AppendsTags(h: Words, t: Words, starts: set<int>, high: int, a: int, r: int)
    requires Shape(h, starts, high) && AppendsFrom(h, t, high, a, r)
    ensures Appends(h, t, starts, high, a, r)
  {
    hide Len, IsUsed, Chunk;
    forall s | s in starts
      ensures KeepsTags(h, t, s)
    {
      ChunkBounds(h, starts, high, s);
    }
  }

  lemma AppendLists(h: Words, t: Words, starts: set<int>, high: int, lists: seq<seq<int>>, a: int, r: int)
    requires HeapInv(h, starts, lists, high) && AppendsFrom(h, t, high, a, r)
    ensures Lists(t, FreeSet(h, starts), lists) && |lists| == HEADERS
  {
    hide Len, IsUsed, Chunk, Members, Linked;
    MemberCount(h, FreeSet(h, starts), lists);
    forall x | x in FreeSet(h, starts)
      ensures t[x] == h[x] && t[x + 1] == h[x + 1] && t[x + 2] == h[x + 2]
    {
      ChunkBounds(h, starts, high, x);
    }
    ListsFrame(h, t, FreeSet(h, starts), lists);
  }

  lemma AppendOneKeeps(h: Words, h1: Words, starts: set<int>, high: int, lists: seq<seq<int>>, a: int)
    requires HeapInv(h, starts, lists, high) && AppendsFrom(h, h1, high, a, 0)
    ensures HeapInv(h1, starts + {high}, lists, high + a)
    ensures UsedSet(h1, starts + {high}) == UsedSet(h, starts) + {high} && Len(h1[high]) == a
    ensures high !in starts && OthersKept(h, starts, h1, starts + {high}, {})
  {
    hide Appends, Len, IsUsed, Chunk, LinkWord, Lists, GetPSize, AppendsFrom, OthersKept;
    AppendsTags(h, h1, starts, high, a, 0);
    Append(h, h1, starts, high, a, 0);
    assert Appended(starts, high, a, 0) == starts + {high};
    AppendLists(h, h1, starts, high, lists, a, 0);
    assert FreeSet(h1, starts + {high}) == FreeSet(h, starts);
    AppendOthers(h, h1, h1, starts, high, a, 0);
  }

  lemma AppendTwoKeeps(h: Words, t: Words, h1: Words, starts: set<int>, high: int, lists: seq<seq<int>>, a: int, r: int)
    requires HeapInv(h, starts, lists, high) && AppendsFrom(h, t, high, a, r) && r > 0
    requires |t| == |h| && Inserts(t, h1, high + a, 3 * ListOf(t, high + a))
    ensures var c, q := ListOf(t, high + a), high + a;
            0 <= c < |lists| && HeapInv(h1, starts + {high, q}, lists[c := lists[c] + [q]], high + a + r)
    ensures UsedSet(h1, starts + {high, high + a}) == UsedSet(h, starts) + {high} && Len(h1[high]) == a
    ensures h1[high + a] == t[high + a]
    ensures high !in starts && OthersKept(h, starts, h1, starts + {high, high + a}, {})
  {
    hide Appends, Inserts, Len, IsUsed, Chunk, LinkWord, Lists, GetPSize, ListOf, OthersKept, AppendsFrom;
    AppendsTags(h, t, starts, high, a, r);
    Append(h, t, starts, high, a, r);
    var q, starts1 := high + a, starts + {high, high + a};
    assert Appended(starts, high, a, r) == starts1;
    AppendLists(h, t, starts, high, lists, a, r);
    assert q !in FreeSet(h, starts) && q in starts1;
    FreeListIndex(t, starts1, high + a + r, q);
    InsertKeepsHeap(t, h1, starts1, high + a + r, lists, FreeSet(h, starts), q);
    AppendOthers(h, t, h1, starts, high, a, r);
  }

  lemma AppendOthers(h: Words, t: Words, h1: Words, starts: set<int>, high: int, a: int, r: int)
    requires Shape(h, starts, high) && AppendsFrom(h, t, high, a, r)
    requires Appends(h, t, starts, high, a, r) && |h1| == |h|
    requires forall s :: s in Appended(starts, high, a, r) ==> 0 <= s < |h|
    requires FreeSet(h1, Appended(starts, high, a, r)) == FreeSet(h, starts) + (if r > 0 then {high + a} else {})
    requires forall w :: 0 <= w < |h| && !LinkWord(FreeSet(h1, Appended(starts, high, a, r)), w) ==> h1[w] == t[w]
    requires forall s :: s in Appended(starts, high, a, r) ==> h1[s] == t[s]
    ensures high !in starts
    ensures UsedSet(h1, Appended(starts, high, a, r)) == UsedSet(h, starts) + {high}
    ensures OthersKept(h, starts, h1, Appended(starts, high, a, r), {})
  {
    hide Appends, Len, IsUsed, Chunk, GetPSize, OthersKept, Untouched;
    var starts1 := Appended(starts, high, a, r);
    Append(h, t, starts, high, a, r);
    AppendedStarts(h, starts, high, a, r);
    EndsBelow(h, starts, high);
    AppendUsed(h, h1, starts, high, a, r);
    assert ChangesOnly(h, h1, starts, high, high + a + r);
    KeptOutside(h, starts, high, h1, starts1, high, high + a + r, {});
  }

  lemma AppendUsed(h: Words, h1: Words, starts: set<int>, high: int, a: int, r: int)
    requires forall s :: s in starts ==> 0 <= s < |h|
    requires forall s :: s in Appended(starts, high, a, r) ==> 0 <= s < |h1|
    requires high !in starts && high + a !in starts && a >= 4
    requires FreeSet(h1, Appended(starts, high, a, r)) == FreeSet(h, starts) + (if r > 0 then {high + a} else {})
    ensures UsedSet(h1, Appended(starts, high, a, r)) == UsedSet(h, starts) + {high}
  {
    hide IsUsed;
    var starts1 := Appended(starts, high, a, r);
    forall q | q in starts1
      ensures q in UsedSet(h1, starts1) <==> q in UsedSet(h, starts) + {high}
    {
      assert q in UsedSet(h1, starts1) <==> q !in FreeSet(h1, starts1);
      assert q in starts ==> (q in UsedSet(h, starts) <==> q !in FreeSet(h, starts));
    }
  }

  // ---------- release ----------

  /** From `h`, through `g` (free neighbours unlinked), to `t`: one free chunk from `b` up to `e`; `clear`
      says that the used chunk at `e` lost PUSED. */
  ghost predicate MergesFrom(h: Words, g: Words, t: Words, starts: set<int>, high: int, p: int, b: int, e: int,
                             clear: bool)
    requires forall s :: s in starts ==> 0 <= s < |h|
  {
    && LinksOnly(h, g, starts) && p in UsedSet(h, starts) && b in starts && IsPUsed(h[b])
    && LO <= b && b + 4 <= e <= high < |h| && (e - b) % 4 == 0
    && (e == high || e in starts) && (clear ==> e in UsedSet(h, starts))
    && (forall s :: s in starts && b <= s < e ==> End(h, s) <= e)
    && (forall s :: s in UsedSet(h, starts) && b <= s < e ==> s == p)
    && b <= p < e
    && t == (if clear then g[e := ClearPUsed(g[e])] else g)[b := 8 * (e - b) + 2][e - 1 := 8 * (e - b) + 2]
  }

  lemma MergesTags(h: Words, g: Words, t: Words, starts: set<int>, high: int, p: int, b: int, e: int, clear: bool)
    requires Shape(h, starts, high) && MergesFrom(h, g, t, starts, high, p, b, e, clear)
    ensures Merges(h, t, starts, high, b, e, clear)
  {
    hide Len, IsUsed, Chunk, LinkWord, ClearPUsed, IsPUsed;
    LinksAreNotTags(h, g, starts, high, FreeSet(h, starts));
    forall s | s in starts && !(b <= s < e)
      ensures (s == e && clear) || KeepsTags(h, t, s)
    {
      ChunkBounds(h, starts, high, s);
    }
  }

  lemma MergeLists(h: Words, g: Words, t: Words, starts: set<int>, high: int, lists1: seq<seq<int>>,
                   p: int, b: int, e: int, clear: bool)
    requires Shape(h, starts, high) && MergesFrom(h, g, t, starts, high, p, b, e, clear)
    requires Lists(g, FreeSet(h, starts) - Inner(starts, b, e) - {b}, lists1)
    ensures Lists(t, FreeSet(h, starts) - Inner(starts, b, e) - {b}, lists1) && |lists1| == HEADERS
  {
    hide Len, IsUsed, Chunk, Members, Linked, ClearPUsed, IsPUsed;
    var rest := FreeSet(h, starts) - Inner(starts, b, e) - {b};
    forall x | x in rest
      ensures t[x] == g[x] && t[x + 1] == g[x + 1] && t[x + 2] == g[x + 2]
    {
      ChunkBounds(h, starts, high, x);
    }
    ListsFrame(g, t, rest, lists1);
    MemberCount(g, rest, lists1);
  }

  lemma MergeKeeps(h: Words, g: Words, t: Words, h1: Words, starts: set<int>, high: int, lists1: seq<seq<int>>,
                   p: int, b: int, e: int, clear: bool)
    requires Shape(h, starts, high) && MergesFrom(h, g, t, starts, high, p, b, e, clear)
    requires Lists(g, FreeSet(h, starts) - Inner(starts, b, e) - {b}, lists1)
    requires |t| == |h| && Inserts(t, h1, b, 3 * ListOf(t, b))
    ensures var c, starts1 := ListOf(t, b), starts - Inner(starts, b, e);
            && 0 <= c < |lists1| && HeapInv(h1, starts1, lists1[c := lists1[c] + [b]], high)
            && UsedSet(h1, starts1) == UsedSet(h, starts) - {p}
            && OthersKept(h, starts, h1, starts1, {p})
            && b in starts1 && !IsUsed(h1[b]) && End(h1, b) == e
            && (e in starts && 0 <= e < |h| ==> h1[e] == t[e])
  {
    MergedLength(e - b);
    hide Merges, Inserts, Len, IsUsed, Chunk, LinkWord, Lists, GetPSize, ListOf, OthersKept, ClearPUsed, Inner, IsPUsed;
    var free, starts1 := FreeSet(h, starts), starts - Inner(starts, b, e);
    MergesTags(h, g, t, starts, high, p, b, e, clear);
    Merge(h, t, starts, high, b, e, clear);
    MergeLists(h, g, t, starts, high, lists1, p, b, e, clear);
    InnerIsInside(starts, b, e);
    var rest := free - Inner(starts, b, e) - {b};
    assert FreeSet(t, starts1) == rest + {b};
    assert b in starts1;
    FreeListIndex(t, starts1, high, b);
    InsertKeepsHeap(t, h1, starts1, high, lists1, rest, b);
    MergeOthers(h, g, t, h1, starts, high, p, b, e, clear);
  }

  lemma MergedLength(n: int)
    requires n % 4 == 0
    ensures Len(8 * n + 2) == n
  {
    HeaderWord(8 * n);
  }

  lemma InnerIsInside(starts: set<int>, b: int, e: int)
    ensures b !in Inner(starts, b, e) && Inner(starts, b, e) <= starts
    ensures forall s :: s in Inner(starts, b, e) ==> b < s < e
    ensures forall s :: s in starts && b < s < e ==> s in Inner(starts, b, e)
  {
  }

  lemma MergeOthers(h: Words, g: Words, t: Words, h1: Words, starts: set<int>, high: int,
                    p: int, b: int, e: int, clear: bool)
    requires Shape(h, starts, high) && MergesFrom(h, g, t, starts, high, p, b, e, clear)
    requires Merges(h, t, starts, high, b, e, clear) && |h1| == |h|
    requires FreeSet(h1, starts - Inner(starts, b, e)) == FreeSet(h, starts) - Inner(starts, b, e) - {b} + {b}
    requires forall w :: 0 <= w < |h| && !LinkWord(FreeSet(h1, starts - Inner(starts, b, e)), w) ==> h1[w] == t[w]
    requires forall s :: s in starts - Inner(starts, b, e) ==> h1[s] == t[s]
    ensures UsedSet(h1, starts - Inner(starts, b, e)) == UsedSet(h, starts) - {p}
    ensures OthersKept(h, starts, h1, starts - Inner(starts, b, e), {p})
    ensures e in starts && 0 <= e < |h| ==> h1[e] == t[e]
  {
    hide Merges, Len, IsUsed, Chunk, GetPSize, OthersKept, Untouched, ClearPUsed, Inner, IsPUsed;
    var starts1 := starts - Inner(starts, b, e);
    InnerIsInside(starts, b, e);
    Merge(h, t, starts, high, b, e, clear);
    MergeUsed(h, h1, starts, p, b, e);
    MergeTouches(h, g, t, h1, starts, high, p, b, e, clear);
    OutsideMerged(h, g, t, starts, high, p, b, e, clear);
    hide MergesFrom, LinkWord, ChangesOnly, LinksOnly;
    assert forall q :: q in UsedSet(h, starts) && q != p ==> q in starts && !(b <= q < e);
    KeptOutside(h, starts, high, h1, starts1, b, e, {p});
  }

  lemma MergeUsed(h: Words, h1: Words, starts: set<int>, p: int, b: int, e: int)
    requires forall s :: s in starts ==> 0 <= s < |h| && s < |h1|
    requires p in UsedSet(h, starts) && b in starts && b <= p < e
    requires forall s :: s in UsedSet(h, starts) && b <= s < e ==> s == p
    requires FreeSet(h1, starts - Inner(starts, b, e)) == FreeSet(h, starts) - Inner(starts, b, e) - {b} + {b}
    ensures UsedSet(h1, starts - Inner(starts, b, e)) == UsedSet(h, starts) - {p}
  {
    hide IsUsed, Inner;
    InnerIsInside(starts, b, e);
    var starts1 := starts - Inner(starts, b, e);
    forall q
      ensures q in UsedSet(h1, starts1) <==> q in UsedSet(h, starts) - {p}
    {
      assert q in UsedSet(h1, starts1) <==> q in starts1 && q !in FreeSet(h1, starts1);
      assert q in UsedSet(h, starts) <==> q in starts && q !in FreeSet(h, starts);
    }
  }

  lemma MergeTouches(h: Words, g: Words, t: Words, h1: Words, starts: set<int>, high: int,
                     p: int, b: int, e: int, clear: bool)
    requires Shape(h, starts, high) && MergesFrom(h, g, t, starts, high, p, b, e, clear) && |h1| == |h|
    requires FreeSet(h1, starts - Inner(starts, b, e)) == FreeSet(h, starts) - Inner(starts, b, e) - {b} + {b}
    requires forall w :: 0 <= w < |h| && !LinkWord(FreeSet(h1, starts - Inner(starts, b, e)), w) ==> h1[w] == t[w]
    ensures ChangesOnly(h, h1, starts, b, e)
  {
    hide Len, IsUsed, Chunk, ClearPUsed, Inner, IsPUsed;
    InnerIsInside(starts, b, e);
    var free, free1 := FreeSet(h, starts), FreeSet(h1, starts - Inner(starts, b, e));
    forall w | 0 <= w < |h| && w !in starts && !LinkWord(free, w) && !(b <= w < e)
      ensures h1[w] == h[w]
    {
      assert !LinkWord(free1, w);
    }
  }

  lemma OutsideMerged(h: Words, g: Words, t: Words, starts: set<int>, high: int, p: int, b: int, e: int, clear: bool)
    requires Shape(h, starts, high) && MergesFrom(h, g, t, starts, high, p, b, e, clear)
    ensures forall q :: q in starts && !(b <= q < e) ==> End(h, q) <= b || e <= q
    ensures forall q :: q in UsedSet(h, starts) && b <= q < e ==> q == p
  {
    hide Len, IsUsed, Chunk, ClearPUsed, IsPUsed, LinkWord;
    EndsBelow(h, starts, high);
  }

  /** The last used chunk, and the free chunk before it if the caller unlinked it, leave the heap. */
  lemma ShrinkKeeps(h: Words, g: Words, starts: set<int>, high: int, lists1: seq<seq<int>>, p: int, b: int)
    requires Shape(h, starts, high) && LinksOnly(h, g, starts) && p in UsedSet(h, starts) && End(h, p) == high
    requires b in starts && (b == p || (b in FreeSet(h, starts) && End(h, b) == p))
    requires Lists(g, FreeSet(h, starts) - {b}, lists1)
    ensures var starts1 := set s | s in starts && s < b;
            && HeapInv(g, starts1, lists1, b)
            && UsedSet(g, starts1) == UsedSet(h, starts) - {p}
            && OthersKept(h, starts, g, starts1, {p})
  {
    hide Len, IsUsed, Chunk, LinkWord, Lists, OthersKept, Untouched;
    var starts1 := set s | s in starts && s < b;
    LinksAreNotTags(h, g, starts, high, FreeSet(h, starts));
    Shrink(h, g, starts, high, b);
    ShrinkSets(h, g, starts, high, p, b);
    KeptOutside(h, starts, high, g, starts1, high, high, {p});
  }

  lemma ShrinkSets(h: Words, g: Words, starts: set<int>, high: int, p: int, b: int)
    requires Shape(h, starts, high) && p in UsedSet(h, starts) && End(h, p) == high
    requires |g| == |h| && forall s :: s in starts ==> KeepsTags(h, g, s)
    requires b in starts && (b == p || (b in FreeSet(h, starts) && End(h, b) == p))
    ensures var starts1 := set s | s in starts && s < b;
            && (forall s :: s in starts1 ==> 0 <= s < |g|)
            && (set s | s in FreeSet(h, starts) && s < b) == FreeSet(h, starts) - {b}
            && UsedSet(g, starts1) == UsedSet(h, starts) - {p}
    ensures forall q :: q in starts ==> End(h, q) <= high && Len(g[q]) == Len(h[q])
  {
    hide Len, IsUsed, Chunk;
    EndsBelow(h, starts, high);
    ChunkBounds(h, starts, high, b);
    forall s | s in starts
      ensures s < b || s == b || s == p
    {
      ChunkBounds(h, starts, high, s);
    }
  }

  // ---------- growth in place ----------

  lemma GrowLastKeeps(h: Words, h1: Words, starts: set<int>, high: int, lists: seq<seq<int>>, p: int, n: int)
    requires HeapInv(h, starts, lists, high) && p in UsedSet(h, starts) && End(h, p) == high
    requires n >= Len(h[p]) && n % 4 == 0 && p + n < |h| && h1 == h[p := 8 * n + GetFlag(h[p])]
    ensures HeapInv(h1, starts, lists, p + n) && Len(h1[p]) == n
    ensures UsedSet(h1, starts) == UsedSet(h, starts) && OthersKept(h, starts, h1, starts, {p})
  {
    hide Len, IsUsed, Chunk, GetFlag, Members, Linked, GetPSize, Untouched;
    GrowLast(h, h1, starts, high, p, n);
    EndsBelow(h, starts, high);
    forall x | x in FreeSet(h, starts)
      ensures h1[x] == h[x] && h1[x + 1] == h[x + 1] && h1[x + 2] == h[x + 2]
    {
      ChunkBounds(h, starts, high, x);
    }
    ListsFrame(h, h1, FreeSet(h, starts), lists);
    KeptOutside(h, starts, high, h1, starts, high, high, {p});
  }
  // ---------- writes of the user ----------

  /** Writing the payload of a used chunk keeps the heap. */
  lemma PayloadWriteKeeps(h: Words, h1: Words, starts: set<int>, high: int, lists: seq<seq<int>>, q: int)
    requires HeapInv(h, starts, lists, high) && q in UsedSet(h, starts) && |h1| == |h|
    requires forall w :: 0 <= w < |h| && !(q < w < End(h, q)) ==> h1[w] == h[w]
    ensures HeapInv(h1, starts, lists, high) && UsedSet(h1, starts) == UsedSet(h, starts)
    ensures OthersKept(h, starts, h1, starts, {q})
  {
    hide Len, IsUsed, Chunk, Members, Linked, Untouched;
    EndsBelow(h, starts, high);
    forall s | s in starts
      ensures KeepsTags(h, h1, s)
      ensures s in FreeSet(h, starts) ==> h1[s + 1] == h[s + 1] && h1[s + 2] == h[s + 2]
    {
    }
    TagsFrame(h, h1, starts, high);
    ListsFrame(h, h1, FreeSet(h, starts), lists);
    KeptOutside(h, starts, high, h1, starts, q, End(h, q), {q});
  }
}
