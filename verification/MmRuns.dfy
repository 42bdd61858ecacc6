/** What the heap invariant means for a reader of the heap: walks, sizes, and the one request that breaks it. */
module MmRuns {
  import opened MmHeap
  import opened MmShape
  import opened MmOps
  import opened MmAlloc

  // ---------- walking the heap ----------

  /** The chunk starts met when stepping from header to header. */
  function Walk(h: Words, p: int, high: int): seq<int>
    decreases high - p
  {
    if 0 <= p < high && p < |h| && Len(h[p]) > 0 then [p] + Walk(h, End(h, p), high) else []
  }

  /** The words of the used chunks, or of the free chunks, met on the walk. */
  function WordsIn(h: Words, used: bool, p: int, high: int): int
    decreases high - p
  {
    if 0 <= p < high && p < |h| && Len(h[p]) > 0 then
      (if IsUsed(h[p]) == used then Len(h[p]) else 0) + WordsIn(h, used, End(h, p), high)
    else 0
  }

  /** The walk meets every chunk from `p` on exactly once, in address order. */
  lemma {:induction false} WalkMeetsAll(h: Words, starts: set<int>, high: int, p: int)
    requires Shape(h, starts, high) && (p in starts || p == high)
    ensures forall s :: s in Walk(h, p, high) <==> s in starts && s >= p
    ensures forall i, j :: 0 <= i < j < |Walk(h, p, high)| ==> Walk(h, p, high)[i] < Walk(h, p, high)[j]
    decreases high - p
  {
    hide Len, IsUsed, Chunk;
    if p in starts {
      ChunkBounds(h, starts, high, p);
      WalkMeetsAll(h, starts, high, End(h, p));
      var rest := Walk(h, End(h, p), high);
      assert Walk(h, p, high) == [p] + rest;
      forall i | 0 <= i < |rest|
        ensures rest[i] > p
      {
        assert rest[i] in rest;
      }
    }
  }

  /** Used and free chunks together fill the heap. */
  lemma {:induction false} UsedPlusFree(h: Words, starts: set<int>, high: int, p: int)
    requires Shape(h, starts, high) && (p in starts || p == high)
    ensures WordsIn(h, true, p, high) + WordsIn(h, false, p, high) == high - p
    decreases high - p
  {
    hide Len, IsUsed, Chunk;
    if p in starts {
      ChunkBounds(h, starts, high, p);
      UsedPlusFree(h, starts, high, End(h, p));
    }
  }

  // ---------- the request that breaks the heap ----------

  /** The words below `high` are a heap in order. */
  ghost predicate IsHeap(h: Words, high: int) {
    exists starts, lists :: HeapInv(h, starts, lists, high)
  }

  /** Growing for a small request keeps the heap if and only if the request does not round to 544 bytes: then
      the free chunk behind it has size zero, lies past the top and is linked into list 0. */
  lemma SmallGrowthKeepsHeapIff(h: Words, h1: Words, starts: set<int>, lists: seq<seq<int>>, high: int, size: int)
    requires HeapInv(h, starts, lists, high) && GrowsSmall(h, h1, high, size)
    ensures IsHeap(h1, high + Growth(size) / 8) <==> size != MIN_CHUNK_SIZE
  {
    if size != MIN_CHUNK_SIZE {
      SmallGrowthKeeps(h, h1, starts, lists, high, size);
    } else {
      assert h1[2] == high + 68;
      NoLinkToTop(h1, high + 68);
    }
  }

  lemma SmallGrowthKeeps(h: Words, h1: Words, starts: set<int>, lists: seq<seq<int>>, high: int, size: int)
    requires HeapInv(h, starts, lists, high) && GrowsSmall(h, h1, high, size) && size != MIN_CHUNK_SIZE
    ensures IsHeap(h1, high + Growth(size) / 8)
  {
    hide HeapInv, Inserts, HeaderIndex, ListOf, AppendsFrom, Len, OthersKept;
    var t, rest := GrowTags(h, high, size), Growth(size) - size;
    AboveHeaders(h, starts, lists, high);
    assert rest % 32 == 0;
    GrowPrepared(h, t, starts, high, lists, size, rest);
    AppendTwoKeeps(h, t, h1, starts, high, lists, size / 8, rest / 8);
    assert size / 8 + rest / 8 == Growth(size) / 8;
    var q := high + size / 8;
    var starts1, lists1 := starts + {high, q}, lists[HeaderIndex(rest) := lists[HeaderIndex(rest)] + [q]];
    assert HeapInv(h1, starts1, lists1, high + Growth(size) / 8);
  }

  /** List 0 never leads to the top of the heap. */
  lemma NoLinkToTop(h: Words, high: int)
    requires |h| > 2
    ensures IsHeap(h, high) ==> h[2] != high
  {
    forall starts, lists | HeapInv(h, starts, lists, high)
      ensures h[2] != high
    {
      assert Linked(h, 0, lists[0]);
      assert NextOf(h, 0) == Ring(lists[0], 0, |lists[0]| - 1);
    }
  }

  /** The harm done: after a request for 536 bytes, a large one and another one for 536 bytes, the first payload
      word of the large chunk holds the address of the third. All three find no fit and grow: list 17, the only one
      they search, is empty throughout. */
  lemma SecondMinRequestOverwrites(h: Words, h1: Words, h2: Words, h3: Words, high: int, size: int, v: int)
    requires GrowsSmall(h, h1, high, MIN_CHUNK_SIZE)
    requires size > MIN_CHUNK_SIZE && size % 32 == 0 && high + 68 + size / 8 < |h|
    requires h2 == h1[high + 68 := size + 3][high + 69 := v]      // a used chunk whose user stored v
    requires GrowsSmall(h2, h3, high + 68 + size / 8, MIN_CHUNK_SIZE)
    requires h[2] == 0 && h[52] == h[53] == 51                   // lists 0 and 17 are empty: nothing of 544 bytes is free
    ensures h1[52] == h1[53] == h2[52] == h2[53] == 51           // and list 17 stays so for the later requests
    ensures |h3| == |h| && h2[high + 69] == v && h3[high + 69] == high + 136 + size / 8
  {
    assert h1[2] == high + 68;
    assert GrowTags(h2, high + 68 + size / 8, MIN_CHUNK_SIZE)[2] == high + 68;
  }
}
