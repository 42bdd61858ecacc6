/** `mm.c` over `memlib.c`: the allocator as an object whose methods overwrite header words and links in
    place and move the break. Sizes are in bytes, addresses are word indices. */
module MmAlloc {
  import opened MmHeap
  import opened MmShape
  import opened MmOps
  import Numbers = Words
  import opened Arith

  function Max(a: int, b: int): int { if a < b then b else a }

  // ---------- what a search finds ----------

  /** Some free chunk has at least `size` bytes. */
  ghost predicate Fits(h: Words, starts: set<int>, size: int)
    requires forall s :: s in starts ==> 0 <= s < |h|
  {
    exists x :: x in FreeSet(h, starts) && GetPSize(h[x]) >= size
  }

  /** The first `n` entries of a list are too small. */
  ghost predicate TooSmall(h: Words, l: seq<int>, n: int, size: int)
    requires forall i :: 0 <= i < |l| ==> 0 <= l[i] < |h|
  {
    forall i :: 0 <= i < n && i < |l| ==> GetPSize(h[l[i]]) < size
  }

  ghost predicate InArray(h: Words, lists: seq<seq<int>>) {
    forall c, i :: 0 <= c < |lists| && 0 <= i < |lists[c]| ==> 0 <= lists[c][i] < |h|
  }

  /** Entry `k` of list `c` is the oldest one large enough in the first list that has any. */
  ghost predicate FirstFit(h: Words, lists: seq<seq<int>>, size: int, c: int, k: int)
    requires InArray(h, lists) && |lists| == HEADERS
  {
    && HeaderIndex(size) <= c < HEADERS && 0 <= c && 0 <= k < |lists[c]|
    && GetPSize(h[lists[c][k]]) >= size && TooSmall(h, lists[c], k, size)
    && (forall d :: HeaderIndex(size) <= d < c && 0 <= d ==> TooSmall(h, lists[d], |lists[d]|, size))
  }

  /** The oldest entry large enough, or `hdr` if there is none. */
  function FirstLarge(h: Words, l: seq<int>, hdr: int, size: int): int
    requires forall i :: 0 <= i < |l| ==> 0 <= l[i] < |h|
  {
    if l == [] then hdr else if GetPSize(h[l[0]]) >= size then l[0] else FirstLarge(h, l[1..], hdr, size)
  }

  lemma {:induction false} FirstLargeAt(h: Words, l: seq<int>, hdr: int, size: int, k: nat)
    requires forall i :: 0 <= i < |l| ==> 0 <= l[i] < |h|
    requires k <= |l| && TooSmall(h, l, k, size) && (k < |l| ==> GetPSize(h[l[k]]) >= size)
    ensures FirstLarge(h, l, hdr, size) == Ring(l, hdr, k)
  {
    hide GetPSize;
    if k > 0 {
      FirstLargeAt(h, l[1..], hdr, size, k - 1);
    }
  }

  lemma ListsInArray(h: Words, free: set<int>, lists: seq<seq<int>>)
    requires Lists(h, free, lists)
    ensures InArray(h, lists) && |lists| == HEADERS
  {
  }

  /** The lists the search skips hold every chunk that could do. */
  lemma NothingFits(h: Words, starts: set<int>, lists: seq<seq<int>>, high: int, size: int)
    requires HeapInv(h, starts, lists, high) && InArray(h, lists) && |lists| == HEADERS && size >= 32
    requires forall d :: HeaderIndex(size) <= d < HEADERS && 0 <= d ==> TooSmall(h, lists[d], |lists[d]|, size)
    ensures !Fits(h, starts, size)
  {
    forall x | x in FreeSet(h, starts)
      ensures GetPSize(h[x]) < size
    {
      var d := ListOf(h, x);
      assert TooSmall(h, lists[d], |lists[d]|, size) ==> GetPSize(h[x]) < size by { InList(h, lists, d, x); }
    }
  }

  lemma InList(h: Words, lists: seq<seq<int>>, d: int, x: int)
    requires InArray(h, lists) && 0 <= d < |lists| && x in lists[d]
    ensures forall size :: TooSmall(h, lists[d], |lists[d]|, size) ==> 0 <= x < |h| && GetPSize(h[x]) < size
  {
    var i :| 0 <= i < |lists[d]| && lists[d][i] == x;
    forall size | TooSmall(h, lists[d], |lists[d]|, size)
      ensures GetPSize(h[lists[d][i]]) < size
    {
    }
  }

  /** A first fit from one of the exact classes is a smallest chunk that does. */
  lemma FirstFitIsBest(h: Words, starts: set<int>, lists: seq<seq<int>>, high: int, size: int, c: int, k: int)
    requires HeapInv(h, starts, lists, high) && InArray(h, lists) && |lists| == HEADERS && size >= 32
    requires FirstFit(h, lists, size, c, k) && c < HEADERS - 1
    ensures forall x :: x in FreeSet(h, starts) && GetPSize(h[x]) >= size ==> GetPSize(h[lists[c][k]]) <= GetPSize(h[x])
  {
    var p := lists[c][k];
    FreeListIndex(h, starts, high, p);
    ClassSize(GetPSize(h[p]));
    forall x | x in FreeSet(h, starts) && GetPSize(h[x]) >= size
      ensures GetPSize(h[p]) <= GetPSize(h[x])
    {
      FreeListIndex(h, starts, high, x);
      ClassSize(GetPSize(h[x]));
      var d := ListOf(h, x);
      InList(h, lists, d, x);
    }
  }

  /** Every class but the last holds one size. */
  lemma ClassSize(size: int)
    requires size >= 32 && size % 32 == 0
    ensures HeaderIndex(size) < HEADERS - 1 ==> size == 32 * HeaderIndex(size)
    ensures HeaderIndex(size) == HEADERS - 1 ==> size >= MIN_CHUNK_SIZE
  {
  }

  // ---------- ghost bookkeeping of the lists ----------

  lemma Place(h: Words, free: set<int>, lists: seq<seq<int>>, x: int) returns (c: nat, k: nat)
    requires Lists(h, free, lists) && x in free
    ensures |lists| == HEADERS && c == ListOf(h, x) && c < HEADERS && k < |lists[c]| && lists[c][k] == x
  {
    c := ListOf(h, x);
    k :| 0 <= k < |lists[c]| && lists[c][k] == x;
  }

  /** `y` is a list header or a list node other than `x`. */
  predicate NodeOrHeader(h: Words, free: set<int>, x: int, y: int) {
    && 0 <= y && y + 2 < |h| && y != x && (y + 2 < LO || y in free)
    && (y + 3 <= x || x + 3 <= y)
  }

  /** The neighbours of a list node: headers or other nodes. */
  lemma Neighbours(h: Words, free: set<int>, lists: seq<seq<int>>, x: int)
    requires Lists(h, free, lists) && x in free
    ensures LO <= x && x + 2 < |h|
    ensures NodeOrHeader(h, free, x, h[x + 1]) && NodeOrHeader(h, free, x, h[x + 2])
  {
    var c, k := Place(h, free, lists, x);
    var l := lists[c];
    assert PrevOf(h, l[k]) == Ring(l, 3 * c, k + 1) && NextOf(h, l[k]) == Ring(l, 3 * c, k - 1);
    if k + 1 < |l| { DistinctAt(l, k, k + 1); }
    if k > 0 { DistinctAt(l, k - 1, k); }
  }

  /** `lists1` is `lists` without `x`, every list in the same order. */
  ghost predicate Removed(lists: seq<seq<int>>, lists1: seq<seq<int>>, x: int) {
    exists c: nat, k: nat :: c < |lists| && k < |lists[c]| && lists[c][k] == x && lists1 == lists[c := Without(lists[c], k)]
  }

  /** `lists1` is `lists` with `x` at the young end of list `c`. */
  ghost predicate Added(lists: seq<seq<int>>, lists1: seq<seq<int>>, c: int, x: int) {
    0 <= c < |lists| && lists1 == lists[c := lists[c] + [x]]
  }

  /** No change, one entry removed, or one entry added at the young end of a list. */
  ghost predicate Edit(lists: seq<seq<int>>, lists1: seq<seq<int>>) {
    lists1 == lists || (exists x :: Removed(lists, lists1, x)) || (exists c, x :: Added(lists, lists1, c, x))
  }

  /** The lists stay in order of age: at most three edits. */
  ghost predicate AgeOrder(lists: seq<seq<int>>, lists1: seq<seq<int>>) {
    exists a, b :: Edit(lists, a) && Edit(a, b) && Edit(b, lists1)
  }

  lemma Edits(lists: seq<seq<int>>, a: seq<seq<int>>, b: seq<seq<int>>, lists1: seq<seq<int>>)
    requires Edit(lists, a) && Edit(a, b) && Edit(b, lists1)
    ensures AgeOrder(lists, lists1)
  {
  }

  lemma UnlinkFree(h: Words, h1: Words, free: set<int>, lists: seq<seq<int>>, x: int) returns (lists1: seq<seq<int>>)
    requires Lists(h, free, lists) && x in free && Unlinks(h, h1, x)
    ensures Lists(h1, free - {x}, lists1) && Removed(lists, lists1, x)
    ensures |h1| == |h| && forall w :: 0 <= w < |h| && !LinkWord(free, w) ==> h1[w] == h[w]
  {
    var c, k := Place(h, free, lists, x);
    lists1 := lists[c := Without(lists[c], k)];
    UnlinkLists(h, h1, free, lists, c, k);
    hide Lists, Unlinks, LinkWord;
  }

  // ---------- what one call does to the lists ----------

  /** Unlinking after or before the tags of a split are written makes no difference. */
  lemma SplitCommutes(h: Words, hh: Words, t: Words, starts: set<int>, high: int, lists: seq<seq<int>>, p: int, a: int)
      returns (g: Words)
    requires HeapInv(h, starts, lists, high) && p in FreeSet(h, starts)
    requires a >= 4 && a % 4 == 0 && a + 4 <= Len(h[p]) && 0 <= p + 8 <= End(h, p) < |h|
    requires hh == h[p := 8 * a + 3][p + a := 8 * (Len(h[p]) - a) + 2][End(h, p) - 1 := 8 * (Len(h[p]) - a) + 2]
    requires Unlinks(hh, t, p)
    ensures Unlinks(h, g, p)
    ensures t == g[p := 8 * a + 3][p + a := 8 * (Len(h[p]) - a) + 2][End(h, p) - 1 := 8 * (Len(h[p]) - a) + 2]
  {
    hide Lists, Len, IsUsed, Chunk;
    Neighbours(h, FreeSet(h, starts), lists, p);
    FreeOutside(h, starts, high, p, h[p + 1]);
    FreeOutside(h, starts, high, p, h[p + 2]);
    assert hh[p + 1] == h[p + 1] && hh[p + 2] == h[p + 2];
    g := h[h[p + 1] + 2 := h[p + 2]][h[p + 2] + 1 := h[p + 1]];
    var r := 8 * (Len(h[p]) - a) + 2;
    UpdatesCommute(h, p, 8 * a + 3, p + a, r, End(h, p) - 1, r, h[p + 1] + 2, h[p + 2], h[p + 2] + 1, h[p + 1]);
  }

  lemma UpdatesCommute(h: Words, i: int, u: int, j: int, v: int, k: int, w: int, m: int, x: int, n: int, y: int)
    requires 0 <= i < |h| && 0 <= j < |h| && 0 <= k < |h| && 0 <= m < |h| && 0 <= n < |h|
    requires m != i && m != j && m != k && n != i && n != j && n != k
    ensures h[i := u][j := v][k := w][m := x][n := y] == h[m := x][n := y][i := u][j := v][k := w]
  {
  }

  /** A list header or another free chunk has its links outside chunk `p`. */
  lemma FreeOutside(h: Words, starts: set<int>, high: int, p: int, y: int)
    requires Shape(h, starts, high) && p in starts && NodeOrHeader(h, FreeSet(h, starts), p, y)
    ensures y + 2 < p || y >= End(h, p)
    ensures LO <= p < |h|
  {
    hide Len, IsUsed, Chunk;
    ChunkBounds(h, starts, high, p);
    if y in starts {
      ChunkBounds(h, starts, high, y);
    }
  }

  /** What the code needs to know before it takes free chunk `p` off its list. */
  lemma TakeReady(h: Words, starts: set<int>, lists: seq<seq<int>>, high: int, p: int)
    requires HeapInv(h, starts, lists, high) && p in FreeSet(h, starts)
    ensures Shape(h, starts, high) && Lists(h, FreeSet(h, starts), lists)
    ensures LO <= p && p + 4 <= End(h, p) <= high < |h| && p !in UsedSet(h, starts)
    ensures GetPSize(h[p]) == 8 * Len(h[p]) && GetPSize(h[p]) % 32 == 0 && Len(h[p]) % 4 == 0
    ensures 0 <= h[p + 1] && h[p + 1] + 2 < |h| && 0 <= h[p + 2] && h[p + 2] + 2 < |h|
    ensures h[p + 1] != p && h[p + 1] + 1 != p && h[p + 2] != p
  {
    Neighbours(h, FreeSet(h, starts), lists, p);
    ChunkBounds(h, starts, high, p);
    SizeOfWord(h[p]);
  }

  lemma HeaderNext(h: Words, free: set<int>, lists: seq<seq<int>>, c: int)
    requires Lists(h, free, lists) && 0 <= c < HEADERS
    ensures 0 <= h[3 * c + 2] && h[3 * c + 2] + 2 < |h|
  {
    assert Linked(h, 3 * c, lists[c]);
    assert h[3 * c + 2] == NextOf(h, 3 * c) == Ring(lists[c], 3 * c, |lists[c]| - 1);
  }

  /** A chunk header with PUSED set and USED clear names its list. */
  lemma FreshHeader(h: Words, q: int, size: int)
    requires 0 <= q < |h| && h[q] == size + 2 && size % 32 == 0 && size >= 32
    ensures GetPSize(h[q]) == size && ListOf(h, q) == HeaderIndex(size) && 1 <= HeaderIndex(size) < HEADERS
  {
    HeaderWord(size);
    ListIndex(size);
  }

  /** How far the heap grows for a chunk of `size` bytes when none fits. */
  function Growth(size: int): int {
    if size > MIN_CHUNK_SIZE then size else if size == 32 then 192 else MIN_CHUNK_SIZE
  }

  lemma AboveHeaders(h: Words, starts: set<int>, lists: seq<seq<int>>, high: int)
    requires HeapInv(h, starts, lists, high)
    ensures LO <= high < |h| && high !in starts && forall s :: s in starts ==> 0 <= s < |h|
    ensures Lists(h, FreeSet(h, starts), lists)
  {
  }

  /** After the tags of a split are written and the chunk is unlinked: the remainder is ready to be inserted. */
  lemma SplitPrepared(h: Words, hh: Words, t: Words, starts: set<int>, high: int, lists: seq<seq<int>>, p: int, a: int)
      returns (g: Words, lists1: seq<seq<int>>)
    requires HeapInv(h, starts, lists, high) && p in FreeSet(h, starts)
    requires a >= 4 && a % 4 == 0 && a + 4 <= Len(h[p]) && 0 <= p + 8 <= End(h, p) < |h|
    requires hh == h[p := 8 * a + 3][p + a := 8 * (Len(h[p]) - a) + 2][End(h, p) - 1 := 8 * (Len(h[p]) - a) + 2]
    requires Unlinks(hh, t, p)
    ensures SplitsFrom(h, g, t, starts, p, a) && Lists(g, FreeSet(h, starts) - {p}, lists1) && Removed(lists, lists1, p)
    ensures |t| == |h| && |lists1| == HEADERS
    ensures var rest := 8 * (Len(h[p]) - a);
            && ListOf(t, p + a) == HeaderIndex(rest) && 0 <= HeaderIndex(rest) < HEADERS
            && 0 <= t[3 * HeaderIndex(rest) + 2] && t[3 * HeaderIndex(rest) + 2] + 2 < |t|
  {
    hide Lists, IsUsed, Chunk, Removed, LinkWord, HeaderIndex, ListOf, GetPSize, Unlinks, Len;
    g := SplitCommutes(h, hh, t, starts, high, lists, p, a);
    lists1 := UnlinkFree(h, g, FreeSet(h, starts), lists, p);
    assert SplitsFrom(h, g, t, starts, p, a);
    SplitLists(h, g, t, starts, high, lists1, p, a);
    var rest := 8 * (Len(h[p]) - a);
    SizeOfWord(h[p]);
    Mod4(Len(h[p]) / 4 - a / 4, 0);
    Bytes32(Len(h[p]) - a);
    FreshHeader(t, p + a, rest);
    HeaderNext(t, FreeSet(h, starts) - {p}, lists1, HeaderIndex(rest));
  }

  lemma GrowPrepared(h: Words, t: Words, starts: set<int>, high: int, lists: seq<seq<int>>, size: int, rest: int)
    requires HeapInv(h, starts, lists, high) && size >= 32 && size % 32 == 0 && rest >= 32 && rest % 32 == 0
    requires LO <= high && high + (size + rest) / 8 < |h|
    requires t == h[high := size + 3][high + size / 8 := rest + 2][high + (size + rest) / 8 - 1 := rest + 3]
    ensures AppendsFrom(h, t, high, size / 8, rest / 8) && |t| == |h| && |lists| == HEADERS
    ensures ListOf(t, high + size / 8) == HeaderIndex(rest) && 0 <= HeaderIndex(rest) < HEADERS
    ensures 0 <= t[3 * HeaderIndex(rest) + 2] && t[3 * HeaderIndex(rest) + 2] + 2 < |t|
    ensures 8 * (size / 8) == size
  {
    hide Lists, IsUsed, Chunk, HeaderIndex, ListOf, GetPSize, Len;
    var a, r := size / 8, rest / 8;
    SizeInWords(size);
    SizeInWords(rest);
    assert (size + rest) / 8 == a + r;
    assert AppendsFrom(h, t, high, a, r);
    AppendLists(h, t, starts, high, lists, a, r);
    FreshHeader(t, high + a, rest);
    HeaderNext(t, FreeSet(h, starts), lists, HeaderIndex(rest));
  }

  lemma SplitSizes(n: int, size: int)
    requires size % 32 == 0 && n % 4 == 0 && 32 <= size && size + 32 < 8 * n
    ensures var a := size / 8;
            size == 8 * a && a % 4 == 0 && 4 <= a && a + 8 <= n && (8 * n - size) / 8 == n - a
  {
  }

  /** The chunk of `ptr` lies below `high` and its payload holds `size` bytes. */
  ghost predicate RoomFor(h: Words, high: int, ptr: int, size: int) {
    LO <= ptr - 1 && ptr - 1 < |h| && 8 * (Len(h[ptr - 1]) - 1) >= size && ptr - 1 + Len(h[ptr - 1]) <= high
  }

  /** A free chunk of `len` words starts at `q`. */
  ghost predicate FreeChunk(h: Words, starts: set<int>, q: int, len: int) {
    q in starts && 0 <= q < |h| && !IsUsed(h[q]) && Len(h[q]) == len
  }

  lemma FreeTag(h: Words, starts: set<int>, q: int, len: int)
    requires q in starts && 0 <= q < |h| && h[q] == 8 * len + 2 && len % 4 == 0
    ensures FreeChunk(h, starts, q, len)
  {
    TagSize(h[q], len);
  }

  lemma SplitTag(h: Words, g: Words, t: Words, starts: set<int>, p: int, a: int)
    requires (forall s :: s in starts ==> 0 <= s < |h|) && SplitsFrom(h, g, t, starts, p, a)
    ensures 0 <= p + a < |t| && t[p + a] == 8 * (Len(h[p]) - a) + 2 && (Len(h[p]) - a) % 4 == 0
  {
    hide IsUsed;
  }

  lemma AppendTag(h: Words, t: Words, high: int, a: int, r: int)
    requires AppendsFrom(h, t, high, a, r) && r > 0
    ensures 0 <= high + a < |t| && t[high + a] == 8 * r + 2
  {
  }

  lemma TagSize(w: int, len: int)
    requires w == 8 * len + 2 && len % 4 == 0
    ensures !IsUsed(w) && Len(w) == len
  {
  }

  /** What a fit becomes, in words: the chunk with header `old` is used whole if a rest would have at most 4 words,
      and else cut to `need` bytes, with the rest free behind it. */
  ghost predicate Cut(h: Words, starts: set<int>, p: int, old_: int, need: int) {
    && 0 <= p < |h| && 8 * Len(old_) >= need
    && if 8 * Len(old_) <= need + 32 then Len(h[p]) == Len(old_)
       else 8 * Len(h[p]) == need && FreeChunk(h, starts, p + need / 8, Len(old_) - need / 8)
  }

  /** Growth, in words: by 24 for a request of 32 bytes, by 68 for one of 64 to 512, the rest free behind it; by the
      request itself above 544. */
  ghost predicate Grown(h: Words, starts: set<int>, high: int, high1: int, need: int) {
    && 0 <= high < |h| && 8 * Len(h[high]) == need
    && (need == 32 ==> high1 == high + 24 && FreeChunk(h, starts, high + 4, 20))
    && (64 <= need <= 512 ==> high1 == high + 68 && FreeChunk(h, starts, high + need / 8, 68 - need / 8))
    && (need > 544 ==> 8 * (high1 - high) == need)
  }

  lemma CutTo(h: Words, starts: set<int>, p: int, old_: int, need: int)
    requires 0 <= p < |h| && 8 * Len(old_) >= need
    requires if 8 * Len(old_) <= need + 32 then Len(h[p]) == Len(old_)
             else 8 * Len(h[p]) == need && FreeChunk(h, starts, p + need / 8, Len(old_) - need / 8)
    ensures Cut(h, starts, p, old_, need)
  {
  }

  lemma GrownTo(h: Words, starts: set<int>, high: int, high1: int, need: int)
    requires 0 <= high < |h| && 8 * Len(h[high]) == need && need % 32 == 0
    requires need == 32 ==> high1 == high + 24 && FreeChunk(h, starts, high + 4, 20)
    requires 32 < need < 544 ==> high1 == high + 68 && FreeChunk(h, starts, high + need / 8, 68 - need / 8)
    requires need > 544 ==> high1 == high + need / 8
    ensures Grown(h, starts, high, high1, need)
  {
    hide Len, FreeChunk;
  }

  /** Which sizes a list holds, in numbers: list 0 nothing, list c of 1 to 16 exactly the free chunks of 32 * c bytes,
      list 17 those of 544 bytes and more. */
  lemma ListClasses(h: Words, starts: set<int>, lists: seq<seq<int>>, high: int, p: int, c: int)
    requires HeapInv(h, starts, lists, high) && 0 <= c < 18
    ensures |lists| == 18 && forall s :: s in starts ==> 0 <= s < |h|
    ensures p in lists[c] <==> p in FreeSet(h, starts) && if c == 17 then 8 * Len(h[p]) >= 544 else 8 * Len(h[p]) == 32 * c
    ensures lists[0] == []
  {
    hide Shape, IsUsed, Len, GetPSize, Linked, HeaderIndex;
    ClassMembers(h, starts, lists, high, p, c);
    if lists[0] != [] {
      ClassMembers(h, starts, lists, high, lists[0][0], 0);
    }
  }

  lemma ClassMembers(h: Words, starts: set<int>, lists: seq<seq<int>>, high: int, p: int, c: int)
    requires HeapInv(h, starts, lists, high) && 0 <= c < 18
    ensures |lists| == 18 && forall s :: s in starts ==> 0 <= s < |h|
    ensures p in lists[c] <==> p in FreeSet(h, starts) && if c == 17 then 8 * Len(h[p]) >= 544 else 8 * Len(h[p]) == 32 * c
    ensures p in FreeSet(h, starts) ==> Len(h[p]) >= 4
  {
    AboveHeaders(h, starts, lists, high);
    hide Shape, IsUsed, Linked, FreeSet;
    if p in FreeSet(h, starts) {
      FreeBounds(h, starts, lists, high, p);
      SizeOfWord(h[p]);
    }
  }

  lemma FreeBounds(h: Words, starts: set<int>, lists: seq<seq<int>>, high: int, p: int)
    requires HeapInv(h, starts, lists, high) && (forall s :: s in starts ==> 0 <= s < |h|) && p in FreeSet(h, starts)
    ensures Len(h[p]) >= 4
  {
    ChunkBounds(h, starts, high, p);
  }

  /** `p` is what the search finds: the oldest chunk large enough in the first list that has any. */
  ghost predicate OldestFit(h: Words, lists: seq<seq<int>>, size: int, p: int) {
    && InArray(h, lists) && |lists| == HEADERS
    && exists c, k :: FirstFit(h, lists, size, c, k) && lists[c][k] == p
  }

  lemma AlignFacts(size: nat)
    ensures var need := Align(size + 8);
            need % 32 == 0 && need >= 32 && size + 8 <= need < size + 40
  {
  }

  lemma HeapFacts(h: Words, starts: set<int>, lists: seq<seq<int>>, high: int)
    requires HeapInv(h, starts, lists, high)
    ensures InArray(h, lists) && |lists| == HEADERS && forall s :: s in starts ==> 0 <= s < |h|
    ensures UsedSet(h, starts) !! FreeSet(h, starts)
  {
    ListsInArray(h, FreeSet(h, starts), lists);
  }

  lemma FoundFacts(h: Words, starts: set<int>, lists: seq<seq<int>>, high: int, size: int, c: int, k: int)
    requires HeapInv(h, starts, lists, high) && InArray(h, lists) && |lists| == HEADERS
    requires FirstFit(h, lists, size, c, k)
    ensures 0 <= c < HEADERS && 0 <= k < |lists[c]|
    ensures var p := lists[c][k];
            p in FreeSet(h, starts) && p !in UsedSet(h, starts) && size <= GetPSize(h[p]) == 8 * Len(h[p])
            && OldestFit(h, lists, size, p)
  {
    SizeOfWord(h[lists[c][k]]);
  }

  lemma UsedBounds(h: Words, starts: set<int>, lists: seq<seq<int>>, high: int, p: int)
    requires HeapInv(h, starts, lists, high) && p in UsedSet(h, starts)
    ensures LO <= p < |h| && p + 4 <= End(h, p) <= high
    ensures p in starts
  {
    ChunkBounds(h, starts, high, p);
  }

  // ---------- what freeing chunk p joins ----------

  /** Where the freed chunk begins. */
  function MergeBegin(h: Words, p: int): int
    requires 1 <= p < |h|
  {
    if IsPUsed(h[p]) then p else p - Len(h[p - 1])
  }

  lemma BeforeFacts(h: Words, starts: set<int>, lists: seq<seq<int>>, high: int, p: int)
    requires HeapInv(h, starts, lists, high) && p in UsedSet(h, starts)
    ensures LO <= p < |h| && p in starts && (forall s :: s in starts ==> 0 <= s < |h|) && p !in FreeSet(h, starts)
    ensures Shape(h, starts, high) && Lists(h, FreeSet(h, starts), lists)
    ensures GetPSize(h[p - 1]) / 8 == Len(h[p - 1])
    ensures var b := MergeBegin(h, p);
            && (!IsPUsed(h[p]) ==> b != p && b in FreeSet(h, starts) && End(h, b) == p)
            && 0 <= b < |h| && IsPUsed(h[b])
  {
    assert Chunk(h, starts, high, p);
    if !IsPUsed(h[p]) {
      assert Chunk(h, starts, high, p - Len(h[p - 1]));
      ChunkBounds(h, starts, high, p - Len(h[p - 1]));
    }
  }

  /** Where it ends: a free chunk behind it joins too. */
  function MergeEnd(h: Words, p: int, high: int): int
    requires 0 <= p < |h| && high <= |h|
  {
    var n := End(h, p);
    if 0 <= n < high && Free(h, n) then End(h, n) else n
  }

  /** Freeing `p` in heap `h` leaves `h1`: the top comes down, or one free chunk spans `p` and its free
      neighbours. */
  ghost predicate Freed(h: Words, high: int, h1: Words, starts1: set<int>, high1: int, p: int) {
    && 1 <= p < |h| && high <= |h|
    && if End(h, p) == high then high1 == MergeBegin(h, p)
       else
         && high1 == high && 0 <= MergeBegin(h, p) < |h1| && MergeBegin(h, p) in starts1
         && Free(h1, MergeBegin(h, p)) && End(h1, MergeBegin(h, p)) == MergeEnd(h, p, high)
  }

  /** The same in words: the chunk before joins if the PUSED bit of `p` is clear, the chunk behind if it is free; a
      used chunk behind loses PUSED. */
  ghost predicate Joined(h: Words, starts: set<int>, high: int, h1: Words, starts1: set<int>, high1: int, p: int) {
    && 0 <= p < |h| && |h1| == |h| && (forall s :: s in starts ==> 0 <= s < |h|)
    && exists b, e :: JoinedFrom(h, starts, high, h1, starts1, high1, p, b, e)
  }

  ghost predicate JoinedFrom(h: Words, starts: set<int>, high: int, h1: Words, starts1: set<int>, high1: int, p: int,
                             b: int, e: int)
    requires 0 <= p < |h| && |h1| == |h| && (forall s :: s in starts ==> 0 <= s < |h|)
  {
    var n := End(h, p);
    && (if h[p] % 4 >= 2 then b == p else b in FreeSet(h, starts) && End(h, b) == p)
    && (if n in FreeSet(h, starts) then e == End(h, n) else e == n)
    && if n == high then high1 == b
       else high1 == high && FreeChunk(h1, starts1, b, e - b) && (n in UsedSet(h, starts) ==> h1[n] % 4 < 2)
  }

  lemma FreedTop(h: Words, starts: set<int>, high: int, h1: Words, starts1: set<int>, high1: int, p: int)
    requires 1 <= p < |h| && high <= |h| && End(h, p) == high && high1 == MergeBegin(h, p)
    requires (forall s :: s in starts ==> 0 <= s < high)
    ensures Freed(h, high, h1, starts1, high1, p) && (forall s :: s in starts ==> 0 <= s < |h|)
    ensures End(h, p) !in UsedSet(h, starts)
  {
    hide Len;
  }

  lemma FreedGap(h: Words, starts: set<int>, high: int, h1: Words, starts1: set<int>, high1: int, p: int)
    requires 1 <= p < |h| && high <= |h| && End(h, p) != high && high1 == high
    requires 0 <= MergeBegin(h, p) < |h1| && MergeBegin(h, p) in starts1 && !IsUsed(h1[MergeBegin(h, p)])
    requires End(h1, MergeBegin(h, p)) == MergeEnd(h, p, high)
    ensures Freed(h, high, h1, starts1, high1, p)
  {
  }

  /** `Freed`, read off the heap. */
  lemma FreedIsJoined(h: Words, starts: set<int>, lists: seq<seq<int>>, high: int, h1: Words, starts1: set<int>,
                      high1: int, p: int)
    requires HeapInv(h, starts, lists, high) && p in UsedSet(h, starts) && |h1| == |h|
    requires Freed(h, high, h1, starts1, high1, p)
    requires End(h, p) in UsedSet(h, starts) ==> !IsPUsed(h1[End(h, p)])
    ensures Joined(h, starts, high, h1, starts1, high1, p)
  {
    BeforeFacts(h, starts, lists, high, p);
    RegionFacts(h, starts, lists, high, p);
    hide HeapInv, Len, IsUsed, GetPSize, Shape, Lists;
    var b, e := MergeBegin(h, p), MergeEnd(h, p, high);
    assert JoinedFrom(h, starts, high, h1, starts1, high1, p, b, e);
  }

  lemma StartsInArray(h: Words, starts: set<int>, high: int)
    requires Shape(h, starts, high)
    ensures LO <= high < |h| && forall s :: s in starts ==> LO <= s < high
  {
  }

  /** From `b` up to `e` lie the used chunk `p` and its free neighbours, no longer linked; `clear` says that a
      used chunk follows, which loses PUSED. */
  ghost predicate Gap(h: Words, g: Words, starts: set<int>, high: int, p: int, b: int, e: int, clear: bool) {
    && Shape(h, starts, high) && |g| == |h| && LinksOnly(h, g, starts)
    && p in UsedSet(h, starts) && b in starts && IsPUsed(h[b])
    && LO <= b && b + 4 <= e <= high < |h| && (e - b) % 4 == 0
    && (e == high || e in starts) && (clear ==> e in UsedSet(h, starts))
    && (forall s :: s in starts && b <= s < e ==> End(h, s) <= e)
    && (forall s :: s in UsedSet(h, starts) && b <= s < e ==> s == p)
    && b <= p < e
  }

  lemma GapFacts(h: Words, g: Words, k: Words, starts: set<int>, high: int, p: int, b: int, e: int, clear: bool)
    requires Gap(h, g, starts, high, p, b, e, clear) && |g| == |h|
    requires k == if clear then g[e := ClearPUsed(g[e])] else g
    ensures LO <= b < e <= high < |h| && k[b] == h[b]
    ensures ClearUsed(8 * (e - b) + GetFlag(h[b])) == 8 * (e - b) + 2
    ensures ClearUsed(8 * (e - b) + GetFlag(8 * (e - b) + 2)) == 8 * (e - b) + 2
    ensures forall s :: s in starts ==> 0 <= s < |h|
  {
    hide Clean, IsPUsed, GetFlag, ClearUsed, Len, IsUsed, ClearPUsed;
    SameHeaders(h, g, starts, high);
    assert Chunk(h, starts, high, b);
    Bytes32(e - b);
    MergedFlags(h[b], 8 * (e - b));
  }

  lemma Bytes32(n: int)
    requires n % 4 == 0
    ensures 8 * n % 32 == 0
  {
    assert n == 4 * (n / 4);
    LowBits(n / 4, 0);
  }

  lemma MergedFlags(w: int, size: int)
    requires Clean(w) && IsPUsed(w) && size % 32 == 0
    ensures ClearUsed(size + GetFlag(w)) == size + 2
    ensures ClearUsed(size + GetFlag(size + 2)) == size + 2
  {
    LowBits(w / 32, w % 32);
    LowBits(size / 32, w % 32);
    LowBits(size / 32, 2);
  }

  lemma GapWritten(h: Words, g: Words, t: Words, starts: set<int>, high: int, lists1: seq<seq<int>>, p: int, b: int,
                   e: int, clear: bool)
    requires Gap(h, g, starts, high, p, b, e, clear) && |g| == |h|
    requires Lists(g, FreeSet(h, starts) - Inner(starts, b, e) - {b}, lists1)
    requires t == (if clear then g[e := ClearPUsed(g[e])] else g)[b := 8 * (e - b) + 2][e - 1 := 8 * (e - b) + 2]
    ensures MergesFrom(h, g, t, starts, high, p, b, e, clear) && |t| == |h| && |lists1| == HEADERS
    ensures Shape(h, starts, high)
    ensures var c := HeaderIndex(8 * (e - b));
            && ListOf(t, b) == c && 0 <= c < HEADERS && 0 <= t[3 * c + 2] && t[3 * c + 2] + 2 < |t|
  {
    hide Shape, Lists, IsUsed, IsPUsed, Len, HeaderIndex, ListOf, LinkWord, Inner, ClearPUsed;
    StartsInArray(h, starts, high);
    assert MergesFrom(h, g, t, starts, high, p, b, e, clear);
    MergeLists(h, g, t, starts, high, lists1, p, b, e, clear);
    FreshHeader(t, b, 8 * (e - b));
    HeaderNext(t, FreeSet(h, starts) - Inner(starts, b, e) - {b}, lists1, HeaderIndex(8 * (e - b)));
  }

  /** The chunks that take part in freeing `p`, and their sizes. */
  lemma RegionFacts(h: Words, starts: set<int>, lists: seq<seq<int>>, high: int, p: int)
    requires HeapInv(h, starts, lists, high) && p in UsedSet(h, starts)
    ensures LO <= p && p + 4 <= End(h, p) <= high < |h| && (End(h, p) == high || End(h, p) in starts)
    ensures forall s :: s in starts ==> 0 <= s < |h| && GetPSize(h[s]) == 8 * Len(h[s]) && Len(h[s]) % 4 == 0
    ensures var b := MergeBegin(h, p);
            b in starts && b <= p && (b == p || (b in FreeSet(h, starts) && End(h, b) == p))
    ensures End(h, p) < high ==> (End(h, p) in FreeSet(h, starts) <==> Free(h, End(h, p)))
  {
    ChunkBounds(h, starts, high, p);
    BeforeFacts(h, starts, lists, high, p);
    hide IsUsed, GetPSize, Len, Lists, Chunk, IsPUsed;
    forall s | s in starts
      ensures GetPSize(h[s]) == 8 * Len(h[s]) && Len(h[s]) % 4 == 0
    {
      SizeOfWord(h[s]);
    }
    EndsBelow(h, starts, high);
  }

  lemma SameHeaders(h: Words, g: Words, starts: set<int>, high: int)
    requires Shape(h, starts, high) && LinksOnly(h, g, starts)
    ensures |g| == |h| && forall s :: s in starts ==> 0 <= s < |h| && g[s] == h[s]
  {
    LinksAreNotTags(h, g, starts, high, FreeSet(h, starts));
  }

  lemma MakeGap(h: Words, g: Words, starts: set<int>, lists: seq<seq<int>>, high: int, p: int, clear: bool)
    requires HeapInv(h, starts, lists, high) && p in UsedSet(h, starts) && LinksOnly(h, g, starts)
    requires LO <= p && p <= End(h, p) < high < |h| && clear == IsUsed(h[End(h, p)])
    ensures var b, e, n := MergeBegin(h, p), MergeEnd(h, p, high), End(h, p);
            && Gap(h, g, starts, high, p, b, e, clear) && (e == n <==> clear)
            && FreeSet(h, starts) - Inner(starts, b, e) - {b}
               == if clear then FreeSet(h, starts) - {b} else FreeSet(h, starts) - {b} - {n}
  {
    hide GetPSize, Lists, LinkWord, Len, Chunk, IsUsed, IsPUsed, Clean, Inner;
    var b, e, n := MergeBegin(h, p), MergeEnd(h, p, high), End(h, p);
    RegionFacts(h, starts, lists, high, p);
    BeforeFacts(h, starts, lists, high, p);
    InnerIsInside(starts, b, e);
    EndsBelow(h, starts, high);
    forall s | s in starts && b <= s < e
      ensures s == b || s == p || (s == n && e != n)
      ensures End(h, s) <= e
    {
    }
    assert (e - b) % 4 == 0 by { GapLength(h, starts, high, p, b, e); }
    assert e == high || e in starts by {
      if !clear { ChunkBounds(h, starts, high, n); }
    }
  }

  lemma GapLength(h: Words, starts: set<int>, high: int, p: int, b: int, e: int)
    requires Shape(h, starts, high) && p in starts && b in starts && (b == p || End(h, b) == p)
    requires e == End(h, p) || (End(h, p) in starts && e == End(h, End(h, p)))
    ensures (e - b) % 4 == 0
  {
    hide Chunk, Len, GetPSize;
    SizeOfWord(h[b]);
    SizeOfWord(h[p]);
    Sum4(p - b, e - p);
    if e != End(h, p) {
      SizeOfWord(h[End(h, p)]);
      Sum4(End(h, p) - p, e - End(h, p));
    }
  }

  lemma Sum4(x: int, y: int)
    ensures x % 4 == 0 && y % 4 == 0 ==> (x + y) % 4 == 0
  {
    if x % 4 == 0 && y % 4 == 0 {
      Mod4(x / 4 + y / 4, 0);
    }
  }

  /** Sizes in words. */
  lemma SizeInWords(size: int)
    requires size % 32 == 0
    ensures size == 8 * (size / 8) && size / 8 % 4 == 0
  {
    var k := size / 32;
    Mod4(k, 0);
    assert size / 8 == 4 * k;
  }

  /** `d` with its `k` low bytes replaced by those of `s`. */
  function MergeBytes(d: int, s: int, k: nat): int
    requires k < 8
  {
    var m := Numbers.Pow256(k);
    d - d % m + s % m
  }

  /** The payload at `result` starts with the whole payload that was at `ptr`. */
  ghost predicate PayloadMoved(h: Words, h1: Words, ptr: int, result: int) {
    && 0 <= ptr - 1 < |h| && 0 <= result - 1 < |h1| && Len(h1[result - 1]) >= Len(h[ptr - 1])
    && forall w :: result <= w < result + Len(h[ptr - 1]) - 1 && w < |h1| && w - result + ptr < |h| ==>
         h1[w] == h[w - result + ptr]
  }

  lemma SameKept(h: Words, starts: set<int>, except: set<int>)
    requires forall s :: s in starts ==> 0 <= s < |h|
    ensures OthersKept(h, starts, h, starts, except)
  {
  }

  /** `h1` is `h` after `size` bytes were copied from `src` to `dst`: whole words, then the low bytes of one more. A
      source word that the copy itself overwrites is not promised. */
  ghost predicate Copied(h: Words, h1: Words, dst: int, src: int, size: nat) {
    && |h1| == |h| && 0 <= src && src + (size + 7) / 8 <= |h| && 0 <= dst
    && (forall w :: 0 <= w < |h| && !(dst <= w < dst + (size + 7) / 8) ==> h1[w] == h[w])
    && (forall w :: dst <= w < dst + size / 8 && w < |h| && !(dst <= w - dst + src < dst + (size + 7) / 8) ==>
          h1[w] == h[w - dst + src])
    && (size % 8 != 0 && dst + size / 8 < |h| && !(dst <= src + size / 8 < dst + (size + 7) / 8) ==>
          h1[dst + size / 8] == MergeBytes(h[dst + size / 8], h[src + size / 8], size % 8))
  }

  /** The merged word has the low bytes of one word and the high bytes of the other. */
  lemma MergedWord(d: int, s: int, k: nat)
    requires k < 8
    ensures var m := Numbers.Pow256(k);
            MergeBytes(d, s, k) % m == s % m && MergeBytes(d, s, k) / m == d / m
  {
    var m := Numbers.Pow256(k);
    DivMod(d, m);
    DivMod(s, m);
    DivMod(MergeBytes(d, s, k), m);
    UniqueQuotient(m, MergeBytes(d, s, k) / m, MergeBytes(d, s, k) % m, d / m, s % m);
  }

  lemma CopyKeeps(h: Words, h1: Words, starts: set<int>, high: int, lists: seq<seq<int>>, q: int, src: int, size: nat)
    requires HeapInv(h, starts, lists, high) && q in UsedSet(h, starts) && Copied(h, h1, q + 1, src, size)
    requires 8 * (Len(h[q]) - 1) >= size
    ensures HeapInv(h1, starts, lists, high) && UsedSet(h1, starts) == UsedSet(h, starts) && h1[q] == h[q]
    ensures OthersKept(h, starts, h1, starts, {q})
  {
    hide HeapInv, UsedSet, Len;
    UsedBounds(h, starts, lists, high, q);
    PayloadWriteKeeps(h, h1, starts, high, lists, q);
  }

  /** A chunk too small for the request is shorter than the copy; `size` is what is copied. */
  lemma MoveSize(h: Words, starts: set<int>, lists: seq<seq<int>>, high: int, p: int, size: nat)
    requires HeapInv(h, starts, lists, high) && p in UsedSet(h, starts) && Align(size + 8) > 8 * Len(h[p])
    ensures LO <= p && p + 4 <= End(h, p) <= high < |h|
    ensures Len(h[p]) - 1 <= size / 8 && size <= Align(size + 8) - 8 && 0 < Growth(Align(size + 8))
    ensures forall s :: s in starts ==> 0 <= s < |h|
  {
    UsedBounds(h, starts, lists, high, p);
    SizeOfWord(h[p]);
    AlignFacts(size);
    var k := Len(h[p]) / 4;
    assert size + 8 > 32 * k;
  }

  lemma KeptUsed(h: Words, starts: set<int>, h1: Words, starts1: set<int>, except: set<int>, q: int)
    requires forall s :: s in starts ==> 0 <= s < |h|
    requires forall s :: s in starts1 ==> 0 <= s < |h1|
    requires OthersKept(h, starts, h1, starts1, except) && q in UsedSet(h, starts) && q !in except
    ensures |h1| == |h| && q in UsedSet(h1, starts1) && Len(h1[q]) == Len(h[q])
    ensures forall w :: q < w < End(h, q) && w < |h| ==> h1[w] == h[w]
  {
  }

  lemma Disjoint(h: Words, starts: set<int>, lists: seq<seq<int>>, high: int, p: int, q: int)
    requires HeapInv(h, starts, lists, high) && p in UsedSet(h, starts) && q in UsedSet(h, starts) && p != q
    ensures LO <= p < End(h, p) <= high < |h| && LO <= q < End(h, q) <= high
    ensures End(h, p) <= q || End(h, q) <= p
  {
    UsedBounds(h, starts, lists, high, p);
    UsedBounds(h, starts, lists, high, q);
  }

  lemma MoveKept(h: Words, s0: set<int>, h1: Words, h2: Words, s1: set<int>, h3: Words, s3: set<int>, p: int, q: int)
    requires |h1| == |h2| == |h3|
    requires forall s :: s in s0 ==> 0 <= s < |h|
    requires forall s :: s in s1 ==> 0 <= s < |h1|
    requires forall s :: s in s3 ==> 0 <= s < |h3|
    requires OthersKept(h, s0, h1, s1, {}) && OthersKept(h1, s1, h2, s1, {q}) && OthersKept(h2, s1, h3, s3, {p})
    requires q !in UsedSet(h, s0)
    ensures OthersKept(h, s0, h3, s3, {p})
  {
    hide Len, IsUsed;
    forall x | x in UsedSet(h, s0) && x != p
      ensures x in UsedSet(h3, s3) && Untouched(h, h3, x)
    {
      KeptUsed(h, s0, h1, s1, {}, x);
      KeptUsed(h1, s1, h2, s1, {q}, x);
      KeptUsed(h2, s1, h3, s3, {p}, x);
    }
  }

  lemma MovePayload(h: Words, s0: set<int>, h1: Words, h2: Words, s1: set<int>, h3: Words, s3: set<int>, p: int, q: int,
                    size: nat)
    requires |h1| == |h2| == |h3|
    requires forall s :: s in s0 ==> 0 <= s < |h|
    requires forall s :: s in s1 ==> 0 <= s < |h1|
    requires forall s :: s in s3 ==> 0 <= s < |h3|
    requires OthersKept(h, s0, h1, s1, {}) && OthersKept(h2, s1, h3, s3, {p})
    requires p in UsedSet(h, s0) && q in UsedSet(h2, s1) && q in UsedSet(h1, s1) && p != q && h2[q] == h1[q]
    requires 8 * (Len(h1[q]) - 1) >= size && Len(h[p]) - 1 <= size / 8 && End(h1, q) <= |h1|
    requires End(h1, p) <= q || End(h1, q) <= p
    requires Copied(h1, h2, q + 1, p + 1, size)
    ensures PayloadMoved(h, h3, p + 1, q + 1) && Len(h3[q]) == Len(h1[q])
  {
    hide Len, IsUsed;
    KeptUsed(h, s0, h1, s1, {}, p);
    KeptUsed(h2, s1, h3, s3, {p}, q);
    forall w | q + 1 <= w < q + Len(h[p]) && w < |h3| && w - q + p < |h|
      ensures h3[w] == h[w - q + p]
    {
      assert p < w - q + p < End(h, p);
      assert h2[w] == h1[w - q + p];
    }
  }

  /** Walking a list by its `prev` links. */
  lemma ListFacts(h: Words, starts: set<int>, lists: seq<seq<int>>, high: int, c: int)
    requires HeapInv(h, starts, lists, high) && 0 <= c < HEADERS && |lists| == HEADERS
    ensures LO < |h| && forall s :: s in starts ==> 0 <= s < |h|
    ensures forall i :: 0 <= i < |lists[c]| ==>
              LO <= lists[c][i] && lists[c][i] + 2 < |h| && lists[c][i] in FreeSet(h, starts)
  {
    hide Linked, Chunk, IsUsed;
  }

  lemma ListEntry(h: Words, starts: set<int>, lists: seq<seq<int>>, high: int, c: int, i: int)
    requires HeapInv(h, starts, lists, high) && 0 <= c < HEADERS && |lists| == HEADERS && -1 <= i < |lists[c]|
    ensures var x := Ring(lists[c], 3 * c, i);
            0 <= x < |h| - 2 && h[x + 1] == Ring(lists[c], 3 * c, i + 1)
  {
    hide Chunk, IsUsed;
    var l := lists[c];
    assert Linked(h, 3 * c, l);
    if i == -1 {
      assert h[3 * c + 1] == PrevOf(h, 3 * c) == Ring(l, 3 * c, 0);
    } else {
      assert PrevOf(h, l[i]) == Ring(l, 3 * c, i + 1);
    }
  }

  /** The three tags written for a small request when nothing fits. */
  function GrowTags(h: Words, high: int, size: int): Words
    requires 32 <= size <= MIN_CHUNK_SIZE && size % 32 == 0 && LO <= high && high + MIN_CHUNK_SIZE / 8 < |h|
  {
    var rest := Growth(size) - size;
    h[high := size + 3][high + size / 8 := rest + 2][high + Growth(size) / 8 - 1 := rest + 3]
  }

  /** Everything a small request writes when nothing fits. */
  ghost predicate GrowsSmall(h: Words, h1: Words, high: int, size: int) {
    && 32 <= size <= MIN_CHUNK_SIZE && size % 32 == 0 && LO <= high && high + MIN_CHUNK_SIZE / 8 + 2 < |h|
    && var rest := Growth(size) - size;
    Inserts(GrowTags(h, high, size), h1, high + size / 8, 3 * HeaderIndex(rest))
  }

  // ---------- what the checker reads ----------

  /** Walking a list by its `next` links, newest chunk first. */
  lemma ListBackwards(h: Words, starts: set<int>, lists: seq<seq<int>>, high: int, c: int, k: int)
    requires HeapInv(h, starts, lists, high) && 0 <= c < HEADERS && |lists| == HEADERS && 0 <= k <= |lists[c]|
    ensures var x := Ring(lists[c], 3 * c, k);
            0 <= x < |h| - 2 && h[x + 2] == Ring(lists[c], 3 * c, k - 1) && (x == 3 * c <==> k == |lists[c]|)
  {
    hide Chunk, IsUsed;
    var l := lists[c];
    assert Linked(h, 3 * c, l);
    if k == |l| {
      assert h[3 * c + 2] == NextOf(h, 3 * c) == Ring(l, 3 * c, |l| - 1);
    } else {
      assert NextOf(h, l[k]) == Ring(l, 3 * c, k - 1);
    }
  }

  lemma WalkStart(h: Words, starts: set<int>, lists: seq<seq<int>>, high: int)
    requires HeapInv(h, starts, lists, high)
    ensures (LO in starts || LO == high) && forall s :: s in starts ==> s < high
  {
  }

  /** The tags of one chunk as the checker compares them. */
  lemma ChunkFacts(h: Words, starts: set<int>, lists: seq<seq<int>>, high: int, p: int)
    requires HeapInv(h, starts, lists, high) && p in starts
    ensures LO <= p < |h| && GetPSize(h[p]) == 8 * Len(h[p]) && p + 4 <= End(h, p) <= high < |h|
    ensures End(h, p) in starts || End(h, p) == high
    ensures !IsUsed(h[p]) ==> h[p] - h[p] % 4 == h[End(h, p) - 1] - h[End(h, p) - 1] % 4
  {
    ChunkBounds(h, starts, high, p);
    assert Chunk(h, starts, high, p);
    SizeOfWord(h[p]);
    hide Shape, Lists;
    if !IsUsed(h[p]) {
      SizeAndFlags(h[p]);
      SizeAndFlags(h[End(h, p) - 1]);
      SizeOfWord(h[End(h, p) - 1]);
    }
  }

  lemma SizeAndFlags(w: int)
    requires Clean(w)
    ensures w - w % 4 == GetPSize(w)
  {
    LowBits(w / 32, w % 32);
  }

  // ---------- the object ----------

  class Allocator {
    const heap: array<int>          // the arena of memlib.c, and some words past its end
    const maxWords: int             // MAX_HEAP
    var brk: int                    // mem_brk
    var high: int                   // MEM_HEAP_HIGH + 1
    ghost var starts: set<int>
    ghost var lists: seq<seq<int>>

    /** The arena is below 2^31 bytes, and the array has room for the words that are touched past it. */
    predicate Arena() { LO <= maxWords < 0x1000_0000 && 2 * maxWords + 4 <= heap.Length }

    ghost predicate Valid()
      reads this, heap
    {
      && Arena() && high <= brk <= maxWords
      && HeapInv(heap[..], starts, lists, high)
    }

    ghost function Used(): set<int>
      reads this, heap
      requires Valid()
    {
      UsedSet(heap[..], starts)
    }

    /** `mem_init`. */
    constructor (words: int)
      requires LO <= words < 0x1000_0000
      ensures fresh(heap) && Arena() && brk == 0 && maxWords == words
    {
      heap := new int[2 * words + 4];
      maxWords := words;
      brk, high := 0, 0;
      starts, lists := {}, [];
    }

    /** `mem_reset_brk`. */
    method MemResetBrk()
      modifies this`brk
      ensures brk == 0
    {
      brk := 0;
    }

    /** `mem_sbrk`: the break moves up or not at all. */
    method MemSbrk(incr: int) returns (p: int)
      modifies this`brk
      ensures if incr < 0 || old(brk) + incr > maxWords then p == -1 && brk == old(brk)
              else p == old(brk) && brk == old(brk) + incr
    {
      if incr < 0 || brk + incr > maxWords {
        return -1;
      }
      p := brk;
      brk := brk + incr;
    }

    /** `mm_sbrk`: the top of the heap moves; the break follows it upwards only. */
    method MmSbrk(n: int) returns (p: int)
      requires high <= brk <= maxWords && high + n <= maxWords
      modifies this`brk, this`high
      ensures high == old(high) + n && p == old(high) && brk == Max(old(brk), high)
    {
      high := high + n;
      if high > brk {
        var _ := MemSbrk(high - brk);
      }
      p := high - n;
    }

    /** `mm_init`. */
    method MmInit()
      requires Arena() && brk == 0
      modifies this, heap
      ensures Valid() && high == brk == LO == 54 && Used() == {} && starts == {}
    {
      var base := MemSbrk(LO);
      var i := 0;
      while i < LO
        invariant 0 <= i <= LO
        invariant forall w :: 0 <= w < i ==> heap[w] == 0
        modifies heap
      {
        heap[i] := 0;
        i := i + 1;
      }
      i := 0;
      while i < HEADERS
        invariant 0 <= i <= HEADERS
        invariant forall c :: 0 <= c < i ==> heap[3 * c + 1] == 3 * c && heap[3 * c + 2] == 3 * c
        modifies heap
      {
        heap[base + 3 * i + 1] := 3 * i;
        heap[base + 3 * i + 2] := 3 * i;
        i := i + 1;
      }
      high := brk;
      starts, lists := {}, seq(HEADERS, _ => []);
      assert FreeSet(heap[..], starts) == {};
      forall c | 0 <= c < HEADERS
        ensures Linked(heap[..], 3 * c, lists[c])
      {
        assert PrevOf(heap[..], 3 * c) == heap[3 * c + 1];
        assert NextOf(heap[..], 3 * c) == heap[3 * c + 2];
      }
    }

    /** Take a chunk out of its list. */
    method UnlinkChunk(x: int)
      requires 0 <= x && x + 2 < heap.Length
      requires 0 <= heap[x + 1] && heap[x + 1] + 2 < heap.Length && 0 <= heap[x + 2] && heap[x + 2] + 1 < heap.Length
      requires heap[x + 1] != x && heap[x + 1] + 1 != x
      modifies heap
      ensures Unlinks(old(heap[..]), heap[..], x)
    {
      heap[heap[x + 1] + 2] := heap[x + 2];
      heap[heap[x + 2] + 1] := heap[x + 1];
    }

    /** Put a chunk at the young end of a list. */
    method InsertChunk(q: int, hdr: int)
      requires 0 <= hdr && hdr + 2 < LO <= q && q + 2 < heap.Length
      requires 0 <= heap[hdr + 2] && heap[hdr + 2] + 1 < heap.Length
      modifies heap
      ensures Inserts(old(heap[..]), heap[..], q, hdr)
    {
      heap[q + 1] := hdr;
      heap[q + 2] := heap[hdr + 2];
      heap[heap[hdr + 2] + 1] := q;
      heap[hdr + 2] := q;
    }

    /** The tags of a used chunk and of the free chunk behind it. */
    method SetTags(p: int, used: int, q: int, header: int, last: int, footer: int)
      requires 0 <= p < heap.Length && 0 <= q < heap.Length && 0 <= last < heap.Length
      modifies heap
      ensures heap[..] == old(heap[..])[p := used][q := header][last := footer]
    {
      heap[p] := used;
      heap[q] := header;
      heap[last] := footer;
    }

    /** The inner loop of the search: the oldest chunk of list `c` that is large enough. */
    method SearchList(c: int, size: int) returns (p: int, ghost k: int)
      requires Valid() && 0 <= c < HEADERS && InArray(heap[..], lists) && |lists| == HEADERS
      ensures p == FirstLarge(heap[..], lists[c], 3 * c, size)
      ensures 0 <= k <= |lists[c]| && p == Ring(lists[c], 3 * c, k) && TooSmall(heap[..], lists[c], k, size)
      ensures p == 3 * c <==> k == |lists[c]|
      ensures k < |lists[c]| ==> p in FreeSet(heap[..], starts) && GetPSize(heap[p]) >= size
    {
      hide HeapInv, Shape, Lists, GetPSize, FreeSet, IsUsed, Linked, PrevOf;
      ghost var h, l := heap[..], lists[c];
      ListFacts(h, starts, lists, high, c);
      ListEntry(h, starts, lists, high, c, -1);
      p := heap[3 * c + 1];
      k := 0;
      while p != 3 * c && GetPSize(heap[p]) < size
        invariant 0 <= k <= |l| && p == Ring(l, 3 * c, k)
        invariant TooSmall(h, l, k, size)
        decreases |l| - k
      {
        ListEntry(h, starts, lists, high, c, k);
        p := heap[p + 1];
        k := k + 1;
      }
      FirstLargeAt(h, l, 3 * c, size, k);
    }

    /** The search of `mm_malloc`: list by list, oldest chunk first. */
    method Search(size: int) returns (p: int, c: int, ghost k: int)
      requires Valid() && size >= 32 && InArray(heap[..], lists) && |lists| == HEADERS
      ensures c == HEADERS <==> !Fits(heap[..], starts, size)
      ensures c != HEADERS ==> FirstFit(heap[..], lists, size, c, k) && p == lists[c][k]
    {
      hide Shape, Lists, GetPSize, TooSmall, FreeSet, IsUsed, Linked, Members, Apart;
      c := HeaderIndex(size);
      while true
        invariant 1 <= HeaderIndex(size) <= c < HEADERS
        invariant forall d :: HeaderIndex(size) <= d < c ==> TooSmall(heap[..], lists[d], |lists[d]|, size)
        decreases HEADERS - c
      {
        p, k := SearchList(c, size);
        if p != 3 * c {
          break;
        }
        c := c + 1;
        if c == HEADERS {
          NothingFits(heap[..], starts, lists, high, size);
          break;
        }
      }
    }

    /** The chunk found is handed out whole. */
    method TakeExact(p: int)
      requires Valid() && p in FreeSet(heap[..], starts)
      modifies heap, this`lists
      ensures Valid() && Used() == old(Used()) + {p} && Len(heap[p]) == old(Len(heap[p]))
      ensures OthersKept(old(heap[..]), starts, heap[..], starts, {})
      ensures Removed(old(lists), lists, p)
    {
      hide HeapInv, Shape, Lists, Len, GetPSize, IsUsed, OrPUsed, Unlinks, OthersKept, LinkWord, Removed;
      ghost var h := heap[..];
      TakeReady(h, starts, lists, high, p);
      var size := GetPSize(heap[p]);
      UnlinkChunk(p);
      ghost var g := heap[..];
      ghost var lists1 := UnlinkFree(h, g, FreeSet(h, starts), lists, p);
      heap[p] := size + 3;
      heap[p + size / 8] := OrPUsed(heap[p + size / 8]);
      assert heap[..] == g[p := GetPSize(h[p]) + 3][End(h, p) := OrPUsed(g[End(h, p)])];
      TakeExactKeeps(h, g, heap[..], starts, high, lists1, p);
      lists := lists1;
    }

    /** The first `size` bytes of the chunk found are handed out, the rest becomes a free chunk. */
    method TakeSplit(p: int, size: int)
      requires Valid() && p in FreeSet(heap[..], starts)
      requires size >= 32 && size % 32 == 0 && size + 32 < GetPSize(heap[p])
      modifies heap, this`lists, this`starts
      ensures Valid() && Used() == old(Used()) + {p} && 8 * Len(heap[p]) == size
      ensures OthersKept(old(heap[..]), old(starts), heap[..], starts, {})
      ensures exists mid :: Removed(old(lists), mid, p)
                && Added(mid, lists, HeaderIndex(old(GetPSize(heap[p])) - size), p + size / 8)
      ensures FreeChunk(heap[..], starts, p + size / 8, old(Len(heap[p])) - size / 8)
    {
      hide HeapInv, Shape, Lists, Len, GetPSize, IsUsed;
      hide Unlinks, Inserts, OthersKept, Removed, HeaderIndex, ListOf, SplitsFrom, FreeChunk;
      ghost var h := heap[..];
      TakeReady(h, starts, lists, high, p);
      var rest := GetPSize(heap[p]) - size;
      var q := p + size / 8;
      ghost var n, a := Len(h[p]), size / 8;
      SplitSizes(n, size);
      assert rest == 8 * (n - a) && q + rest / 8 == End(h, p) <= high;
      SetTags(p, size + 3, q, rest + 2, q + rest / 8 - 1, rest + 2);
      ghost var hh := heap[..];
      assert hh[p + 1] == h[p + 1] && hh[p + 2] == h[p + 2];
      UnlinkChunk(p);
      ghost var t := heap[..];
      ghost var g, lists1 := SplitPrepared(h, hh, t, starts, high, lists, p, a);
      PutRest(q, rest, h, g, p, a, lists1);
    }

    /** The rest of a split chunk goes to the young end of its list. */
    method PutRest(q: int, rest: int, ghost h: Words, ghost g: Words, ghost p: int, ghost a: int,
                   ghost lists1: seq<seq<int>>)
      requires Arena() && high <= brk <= maxWords && |h| == heap.Length && Shape(h, starts, high)
      requires 0 <= p < heap.Length
      requires (forall s :: s in starts ==> 0 <= s < |h|) && SplitsFrom(h, g, heap[..], starts, p, a)
      requires Lists(g, FreeSet(h, starts) - {p}, lists1) && |lists1| == HEADERS
      requires q == p + a && LO <= q && q + 2 < heap.Length && ListOf(heap[..], q) == HeaderIndex(rest)
      requires 0 <= HeaderIndex(rest) < HEADERS
      requires 0 <= heap[3 * HeaderIndex(rest) + 2] && heap[3 * HeaderIndex(rest) + 2] + 2 < heap.Length
      modifies heap, this`lists, this`starts
      ensures Valid() && Used() == UsedSet(h, old(starts)) + {p} && Len(heap[p]) == a
      ensures OthersKept(h, old(starts), heap[..], starts, {}) && Added(lists1, lists, HeaderIndex(rest), q)
      ensures FreeChunk(heap[..], starts, q, Len(h[p]) - a)
    {
      hide HeapInv, Shape, Lists, Len, GetPSize, IsUsed, Inserts, OthersKept, HeaderIndex, ListOf, SplitsFrom, FreeChunk;
      ghost var t := heap[..];
      SplitTag(h, g, t, starts, p, a);
      InsertChunk(q, 3 * HeaderIndex(rest));
      SplitKeeps(h, g, t, heap[..], starts, high, lists1, p, a);
      starts := starts + {q};
      FreeTag(heap[..], starts, q, Len(h[p]) - a);
      lists := lists1[HeaderIndex(rest) := lists1[HeaderIndex(rest)] + [q]];
    }

    /** Nothing fits a large request: the heap grows by one used chunk. */
    method GrowLarge(size: int) returns (p: int)
      requires Valid() && size > MIN_CHUNK_SIZE && size % 32 == 0 && high + size / 8 <= maxWords
      modifies this, heap
      ensures Valid() && p == old(high) && high == old(high) + size / 8 && brk == Max(old(brk), high)
      ensures Used() == old(Used()) + {p} && 8 * Len(heap[p]) == size && p !in old(Used())
      ensures OthersKept(old(heap[..]), old(starts), heap[..], starts, {}) && lists == old(lists)
    {
      hide HeapInv, Len, GetPSize, IsUsed, OthersKept;
      ghost var h := heap[..];
      AboveHeaders(h, starts, lists, high);
      SizeInWords(size);
      p := MmSbrk(size / 8);
      heap[p] := size + 3;
      assert AppendsFrom(h, heap[..], p, size / 8, 0);
      AppendOneKeeps(h, heap[..], starts, p, lists, size / 8);
      starts := starts + {p};
    }

    /** Nothing fits a small request: the heap grows by a used chunk and a free one behind it. */
    method GrowSmall(size: int) returns (p: int)
      requires Valid() && 32 <= size < MIN_CHUNK_SIZE && size % 32 == 0 && high + Growth(size) / 8 <= maxWords
      modifies this, heap
      ensures Valid() && p == old(high) && high == old(high) + Growth(size) / 8 && brk == Max(old(brk), high)
      ensures Used() == old(Used()) + {p} && 8 * Len(heap[p]) == size && p !in old(Used())
      ensures OthersKept(old(heap[..]), old(starts), heap[..], starts, {})
      ensures Added(old(lists), lists, HeaderIndex(Growth(size) - size), p + size / 8)
      ensures GrowsSmall(old(heap[..]), heap[..], p, size)
      ensures size == 32 ==> high == p + 24 && FreeChunk(heap[..], starts, p + 4, 20)
      ensures size != 32 ==> high == p + 68 && FreeChunk(heap[..], starts, p + size / 8, 68 - size / 8)
    {
      hide HeapInv, Len, GetPSize, IsUsed, OthersKept, Inserts, ListOf, HeaderIndex, Lists, AppendsFrom, FreeChunk;
      ghost var h := heap[..];
      AboveHeaders(h, starts, lists, high);
      var chunk := MIN_CHUNK_SIZE;
      if size == 32 {
        chunk := 6 * 32;
      }
      p := MmSbrk(chunk / 8);
      var q, rest := p + size / 8, chunk - size;
      SetTags(p, size + 3, q, rest + 2, p + chunk / 8 - 1, rest + 3);
      ghost var t := heap[..];
      GrowPrepared(h, t, starts, p, lists, size, rest);
      PutTop(p, q, rest, h, size / 8);
    }

    /** The free chunk at the new top goes to the young end of its list. */
    method PutTop(p: int, q: int, rest: int, ghost h: Words, ghost a: int)
      requires Arena() && high <= brk <= maxWords && |h| == heap.Length && HeapInv(h, starts, lists, p)
      requires |lists| == HEADERS
      requires (forall s :: s in starts ==> 0 <= s < |h|) && rest >= 32 && rest % 32 == 0 && high == p + a + rest / 8
      requires AppendsFrom(h, heap[..], p, a, rest / 8) && 0 <= p < heap.Length
      requires q == p + a && LO <= q && q + 2 < heap.Length && ListOf(heap[..], q) == HeaderIndex(rest)
      requires 0 <= HeaderIndex(rest) < HEADERS
      requires 0 <= heap[3 * HeaderIndex(rest) + 2] && heap[3 * HeaderIndex(rest) + 2] + 2 < heap.Length
      modifies heap, this`lists, this`starts
      ensures Valid() && Used() == UsedSet(h, old(starts)) + {p} && Len(heap[p]) == a
      ensures OthersKept(h, old(starts), heap[..], starts, {}) && Added(old(lists), lists, HeaderIndex(rest), q)
      ensures FreeChunk(heap[..], starts, q, rest / 8)
      ensures Inserts(old(heap[..]), heap[..], q, 3 * HeaderIndex(rest))
    {
      hide HeapInv, Len, GetPSize, IsUsed, OthersKept, Inserts, ListOf, HeaderIndex, Lists, AppendsFrom, FreeChunk;
      ghost var t := heap[..];
      AppendTag(h, t, p, a, rest / 8);
      InsertChunk(q, 3 * HeaderIndex(rest));
      AppendTwoKeeps(h, t, heap[..], starts, p, lists, a, rest / 8);
      starts := starts + {p, q};
      FreeTag(heap[..], starts, q, rest / 8);
      lists := lists[HeaderIndex(rest) := lists[HeaderIndex(rest)] + [q]];
    }

    /** The arena has room for the request. A request that rounds to the smallest large size must fit. */
    ghost predicate MayAllocate(size: nat)
      reads this, heap
      requires Valid()
    {
      var need := Align(size + 8);
      Fits(heap[..], starts, need) || (need != MIN_CHUNK_SIZE && high + Growth(need) / 8 <= maxWords)
    }

    lemma Admitted(size: nat)
      requires Valid() && MayAllocate(size)
      ensures Fits(heap[..], starts, Align(size + 8)) ||
              (Align(size + 8) != MIN_CHUNK_SIZE && high + Growth(Align(size + 8)) / 8 <= maxWords)
      ensures Align(size + 8) > MIN_CHUNK_SIZE ==> Growth(Align(size + 8)) == Align(size + 8)
    {
    }

    method Malloc(size: nat) returns (ptr: int)
      requires Valid() && MayAllocate(size)
      modifies this, heap
      ensures Valid() && brk == Max(old(brk), high)
      ensures ptr - 1 !in old(Used()) && Used() == old(Used()) + {ptr - 1} && RoomFor(heap[..], high, ptr, size)
      ensures 8 * Len(heap[ptr - 1]) <= Align(size + 8) + 32
      ensures OthersKept(old(heap[..]), old(starts), heap[..], starts, {})
      ensures old(Fits(heap[..], starts, Align(size + 8))) ==>
                high == old(high) && OldestFit(old(heap[..]), old(lists), Align(size + 8), ptr - 1)
      ensures !old(Fits(heap[..], starts, Align(size + 8))) ==>
                ptr - 1 == old(high) && high == old(high) + Growth(Align(size + 8)) / 8
      ensures old(Fits(heap[..], starts, Align(size + 8))) ==>
                Cut(heap[..], starts, ptr - 1, old(heap[ptr - 1]), Align(size + 8))
      ensures !old(Fits(heap[..], starts, Align(size + 8))) ==>
                Grown(heap[..], starts, old(high), high, Align(size + 8))
      ensures Align(size + 8) % 32 == 0 && size + 8 <= Align(size + 8) < size + 40
      ensures AgeOrder(old(lists), lists)
    {
      hide HeapInv, Shape, Lists, IsUsed, OthersKept, Removed;
      hide TooSmall, GetPSize, Len, HeaderIndex, FreeSet, FirstFit, UsedSet, FreeChunk, Cut, Grown;
      hide OldestFit, AgeOrder, MayAllocate, Growth, Align;
      var need := Align(size + 8);
      Admitted(size);
      HeapFacts(heap[..], starts, lists, high);
      AlignFacts(size);
      AboveHeaders(heap[..], starts, lists, high);
      ghost var h, s0, l0, mid := heap[..], starts, lists, lists;
      var p, c, k := Search(need);
      if c == HEADERS {
        if need <= MIN_CHUNK_SIZE {
          p := GrowSmall(need);
        } else {
          p := GrowLarge(need);
        }
        GrownTo(heap[..], starts, p, high, need);
      } else {
        FoundFacts(h, starts, lists, high, need, c, k);
        var size0 := GetPSize(heap[p]);
        if size0 <= need + 32 {
          TakeExact(p);
        } else {
          TakeSplit(p, need);
          SizeOfWord(h[p]);
          mid :| Removed(l0, mid, p) && Added(mid, lists, HeaderIndex(size0 - need), p + need / 8);
        }
        SizeOfWord(h[p]);
        CutTo(heap[..], starts, p, h[p], need);
      }
      Edits(l0, mid, lists, lists);
      UsedBounds(heap[..], starts, lists, high, p);
      ptr := p + 1;
    }

    /** `mm_free`, first part: the chunk before joins if the PUSED bit is clear. */
    method UnlinkBefore(p: int) returns (b: int, ghost lists1: seq<seq<int>>)
      requires Valid() && p in Used()
      modifies heap
      ensures b == MergeBegin(old(heap[..]), p) && b in starts && LinksOnly(old(heap[..]), heap[..], starts)
      ensures Lists(heap[..], FreeSet(old(heap[..]), starts) - {b}, lists1)
      ensures if b == p then lists1 == lists else Removed(lists, lists1, b)
    {
      hide HeapInv, Shape, Lists, IsUsed, IsPUsed, GetPSize, Len, Unlinks, LinkWord, Removed;
      ghost var h := heap[..];
      BeforeFacts(h, starts, lists, high, p);
      ghost var free := FreeSet(h, starts);
      b, lists1 := p, lists;
      if !IsPUsed(heap[p]) {
        b := p - GetPSize(heap[p - 1]) / 8;
        TakeReady(h, starts, lists, high, b);
        UnlinkChunk(b);
        lists1 := UnlinkFree(h, heap[..], free, lists, b);
      } else {
        assert free - {p} == free;
      }
    }

    /** `mm_free`, second part: a free chunk behind leaves its list. */
    method UnlinkAfter(n: int, ghost h: Words, ghost b: int,
                       ghost lists0: seq<seq<int>>) returns (ghost lists1: seq<seq<int>>)
      requires Shape(h, starts, high) && LinksOnly(h, heap[..], starts) && |h| == heap.Length
      requires Lists(heap[..], FreeSet(h, starts) - {b}, lists0) && n in FreeSet(h, starts) && n != b
      modifies heap
      ensures LinksOnly(h, heap[..], starts) && Removed(lists0, lists1, n)
      ensures Lists(heap[..], FreeSet(h, starts) - {b} - {n}, lists1)
    {
      hide Shape, Lists, IsUsed, Unlinks, Removed;
      ghost var g := heap[..];
      StartsInArray(h, starts, high);
      Neighbours(g, FreeSet(h, starts) - {b}, lists0, n);
      UnlinkChunk(n);
      lists1 := UnlinkFree(g, heap[..], FreeSet(h, starts) - {b}, lists0, n);
    }

    /** The top of the heap comes down to `b`. */
    method FreeTop(p: int, b: int, freed: int, ghost h: Words, ghost lists1: seq<seq<int>>)
      requires Shape(h, starts, high) && high <= brk <= maxWords && Arena() && |h| == heap.Length
      requires LinksOnly(h, heap[..], starts) && p in UsedSet(h, starts) && End(h, p) == high
      requires b in starts && (b == p || (b in FreeSet(h, starts) && End(h, b) == p)) && freed == 8 * (high - b)
      requires Lists(heap[..], FreeSet(h, starts) - {b}, lists1)
      modifies this
      ensures Valid() && brk == old(brk) && high == b && Used() == UsedSet(h, old(starts)) - {p}
      ensures OthersKept(h, old(starts), heap[..], starts, {p}) && lists == lists1
    {
      hide HeapInv, Shape, Lists, IsUsed, Len, LinksOnly, OthersKept, FreeSet, UsedSet;
      StartsInArray(h, starts, high);
      ShrinkKeeps(h, heap[..], starts, high, lists1, p, b);
      var _ := MmSbrk(-(freed / 8));
      starts := set s | s in starts && s < b;
      lists := lists1;
    }

    /** The words from `b` to `last` become one free chunk at the young end of its list. */
    method CloseGap(p: int, b: int, last: int, freed: int, ghost h: Words, ghost g: Words, ghost clear: bool,
                    ghost lists1: seq<seq<int>>)
      requires high <= brk <= maxWords && Arena() && |h| == |g| == heap.Length
      requires Gap(h, g, starts, high, p, b, last + 1, clear) && freed == 8 * (last + 1 - b)
      requires Lists(g, FreeSet(h, starts) - Inner(starts, b, last + 1) - {b}, lists1)
      requires heap[..] == if clear then g[last + 1 := ClearPUsed(g[last + 1])] else g
      modifies heap, this`starts, this`lists
      ensures Valid() && Used() == UsedSet(h, old(starts)) - {p}
      ensures OthersKept(h, old(starts), heap[..], starts, {p})
      ensures LO <= b < heap.Length && b in starts && !IsUsed(heap[b]) && End(heap[..], b) == last + 1
      ensures Added(lists1, lists, HeaderIndex(freed), b)
      ensures last + 1 in old(starts) && last + 1 < heap.Length ==> heap[last + 1] == old(heap[last + 1])
    {
      hide HeapInv, Shape, Lists, IsUsed, Len, OthersKept, FreeSet;
      hide UsedSet, Inserts, Gap, ClearUsed, GetFlag, HeaderIndex, ListOf, MergesFrom;
      ghost var e := last + 1;
      GapFacts(h, g, heap[..], starts, high, p, b, e, clear);
      heap[b] := ClearUsed(freed + GetFlag(heap[b]));
      heap[last] := ClearUsed(freed + GetFlag(heap[b]));
      ghost var t := heap[..];
      GapWritten(h, g, t, starts, high, lists1, p, b, e, clear);
      InsertChunk(b, 3 * HeaderIndex(freed));
      MergeKeeps(h, g, t, heap[..], starts, high, lists1, p, b, e, clear);
      starts := starts - Inner(starts, b, e);
      lists := lists1[HeaderIndex(freed) := lists1[HeaderIndex(freed)] + [b]];
    }

    /** `mm_free`: the chunk and its free neighbours become one free chunk, or leave the heap at its top. */
    method Free(ptr: int)
      requires Valid() && ptr - 1 in Used()
      modifies this, heap
      ensures Valid() && brk == old(brk) && Used() == old(Used()) - {ptr - 1}
      ensures OthersKept(old(heap[..]), old(starts), heap[..], starts, {ptr - 1})
      ensures Freed(old(heap[..]), old(high), heap[..], starts, high, ptr - 1) && high <= old(high)
      ensures Joined(old(heap[..]), old(starts), old(high), heap[..], starts, high, ptr - 1)
      ensures AgeOrder(old(lists), lists)
    {
      hide HeapInv, Shape, Lists, IsUsed, IsPUsed, GetPSize, Len;
      hide Unlinks, LinksOnly, Removed, OthersKept, FreeSet, UsedSet, Inserts, Freed, Joined;
      ghost var h := heap[..];
      var p := ptr - 1;
      BeforeFacts(h, starts, lists, high, p);
      RegionFacts(h, starts, lists, high, p);
      var size := GetPSize(heap[p]);
      var b, last, freed := p, p + size / 8 - 1, size;
      ghost var s0, high0, l0, lists1 := starts, high, lists, lists;
      b, lists1 := UnlinkBefore(p);
      ghost var mid := lists1;
      SameHeaders(h, heap[..], starts, high);
      if b != p {
        freed := freed + GetPSize(heap[b]);
      }
      var n := p + size / 8;
      if n >= high {
        FreeTop(p, b, freed, h, lists1);
        FreedTop(h, s0, high0, heap[..], starts, high, p);
        FreedIsJoined(h, s0, l0, high0, heap[..], starts, high, p);
        Edits(l0, mid, mid, mid);
        return;
      }
      ghost var clear := IsUsed(heap[n]);
      ghost var g := heap[..];
      if !IsUsed(heap[n]) {
        lists1 := UnlinkAfter(n, h, b, lists1);
        g := heap[..];
        SameHeaders(h, heap[..], starts, high);
        last := n + GetPSize(heap[n]) / 8 - 1;
        freed := freed + GetPSize(heap[n]);
      } else {
        ClearPUsedFacts(heap[n]);
        heap[n] := ClearPUsed(heap[n]);
      }
      MakeGap(h, g, starts, lists, high, p, clear);
      assert last + 1 == MergeEnd(h, p, high) && freed == 8 * (last + 1 - b);
      CloseGap(p, b, last, freed, h, g, clear, lists1);
      FreedGap(h, s0, high0, heap[..], starts, high, p);
      FreedIsJoined(h, s0, l0, high0, heap[..], starts, high, p);
      Edits(l0, mid, lists1, lists);
    }

    /** `memcpy` of `size` bytes, word by word and then the bytes of the last word. Source words that the copy
        itself overwrites are not promised. */
    method MemCopy(dst: int, src: int, size: nat)
      requires 0 <= dst && dst + (size + 7) / 8 <= heap.Length && 0 <= src && src + (size + 7) / 8 <= heap.Length
      modifies heap
      ensures Copied(old(heap[..]), heap[..], dst, src, size)
    {
      ghost var h, m := heap[..], (size + 7) / 8;
      var n := size / 8;
      var i := 0;
      while i < n
        invariant 0 <= i <= n
        invariant forall w :: 0 <= w < heap.Length && !(dst <= w < dst + i) ==> heap[w] == h[w]
        invariant forall w :: dst <= w < dst + i && !(dst <= w - dst + src < dst + m) ==> heap[w] == h[w - dst + src]
        modifies heap
      {
        heap[dst + i] := heap[src + i];
        i := i + 1;
      }
      if size % 8 != 0 {
        heap[dst + n] := MergeBytes(heap[dst + n], heap[src + n], size % 8);
      }
    }

    ghost predicate MayReallocate(p: int, size: nat)
      reads this, heap
      requires Valid() && p in Used()
    {
      var need := Align(size + 8);
      if need <= 8 * Len(heap[p]) then true
      else if End(heap[..], p) == high then p + need / 8 <= maxWords
      else MayAllocate(size)
    }

    /** The last chunk grows where it is. */
    method GrowInPlace(p: int, need: int)
      requires Valid() && p in Used() && End(heap[..], p) == high && need % 32 == 0
      requires need > 8 * Len(heap[p]) && p + need / 8 <= maxWords
      modifies this, heap
      ensures Valid() && brk == Max(old(brk), high) && Used() == old(Used()) && high == p + need / 8
      ensures End(heap[..], p) == high && (forall w :: 0 <= w < heap.Length && w != p ==> heap[w] == old(heap[w]))
      ensures OthersKept(old(heap[..]), old(starts), heap[..], starts, {p})
    {
      hide HeapInv, Shape, Lists, IsUsed, GetPSize, Len, OthersKept, FreeSet, UsedSet, GetFlag;
      ghost var h, n := heap[..], need / 8;
      UsedBounds(h, starts, lists, high, p);
      SizeOfWord(h[p]);
      assert need == 8 * n && n % 4 == 0;
      var _ := MmSbrk((need - GetPSize(heap[p])) / 8);
      heap[p] := need + GetFlag(heap[p]);
      GrowLastKeeps(h, heap[..], starts, old(high), lists, p, n);
    }

    /** The contents move to a chunk from `Malloc`; the old chunk is freed. */
    method Move(ptr: int, size: nat) returns (result: int)
      requires Valid() && ptr - 1 in Used() && MayAllocate(size) && Align(size + 8) > 8 * Len(heap[ptr - 1])
      requires End(heap[..], ptr - 1) != high
      modifies this, heap
      ensures Valid() && brk == Max(old(brk), high) && result - 1 !in old(Used())
      ensures Used() == old(Used()) - {ptr - 1} + {result - 1} && RoomFor(heap[..], high, result, size)
      ensures PayloadMoved(old(heap[..]), heap[..], ptr, result)
      ensures OthersKept(old(heap[..]), old(starts), heap[..], starts, {ptr - 1})
      ensures high == old(high) + if old(Fits(heap[..], starts, Align(size + 8))) then 0 else Growth(Align(size + 8)) / 8
    {
      hide Copied, PayloadMoved, MergeBegin, MergeEnd, HeapInv, Shape;
      hide Lists, IsUsed, GetPSize, Len, OthersKept, FreeSet, UsedSet;
      var p := ptr - 1;
      ghost var h, s0 := heap[..], starts;
      UsedBounds(h, starts, lists, high, p);
      assert h[p] == heap[p];
      MoveSize(h, starts, lists, high, p, size);
      result := Malloc(size);
      ghost var h1, s1, q := heap[..], starts, result - 1;
      HeapFacts(h1, s1, lists, high);
      KeptUsed(h, s0, h1, s1, {}, p);
      Disjoint(h1, s1, lists, high, p, q);
      var copied := Align(size + 8) - 8;
      if size < copied {
        copied := size;
      }
      MemCopy(result, ptr, copied);
      ghost var h2 := heap[..];
      CopyKeeps(h1, h2, s1, high, lists, q, ptr, size);
      Free(ptr);
      HeapFacts(heap[..], starts, lists, high);
      MoveKept(h, s0, h1, h2, s1, heap[..], starts, p, q);
      MovePayload(h, s0, h1, h2, s1, heap[..], starts, p, q, size);
    }

    /** `mm_realloc`: the chunk fits, or grows at the top of the heap, or moves. */
    method Realloc(ptr: int, size: nat) returns (result: int)
      requires Valid() && ptr - 1 in Used() && MayReallocate(ptr - 1, size)
      modifies this, heap
      ensures Valid() && brk == Max(old(brk), high)
      ensures (result == ptr || result - 1 !in old(Used())) && Used() == old(Used()) - {ptr - 1} + {result - 1}
      ensures RoomFor(heap[..], high, result, size)
      ensures PayloadMoved(old(heap[..]), heap[..], ptr, result)
      ensures OthersKept(old(heap[..]), old(starts), heap[..], starts, {ptr - 1})
      ensures Align(size + 8) <= old(8 * Len(heap[ptr - 1])) ==>
                heap[..] == old(heap[..]) && result == ptr && high == old(high)
      ensures Align(size + 8) > old(8 * Len(heap[ptr - 1])) && old(End(heap[..], ptr - 1) == high) ==>
                result == ptr && 8 * high == 8 * (ptr - 1) + Align(size + 8)
      ensures Align(size + 8) > old(8 * Len(heap[ptr - 1])) && old(End(heap[..], ptr - 1) != high) ==>
                && result != ptr
                && high == old(high) + if old(Fits(heap[..], starts, Align(size + 8))) then 0 else Growth(Align(size + 8)) / 8
    {
      hide HeapInv, Shape, Lists, IsUsed, GetPSize, Len, OthersKept, FreeSet, UsedSet, GetFlag;
      var p := ptr - 1;
      ghost var h, s0 := heap[..], starts;
      UsedBounds(h, starts, lists, high, p);
      SizeOfWord(h[p]);
      AlignFacts(size);
      var need := Align(size + 8);
      var size0 := GetPSize(heap[p]);
      if size0 >= need {
        HeapFacts(h, starts, lists, high);
        SameKept(h, starts, {p});
        return ptr;
      }
      if p + size0 / 8 == high {
        GrowInPlace(p, need);
        return ptr;
      }
      result := Move(ptr, size);
    }

    /** `mm_check`; `ok` is false where the C code aborts. */
    method MmCheck() returns (ok: bool)
      requires Valid()
      ensures ok
    {
      hide HeapInv, Shape, Lists, IsUsed, GetPSize, Len, FreeSet, Clean;
      HeapFacts(heap[..], starts, lists, high);
      AboveHeaders(heap[..], starts, lists, high);
      var c := 0;
      while c < HEADERS
        invariant 0 <= c <= HEADERS
      {
        ListBackwards(heap[..], starts, lists, high, c, |lists[c]|);
        var p := heap[3 * c + 2];
        ghost var k := |lists[c]|;
        while p != 3 * c
          invariant 0 <= k <= |lists[c]| && p == Ring(lists[c], 3 * c, k - 1)
          decreases k
        {
          ListBackwards(heap[..], starts, lists, high, c, k - 1);
          p := heap[p + 2];
          k := k - 1;
        }
        c := c + 1;
      }
      WalkStart(heap[..], starts, lists, high);
      var p := LO;
      while p < high
        invariant p in starts || p == high
        decreases high - p
      {
        ChunkFacts(heap[..], starts, lists, high, p);
        var w := heap[p];
        if !IsUsed(w) {
          var f := heap[p + GetPSize(w) / 8 - 1];
          if w - w % 4 != f - f % 4 {
            return false;
          }
        }
        p := p + GetPSize(w) / 8;
      }
      ok := p == high;
    }
  }
}
