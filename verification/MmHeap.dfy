/** The heap of `mm.c` as an array of 64-bit words: chunk headers, boundary tags and the segregated
    circular lists, with the invariant that ties them to a tiling of the heap.

    Addresses are word indices: index `i` stands for the address `8 * i` bytes past the start of the
    arena. Sizes in headers are in bytes, as in the C code. */
module MmHeap {

  /** Header arithmetic stays below the arena size and flag updates never carry, so words are `int`s. */
  type Words = seq<int>

  const HEADERS: int := 18
  const ALIGNMENT: int := 32
  const MIN_CHUNK_SIZE: int := 544      // (HEADERS - 1) * ALIGNMENT
  const LO: int := 54                   // first word after the list headers, three words each

  // ---------- header words ----------

  predicate IsUsed(w: int) { w % 2 == 1 }

  predicate IsPUsed(w: int) { w % 4 >= 2 }

  /** `w & ~0x1f`. */
  function GetPSize(w: int): int { w - w % 32 }

  /** `w & 0x1f`. */
  function GetFlag(w: int): int { w % 32 }

  function OrPUsed(w: int): int { if IsPUsed(w) then w else w + 2 }

  function ClearUsed(w: int): int { if IsUsed(w) then w - 1 else w }

  function ClearPUsed(w: int): int { if IsPUsed(w) then w - 2 else w }

  /** The length of a chunk in words, from its header or footer word. */
  function Len(w: int): int { GetPSize(w) / 8 }

  /** A header word with no stray flag bits. */
  predicate Clean(w: int) { w % 32 < 4 }

  /** `get_header`: the index of the list for chunks of `size` bytes. */
  function HeaderIndex(size: int): int { if size > MIN_CHUNK_SIZE then HEADERS - 1 else size / 32 }

  function Align(size: int): int { (size + 31) / 32 * 32 }

  lemma Mod2(q: int, r: int)
    ensures (2 * q + r) % 2 == r % 2
  {
  }

  lemma Mod4(q: int, r: int)
    ensures (4 * q + r) % 4 == r % 4
  {
  }

  /** A word is a multiple of 32 and five low bits. */
  lemma LowBits(k: int, r: int)
    requires 0 <= r < 32
    ensures (32 * k + r) % 32 == r && (32 * k + r) % 4 == r % 4 && (32 * k + r) % 2 == r % 2
    ensures GetPSize(32 * k + r) == 32 * k && Len(32 * k + r) == 4 * k
  {
    assert (32 * k + r) % 32 == r;
    assert 32 * k + r == 4 * (8 * k) + r == 2 * (16 * k) + r;
    Mod4(8 * k, r);
    Mod2(16 * k, r);
  }

  /** The words the allocator builds from a size and flags. */
  lemma HeaderWord(size: int)
    requires size % 32 == 0
    ensures GetPSize(size) == size && Clean(size) && !IsUsed(size) && !IsPUsed(size)
    ensures GetPSize(size + 2) == size && Clean(size + 2) && !IsUsed(size + 2) && IsPUsed(size + 2)
    ensures GetPSize(size + 3) == size && Clean(size + 3) && IsUsed(size + 3) && IsPUsed(size + 3)
    ensures Len(size) == Len(size + 2) == Len(size + 3) == size / 8
  {
    var k := size / 32;
    LowBits(k, 0);
    LowBits(k, 2);
    LowBits(k, 3);
  }

  lemma SizeOfWord(w: int)
    ensures GetPSize(w) % 32 == 0 && GetPSize(w) == 8 * Len(w) && Len(w) % 4 == 0
  {
    LowBits(w / 32, w % 32);
    LowBits(w / 32, 0);
  }

  lemma OrPUsedFacts(w: int)
    ensures GetPSize(OrPUsed(w)) == GetPSize(w) && Len(OrPUsed(w)) == Len(w)
    ensures IsPUsed(OrPUsed(w)) && IsUsed(OrPUsed(w)) == IsUsed(w)
    ensures Clean(w) ==> Clean(OrPUsed(w))
  {
    var k, r := w / 32, w % 32;
    LowBits(k, r);
    LowBits(k, if r % 4 < 2 then r + 2 else r);
  }

  lemma ClearPUsedFacts(w: int)
    ensures GetPSize(ClearPUsed(w)) == GetPSize(w) && Len(ClearPUsed(w)) == Len(w)
    ensures !IsPUsed(ClearPUsed(w)) && IsUsed(ClearPUsed(w)) == IsUsed(w)
    ensures Clean(w) ==> Clean(ClearPUsed(w))
  {
    var k, r := w / 32, w % 32;
    LowBits(k, r);
    LowBits(k, if r % 4 >= 2 then r - 2 else r);
  }

  // ---------- chunks ----------

  predicate Free(h: Words, p: int)
    requires 0 <= p < |h|
  {
    !IsUsed(h[p])
  }

  /** The word before `p` is the footer of a free chunk that ends at `p`. */
  predicate PrevFree(h: Words, starts: set<int>, p: int)
    requires forall s :: s in starts ==> 0 <= s < |h|
    requires 0 <= p < |h|
  {
    p >= 1 &&
    var q := p - Len(h[p - 1]);
    q in starts && Free(h, q) && q + Len(h[q]) == p
  }

  /** One chunk: a clean header, at least four words, ending where the next chunk starts; if free, with
      PUSED set and a footer of the same size. A clear PUSED bit means the chunk before it is free; a set
      bit means nothing. */
  predicate Chunk(h: Words, starts: set<int>, high: int, p: int)
    requires forall s :: s in starts ==> 0 <= s < |h|
    requires p in starts && high <= |h|
  {
    var n := Len(h[p]);
    && Clean(h[p]) && n >= 4 && p + n <= high && (p + n == high || p + n in starts)
    && (Free(h, p) ==> IsPUsed(h[p]) && Len(h[p + n - 1]) == n && Clean(h[p + n - 1]))
    && (!IsPUsed(h[p]) ==> PrevFree(h, starts, p))
  }

  /** The chunks tile the words from LO up to `high`. */
  ghost predicate Shape(h: Words, starts: set<int>, high: int) {
    && LO <= high < |h|
    && (forall p :: p in starts ==> LO <= p < high)
    && (high > LO ==> LO in starts)
    && (forall p {:trigger Chunk(h, starts, high, p)} :: p in starts ==> Chunk(h, starts, high, p))
    && (forall p, q :: p in starts && q in starts && p < q ==> p + Len(h[p]) <= q)
  }

  function FreeSet(h: Words, starts: set<int>): set<int>
    requires forall s :: s in starts ==> 0 <= s < |h|
  {
    set p | p in starts && Free(h, p)
  }

  // ---------- circular lists ----------

  function PrevOf(h: Words, x: int): int
    requires 0 <= x && x + 2 < |h|
  {
    h[x + 1]
  }

  function NextOf(h: Words, x: int): int
    requires 0 <= x && x + 2 < |h|
  {
    h[x + 2]
  }

  /** Node addresses a list may hold: past the headers, inside the array, three words apart. */
  predicate Apart(h: Words, free: set<int>) {
    && LO <= |h|
    && (forall x :: x in free ==> LO <= x && x + 2 < |h|)
    && (forall x, y :: x in free && y in free && x < y ==> x + 3 <= y)
  }

  predicate Distinct(l: seq<int>) { forall i, j :: 0 <= i < j < |l| ==> l[i] != l[j] }

  /** The `i`-th entry of the ring: the header stands before the first and after the last entry. */
  function Ring(l: seq<int>, hdr: int, i: int): int {
    if 0 <= i < |l| then l[i] else hdr
  }

  /** The header at `hdr` and the nodes of `l` form one circular doubly linked list; `l` runs from the
      oldest entry (`hdr->prev`) to the newest (`hdr->next`). */
  predicate Linked(h: Words, hdr: int, l: seq<int>)
    requires 0 <= hdr && hdr + 2 < |h|
    requires forall i :: 0 <= i < |l| ==> 0 <= l[i] && l[i] + 2 < |h|
  {
    && PrevOf(h, hdr) == Ring(l, hdr, 0) && NextOf(h, hdr) == Ring(l, hdr, |l| - 1)
    && (forall i {:trigger PrevOf(h, l[i])} :: 0 <= i < |l| ==> PrevOf(h, l[i]) == Ring(l, hdr, i + 1))
    && (forall i {:trigger NextOf(h, l[i])} :: 0 <= i < |l| ==> NextOf(h, l[i]) == Ring(l, hdr, i - 1))
  }

  /** The list a free chunk belongs to. */
  function ListOf(h: Words, x: int): int
    requires 0 <= x < |h|
  {
    HeaderIndex(GetPSize(h[x]))
  }

  /** List `c` holds exactly the free chunks of its sizes, each once. */
  ghost predicate Members(h: Words, free: set<int>, lists: seq<seq<int>>)
    requires Apart(h, free)
  {
    && |lists| == HEADERS
    && (forall c, i :: 0 <= c < HEADERS && 0 <= i < |lists[c]| ==>
          lists[c][i] in free && ListOf(h, lists[c][i]) == c)
    && (forall x :: x in free ==> 0 <= ListOf(h, x) < HEADERS && x in lists[ListOf(h, x)])
    && (forall c :: 0 <= c < HEADERS ==> Distinct(lists[c]))
  }

  /** Each free chunk is in exactly one circular list: the one its size names. */
  ghost predicate Lists(h: Words, free: set<int>, lists: seq<seq<int>>) {
    && Apart(h, free) && Members(h, free, lists)
    && (forall c :: 0 <= c < HEADERS ==> Linked(h, 3 * c, lists[c]))
  }

  // ---------- list surgery ----------

  function Without(l: seq<int>, k: nat): seq<int>
    requires k < |l|
  {
    l[..k] + l[k + 1..]
  }

  lemma WithoutFacts(l: seq<int>, k: nat)
    requires k < |l| && Distinct(l)
    ensures Distinct(Without(l, k))
    ensures forall x :: x in Without(l, k) <==> x in l && x != l[k]
  {
    var m := Without(l, k);
    forall x | x in l && x != l[k]
      ensures x in m
    {
      var i :| 0 <= i < |l| && l[i] == x;
      assert if i < k then m[i] == x else m[i - 1] == x;
    }
  }

  /** The words where list nodes keep their links. */
  predicate LinkWord(free: set<int>, w: int) {
    w < LO || w - 1 in free || w - 2 in free
  }

  /** `h1` is `h` after node `p` has left its ring: its two neighbours link to each other. */
  predicate Unlinks(h: Words, h1: Words, p: int) {
    && 0 <= p && p + 2 < |h|
    && 0 <= h[p + 1] && h[p + 1] + 2 < |h| && 0 <= h[p + 2] && h[p + 2] + 1 < |h|
    && h1 == h[h[p + 1] + 2 := h[p + 2]][h[p + 2] + 1 := h[p + 1]]
  }

  /** The ring without entry `k`, position by position. */
  lemma RingWithout(l: seq<int>, hdr: int, k: nat, i: int)
    requires k < |l|
    ensures Ring(Without(l, k), hdr, i) == Ring(l, hdr, if i < k then i else i + 1)
  {
  }

  lemma DistinctAt(l: seq<int>, i: nat, j: nat)
    requires Distinct(l) && i < |l| && j < |l|
    ensures l[i] == l[j] <==> i == j
  {
  }

  /** Entry `j` of the list, not the removed one, after the two links around entry `k` are rewritten. */
  lemma UnlinkedNode(h: Words, h1: Words, free: set<int>, hdr: int, l: seq<int>, k: nat, j: nat)
    requires Apart(h, free) && 0 <= hdr && hdr + 2 < LO && k < |l| && Distinct(l)
    requires forall i :: 0 <= i < |l| ==> l[i] in free
    requires Linked(h, hdr, l) && j < |l| && j != k
    requires h1 == h[Ring(l, hdr, k + 1) + 2 := Ring(l, hdr, k - 1)][Ring(l, hdr, k - 1) + 1 := Ring(l, hdr, k + 1)]
    ensures PrevOf(h1, l[j]) == Ring(l, hdr, if j + 1 == k then j + 2 else j + 1)
    ensures NextOf(h1, l[j]) == Ring(l, hdr, if j - 1 == k then j - 2 else j - 1)
  {
    assert PrevOf(h, l[j]) == Ring(l, hdr, j + 1) && NextOf(h, l[j]) == Ring(l, hdr, j - 1);
    if k + 1 < |l| { DistinctAt(l, j, k + 1); }
    if k > 0 { DistinctAt(l, j, k - 1); }
    hide Linked, Distinct;
    RelinkedAt(h, h1, free, hdr, l, k, l[j]);
  }

  lemma UnlinkedEntry(h: Words, h1: Words, free: set<int>, hdr: int, l: seq<int>, k: nat, i: nat)
    requires Apart(h, free) && 0 <= hdr && hdr + 2 < LO && k < |l| && Distinct(l)
    requires forall i :: 0 <= i < |l| ==> l[i] in free
    requires Linked(h, hdr, l) && i < |l| - 1
    requires h1 == h[Ring(l, hdr, k + 1) + 2 := Ring(l, hdr, k - 1)][Ring(l, hdr, k - 1) + 1 := Ring(l, hdr, k + 1)]
    ensures var m := Without(l, k);
            PrevOf(h1, m[i]) == Ring(m, hdr, i + 1) && NextOf(h1, m[i]) == Ring(m, hdr, i - 1)
  {
    RingWithout(l, hdr, k, i);
    RingWithout(l, hdr, k, i + 1);
    RingWithout(l, hdr, k, i - 1);
    hide Linked, Distinct;
    UnlinkedNode(h, h1, free, hdr, l, k, if i < k then i else i + 1);
  }

  lemma UnlinkLinked(h: Words, h1: Words, free: set<int>, hdr: int, l: seq<int>, k: nat)
    requires Apart(h, free) && 0 <= hdr && hdr + 2 < LO && k < |l| && Distinct(l)
    requires forall i :: 0 <= i < |l| ==> l[i] in free
    requires Linked(h, hdr, l) && Unlinks(h, h1, l[k])
    ensures forall i :: 0 <= i < |l| - 1 ==> Without(l, k)[i] in free
    ensures Linked(h1, hdr, Without(l, k))
  {
    var m := Without(l, k);
    UnlinksRing(h, h1, free, hdr, l, k);
    hide Unlinks, Distinct;
    RelinkedAt(h, h1, free, hdr, l, k, hdr);
    RingWithout(l, hdr, k, 0);
    RingWithout(l, hdr, k, |m| - 1);
    forall i {:trigger PrevOf(h1, m[i])} | 0 <= i < |m|
      ensures PrevOf(h1, m[i]) == Ring(m, hdr, i + 1)
    {
      UnlinkedEntry(h, h1, free, hdr, l, k, i);
    }
    forall i {:trigger NextOf(h1, m[i])} | 0 <= i < |m|
      ensures NextOf(h1, m[i]) == Ring(m, hdr, i - 1)
    {
      UnlinkedEntry(h, h1, free, hdr, l, k, i);
    }
  }

  lemma UnlinksRing(h: Words, h1: Words, free: set<int>, hdr: int, l: seq<int>, k: nat)
    requires Apart(h, free) && 0 <= hdr && hdr + 2 < LO && k < |l|
    requires forall i :: 0 <= i < |l| ==> l[i] in free
    requires Linked(h, hdr, l) && Unlinks(h, h1, l[k])
    ensures forall i :: 0 <= i < |l| ==> 0 <= l[i] && l[i] + 2 < |h|
    ensures forall i :: 0 <= i < |l| - 1 ==> Without(l, k)[i] in l
    ensures h1 == h[Ring(l, hdr, k + 1) + 2 := Ring(l, hdr, k - 1)][Ring(l, hdr, k - 1) + 1 := Ring(l, hdr, k + 1)]
    ensures |h1| == |h| && LO <= |h|
  {
    assert h[l[k] + 1] == PrevOf(h, l[k]) && h[l[k] + 2] == NextOf(h, l[k]);
  }

  /** The two links rewritten around entry `k`: each node other than it gets its neighbours in the rest. */
  lemma RelinkedAt(h: Words, h1: Words, free: set<int>, hdr: int, l: seq<int>, k: nat, x: int)
    requires Apart(h, free) && 0 <= hdr && hdr + 2 < LO && k < |l|
    requires forall i :: 0 <= i < |l| ==> l[i] in free
    requires x == hdr || x in free
    requires var before, after := Ring(l, hdr, k + 1), Ring(l, hdr, k - 1);
             h1 == h[before + 2 := after][after + 1 := before]
    ensures PrevOf(h1, x) == if x == Ring(l, hdr, k - 1) then Ring(l, hdr, k + 1) else PrevOf(h, x)
    ensures NextOf(h1, x) == if x == Ring(l, hdr, k + 1) then Ring(l, hdr, k - 1) else NextOf(h, x)
  {
  }

  lemma LinkedFrame(h: Words, h1: Words, free: set<int>, hdr: int, l: seq<int>)
    requires Apart(h, free) && 0 <= hdr && hdr + 2 < LO && |h1| == |h|
    requires forall i :: 0 <= i < |l| ==> l[i] in free
    requires Linked(h, hdr, l)
    requires h1[hdr + 1] == h[hdr + 1] && h1[hdr + 2] == h[hdr + 2]
    requires forall i :: 0 <= i < |l| ==> h1[l[i] + 1] == h[l[i] + 1] && h1[l[i] + 2] == h[l[i] + 2]
    ensures Linked(h1, hdr, l)
  {
    assert PrevOf(h1, hdr) == PrevOf(h, hdr) && NextOf(h1, hdr) == NextOf(h, hdr);
    forall i | 0 <= i < |l|
      ensures PrevOf(h1, l[i]) == PrevOf(h, l[i]) && NextOf(h1, l[i]) == NextOf(h, l[i])
    {
    }
  }

  /** Link words of nodes other than the two neighbours of `l[k]` are unchanged. */
  lemma UnlinkTouches(h: Words, h1: Words, free: set<int>, hdr: int, l: seq<int>, k: nat, w: int)
    requires Apart(h, free) && 0 <= hdr && hdr + 2 < LO && k < |l|
    requires forall i :: 0 <= i < |l| ==> l[i] in free
    requires Linked(h, hdr, l) && Unlinks(h, h1, l[k])
    requires 0 <= w < |h| && w != Ring(l, hdr, k + 1) + 2 && w != Ring(l, hdr, k - 1) + 1
    ensures |h1| == |h| && h1[w] == h[w]
  {
    assert h[l[k] + 1] == PrevOf(h, l[k]) == Ring(l, hdr, k + 1);
    assert h[l[k] + 2] == NextOf(h, l[k]) == Ring(l, hdr, k - 1);
  }

  lemma UnlinkFrame(h: Words, h1: Words, free: set<int>, lists: seq<seq<int>>, c: nat, k: nat)
    requires Lists(h, free, lists) && c < HEADERS && k < |lists[c]|
    requires Unlinks(h, h1, lists[c][k])
    ensures |h1| == |h| && forall w :: 0 <= w < |h| && !LinkWord(free, w) ==> h1[w] == h[w]
  {
    hide ListOf, Distinct;
    forall w | 0 <= w < |h| && !LinkWord(free, w)
      ensures h1[w] == h[w]
    {
      UnlinkTouches(h, h1, free, 3 * c, lists[c], k, w);
    }
    UnlinkTouches(h, h1, free, 3 * c, lists[c], k, 3 * c);
  }

  lemma RemoveMember(h: Words, h1: Words, free: set<int>, lists: seq<seq<int>>, c: nat, k: nat)
    requires Apart(h, free) && Members(h, free, lists) && c < HEADERS && k < |lists[c]|
    requires |h1| == |h| && forall x :: x in free ==> h1[x] == h[x]
    ensures var rest := free - {lists[c][k]};
            Apart(h1, rest) && Members(h1, rest, lists[c := Without(lists[c], k)])
  {
    WithoutFacts(lists[c], k);
    forall x | x in free
      ensures ListOf(h1, x) == ListOf(h, x)
    {
    }
    var lists1 := lists[c := Without(lists[c], k)];
    forall d, i | 0 <= d < HEADERS && 0 <= i < |lists1[d]|
      ensures lists1[d][i] in lists[d] && lists1[d][i] != lists[c][k]
    {
      assert lists1[d][i] in lists1[d];
    }
    hide ListOf, Distinct, Without;
  }

  lemma UnlinkOtherList(h: Words, h1: Words, free: set<int>, lists: seq<seq<int>>, c: nat, k: nat, d: nat)
    requires Lists(h, free, lists) && c < HEADERS && k < |lists[c]| && d < HEADERS && d != c
    requires Unlinks(h, h1, lists[c][k])
    ensures |h1| == |h| && Linked(h1, 3 * d, lists[d])
  {
    hide ListOf, Distinct, Unlinks;
    var l, hdr := lists[c], 3 * c;
    UnlinkTouches(h, h1, free, hdr, l, k, 3 * d + 1);
    UnlinkTouches(h, h1, free, hdr, l, k, 3 * d + 2);
    forall j | 0 <= j < |lists[d]|
      ensures h1[lists[d][j] + 1] == h[lists[d][j] + 1] && h1[lists[d][j] + 2] == h[lists[d][j] + 2]
    {
      var x := lists[d][j];
      assert x in free && forall i :: 0 <= i < |l| ==> l[i] != x;
      UnlinkTouches(h, h1, free, hdr, l, k, x + 1);
      UnlinkTouches(h, h1, free, hdr, l, k, x + 2);
    }
    LinkedFrame(h, h1, free, 3 * d, lists[d]);
  }

  /** Unlinking a chunk removes it from its list and touches no word but links. */
  lemma UnlinkLists(h: Words, h1: Words, free: set<int>, lists: seq<seq<int>>, c: nat, k: nat)
    requires Lists(h, free, lists) && c < HEADERS && k < |lists[c]|
    requires Unlinks(h, h1, lists[c][k])
    ensures Lists(h1, free - {lists[c][k]}, lists[c := Without(lists[c], k)])
    ensures |h1| == |h| && forall w :: 0 <= w < |h| && !LinkWord(free, w) ==> h1[w] == h[w]
  {
    UnlinkFrame(h, h1, free, lists, c, k);
    forall x | x in free
      ensures h1[x] == h[x]
    {
      assert !LinkWord(free, x);
    }
    RemoveMember(h, h1, free, lists, c, k);
    UnlinkLinked(h, h1, free, 3 * c, lists[c], k);
    var lists1 := lists[c := Without(lists[c], k)];
    forall d | 0 <= d < HEADERS
      ensures Linked(h1, 3 * d, lists1[d])
    {
      if d != c {
        UnlinkOtherList(h, h1, free, lists, c, k, d);
      }
    }
    hide Linked, ListOf, Distinct, Unlinks, LinkWord, Without;
  }

  /** `h1` is `h` after `q` has been linked in between the header at `hdr` and the entry next to it. */
  predicate Inserts(h: Words, h1: Words, q: int, hdr: int) {
    && 0 <= hdr && hdr + 2 < |h| && 0 <= q && q + 2 < |h| && 0 <= h[hdr + 2] && h[hdr + 2] + 1 < |h|
    && h1 == h[q + 1 := hdr][q + 2 := h[hdr + 2]][h[hdr + 2] + 1 := q][hdr + 2 := q]
  }

  /** The links around the new node. */
  lemma InsertedAt(h: Words, h1: Words, free: set<int>, hdr: int, q: int, x: int)
    requires Apart(h, free + {q}) && q !in free && 0 <= hdr && hdr + 2 < LO
    requires Inserts(h, h1, q, hdr) && (NextOf(h, hdr) == hdr || NextOf(h, hdr) in free)
    requires x == hdr || x in free || x == q
    ensures |h1| == |h|
    ensures PrevOf(h1, x) == if x == q then hdr else if x == NextOf(h, hdr) then q else PrevOf(h, x)
    ensures NextOf(h1, x) == if x == q then NextOf(h, hdr) else if x == hdr then q else NextOf(h, x)
  {
    assert q in free + {q};
    assert x in free ==> x in free + {q};
    assert NextOf(h, hdr) in free ==> NextOf(h, hdr) in free + {q};
  }

  lemma InsertLinked(h: Words, h1: Words, free: set<int>, hdr: int, l: seq<int>, q: int)
    requires Apart(h, free) && Apart(h, free + {q}) && q !in free && 0 <= hdr && hdr + 2 < LO && Distinct(l)
    requires forall i :: 0 <= i < |l| ==> l[i] in free
    requires Linked(h, hdr, l) && Inserts(h, h1, q, hdr)
    ensures |h1| == |h| && q >= 0 && q + 2 < |h|
    ensures Linked(h1, hdr, l + [q])
  {
    var m := l + [q];
    assert NextOf(h, hdr) == Ring(l, hdr, |l| - 1);
    InsertedAt(h, h1, free, hdr, q, hdr);
    InsertedAt(h, h1, free, hdr, q, q);
    forall i {:trigger PrevOf(h1, m[i])} | 0 <= i < |m|
      ensures PrevOf(h1, m[i]) == Ring(m, hdr, i + 1)
    {
      if i < |l| { InsertedEntry(h, h1, free, hdr, l, q, i); }
    }
    forall i {:trigger NextOf(h1, m[i])} | 0 <= i < |m|
      ensures NextOf(h1, m[i]) == Ring(m, hdr, i - 1)
    {
      if i < |l| { InsertedEntry(h, h1, free, hdr, l, q, i); }
    }
    hide Inserts, Distinct;
  }

  lemma InsertedEntry(h: Words, h1: Words, free: set<int>, hdr: int, l: seq<int>, q: int, i: nat)
    requires Apart(h, free) && Apart(h, free + {q}) && q !in free && 0 <= hdr && hdr + 2 < LO && Distinct(l)
    requires forall i :: 0 <= i < |l| ==> l[i] in free
    requires Linked(h, hdr, l) && Inserts(h, h1, q, hdr) && i < |l|
    ensures |h1| == |h|
    ensures PrevOf(h1, l[i]) == Ring(l + [q], hdr, i + 1) && NextOf(h1, l[i]) == Ring(l + [q], hdr, i - 1)
  {
    assert NextOf(h, hdr) == Ring(l, hdr, |l| - 1);
    assert PrevOf(h, l[i]) == Ring(l, hdr, i + 1) && NextOf(h, l[i]) == Ring(l, hdr, i - 1);
    DistinctAt(l, i, |l| - 1);
    hide Linked, Distinct, Inserts;
    InsertedAt(h, h1, free, hdr, q, l[i]);
  }

  lemma InsertTouches(h: Words, h1: Words, q: int, hdr: int, w: int)
    requires Inserts(h, h1, q, hdr) && 0 <= w < |h|
    requires w != q + 1 && w != q + 2 && w != h[hdr + 2] + 1 && w != hdr + 2
    ensures |h1| == |h| && h1[w] == h[w]
  {
  }

  lemma InsertOtherList(h: Words, h1: Words, free: set<int>, lists: seq<seq<int>>, c: nat, q: int, d: nat)
    requires Lists(h, free, lists) && Apart(h, free + {q}) && q !in free
    requires c < HEADERS && d < HEADERS && d != c && Inserts(h, h1, q, 3 * c)
    ensures |h1| == |h| && Linked(h1, 3 * d, lists[d])
  {
    hide ListOf, Distinct, Inserts;
    assert q in free + {q};
    var l, hdr := lists[c], 3 * c;
    assert h[hdr + 2] == NextOf(h, hdr) == Ring(l, hdr, |l| - 1);
    InsertTouches(h, h1, q, hdr, 3 * d + 1);
    InsertTouches(h, h1, q, hdr, 3 * d + 2);
    forall j | 0 <= j < |lists[d]|
      ensures h1[lists[d][j] + 1] == h[lists[d][j] + 1] && h1[lists[d][j] + 2] == h[lists[d][j] + 2]
    {
      var x := lists[d][j];
      assert x in free + {q} && forall i :: 0 <= i < |l| ==> l[i] != x && l[i] in free + {q};
      InsertTouches(h, h1, q, hdr, x + 1);
      InsertTouches(h, h1, q, hdr, x + 2);
    }
    LinkedFrame(h, h1, free, 3 * d, lists[d]);
  }

  lemma InsertFrame(h: Words, h1: Words, free: set<int>, lists: seq<seq<int>>, c: nat, q: int)
    requires Lists(h, free, lists) && c < HEADERS && Inserts(h, h1, q, 3 * c)
    ensures |h1| == |h| && forall w :: 0 <= w < |h| && !LinkWord(free + {q}, w) ==> h1[w] == h[w]
  {
    InsertLength(h, h1, q, 3 * c);
    hide ListOf, Distinct, Inserts;
    var l, hdr := lists[c], 3 * c;
    assert h[hdr + 2] == NextOf(h, hdr) == Ring(l, hdr, |l| - 1);
    forall w | 0 <= w < |h| && !LinkWord(free + {q}, w)
      ensures h1[w] == h[w]
    {
      InsertTouches(h, h1, q, hdr, w);
    }
  }

  lemma InsertLength(h: Words, h1: Words, q: int, hdr: int)
    requires Inserts(h, h1, q, hdr)
    ensures |h1| == |h|
  {
  }

  lemma AddMember(h: Words, h1: Words, free: set<int>, lists: seq<seq<int>>, c: nat, q: int)
    requires Apart(h, free) && Members(h, free, lists) && Apart(h, free + {q}) && q !in free
    requires |h1| == |h| && forall x :: x in free + {q} ==> h1[x] == h[x]
    requires q in free + {q} && ListOf(h, q) == c < HEADERS
    ensures Apart(h1, free + {q}) && Members(h1, free + {q}, lists[c := lists[c] + [q]])
  {
    forall x | x in free + {q}
      ensures ListOf(h1, x) == ListOf(h, x)
    {
    }
    var lists1 := lists[c := lists[c] + [q]];
    forall d, i | 0 <= d < HEADERS && 0 <= i < |lists1[d]|
      ensures (lists1[d][i] == q && d == c) || (i < |lists[d]| && lists1[d][i] == lists[d][i])
    {
    }
    assert Distinct(lists1[c]);
    hide ListOf, Distinct;
  }

  /** Inserting a chunk puts it at the young end of its list and touches no word but links. */
  lemma InsertLists(h: Words, h1: Words, free: set<int>, lists: seq<seq<int>>, q: int)
    requires Lists(h, free, lists) && q !in free && Apart(h, free + {q})
    requires 0 <= q < |h| && 0 <= ListOf(h, q) < HEADERS && Inserts(h, h1, q, 3 * ListOf(h, q))
    ensures Lists(h1, free + {q}, lists[ListOf(h, q) := lists[ListOf(h, q)] + [q]])
    ensures |h1| == |h| && forall w :: 0 <= w < |h| && !LinkWord(free + {q}, w) ==> h1[w] == h[w]
  {
    var c := ListOf(h, q);
    InsertFrame(h, h1, free, lists, c, q);
    forall x | x in free + {q}
      ensures h1[x] == h[x]
    {
      assert !LinkWord(free + {q}, x);
    }
    assert q in free + {q};
    AddMember(h, h1, free, lists, c, q);
    InsertLinked(h, h1, free, 3 * c, lists[c], q);
    var lists1 := lists[c := lists[c] + [q]];
    forall d | 0 <= d < HEADERS
      ensures Linked(h1, 3 * d, lists1[d])
    {
      if d != c {
        InsertOtherList(h, h1, free, lists, c, q, d);
      }
    }
    hide Linked, ListOf, Distinct, Inserts, LinkWord;
  }
}
