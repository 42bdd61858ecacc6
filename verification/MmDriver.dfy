/** The correctness test of `mdriver.c` on the allocator of `mm.c`: for which traces it passes. */
module MmDriver {
  import opened MmHeap
  import opened MmShape
  import opened MmOps
  import opened MmAlloc

  // ---------- traces ----------

  datatype Op = Alloc(index: int, size: nat) | Realloc(index: int, size: nat) | Release(index: int)

  /** The blocks in use after `n` operations. */
  function LiveAfter(trace: seq<Op>, n: nat): set<int>
    requires n <= |trace|
  {
    if n == 0 then {} else LiveNext(trace[n - 1], LiveAfter(trace, n - 1))
  }

  function LiveNext(op: Op, live: set<int>): set<int> {
    match op
    case Alloc(i, _) => live + {i}
    case Realloc(_, _) => live
    case Release(i) => live - {i}
  }

  /** Blocks are allocated before they are resized or released, and not twice; no request is empty. */
  predicate WellFormed(trace: seq<Op>) {
    forall n :: 0 <= n < |trace| ==> OpFits(trace[n], LiveAfter(trace, n))
  }

  predicate OpFits(op: Op, live: set<int>) {
    match op
    case Alloc(i, size) => i !in live && size > 0
    case Realloc(i, size) => i in live && size > 0
    case Release(i) => i in live
  }

  /** The words by which an operation may raise the top of the heap. */
  function Cost(op: Op): nat {
    match op
    case Alloc(_, size) => Room(size)
    case Realloc(_, size) => Room(size)
    case Release(_) => 0
  }

  function Room(size: nat): (r: nat)
    ensures 8 * r >= Align(size + 8)
  {
    GrowthCovers(size);
    Growth(Align(size + 8)) / 8
  }

  lemma GrowthCovers(size: nat)
    ensures 0 <= Align(size + 8) <= 8 * (Growth(Align(size + 8)) / 8)
  {
    AlignFacts(size);
    SizeInWords(Align(size + 8));
    hide Align;
  }

  function Spent(trace: seq<Op>, n: nat): nat
    requires n <= |trace|
  {
    if n == 0 then 0 else Spent(trace, n - 1) + Cost(trace[n - 1])
  }

  /** The arena is large enough whatever the allocator does, and no request rounds to the size that breaks it. */
  predicate InCapacity(trace: seq<Op>, maxWords: int) {
    && LO + Spent(trace, |trace|) <= maxWords
    && (forall n :: 0 <= n < |trace| && !trace[n].Release? ==> Align(trace[n].size + 8) != MIN_CHUNK_SIZE)
  }

  lemma {:induction false} SpentGrows(trace: seq<Op>, n: nat, m: nat)
    requires n <= m <= |trace|
    ensures Spent(trace, n) <= Spent(trace, m)
  {
    if n < m {
      SpentGrows(trace, n, m - 1);
    }
  }

  // ---------- what the driver remembers ----------

  datatype Block = Block(ptr: int, size: nat)

  /** First and last byte of a payload. */
  datatype Range = Range(lo: int, hi: int)

  function RangeOf(b: Block): Range { Range(8 * b.ptr, 8 * b.ptr + b.size - 1) }

  /** Byte `k` of a word, least significant first. */
  function ByteOf(w: int, k: nat): (b: int)
    ensures 0 <= b < 256
    decreases k
  {
    if k == 0 then w % 256 else ByteOf(w / 256, k - 1)
  }

  /** The word with byte `k` replaced. */
  function PutByte(w: int, k: nat, v: int): int
    decreases k
  {
    if k == 0 then w - w % 256 + v else w % 256 + 256 * PutByte(w / 256, k - 1, v)
  }

  lemma {:induction false} PutByteAt(w: int, k: nat, v: int, j: nat)
    requires 0 <= v < 256
    ensures ByteOf(PutByte(w, k, v), j) == if j == k then v else ByteOf(w, j)
    decreases k
  {
    if k > 0 && j > 0 {
      PutByteAt(w / 256, k - 1, v, j - 1);
      assert PutByte(w, k, v) / 256 == PutByte(w / 256, k - 1, v);
    }
  }

  predicate Bytes(h: Words, ptr: int, size: nat) { 0 <= ptr && ptr + (size + 7) / 8 <= |h| }

  /** The first `size` bytes of a payload have value `v`. */
  predicate Filled(h: Words, ptr: int, size: nat, v: int) {
    Bytes(h, ptr, size) && forall j: nat :: j < size ==> ByteOf(h[ptr + j / 8], j % 8) == v
  }

  /** A byte read through a pointer to `char`, which is signed where the driver is built (x86-64). */
  function SignedChar(b: int): int { if b < 128 then b else b - 256 }

  /** Every remembered block is a used chunk of its own, large enough, and holds its fill. */
  ghost predicate Tracks(h: Words, used: set<int>, high: int, live: map<int, Block>) {
    && (forall i :: i in live ==> BlockOk(h, used, high, live[i], i))
    && (forall i, j :: i in live && j in live && i != j ==> live[i].ptr != live[j].ptr)
  }

  ghost predicate BlockOk(h: Words, used: set<int>, high: int, b: Block, i: int) {
    b.ptr - 1 in used && RoomFor(h, high, b.ptr, b.size) && b.size > 0 && Filled(h, b.ptr, b.size, i % 256)
  }

  /** Each range on the list is that of another remembered block. */
  predicate Listed(ranges: seq<Range>, owners: seq<int>, live: map<int, Block>) {
    && |ranges| == |owners|
    && (forall j, k :: 0 <= j < k < |owners| ==> owners[j] != owners[k])
    && (forall k :: 0 <= k < |owners| ==> owners[k] in live && ranges[k] == RangeOf(live[owners[k]]))
  }

  // ---------- fills ----------

  lemma FilledShorter(h: Words, ptr: int, m: nat, n: nat, v: int)
    requires Filled(h, ptr, n, v) && m <= n
    ensures Filled(h, ptr, m, v)
  {
  }

  lemma FilledKept(h: Words, h1: Words, ptr: int, to: int, size: nat, v: int)
    requires Filled(h, ptr, size, v) && Bytes(h1, to, size)
    requires forall w :: to <= w < to + (size + 7) / 8 ==> h1[w] == h[w - to + ptr]
    ensures Filled(h1, to, size, v)
  {
    forall j: nat | j < size
      ensures ByteOf(h1[to + j / 8], j % 8) == v
    {
      assert h1[to + j / 8] == h[ptr + j / 8];
    }
  }

  // ---------- blocks across calls ----------

  lemma BlockKept(h0: Words, s0: set<int>, high0: int, h1: Words, s1: set<int>, lists1: seq<seq<int>>, high1: int,
                  except: set<int>, b: Block, i: int)
    requires (forall s :: s in s0 ==> 0 <= s < |h0|) && HeapInv(h1, s1, lists1, high1)
    requires (forall s :: s in s1 ==> 0 <= s < |h1|) && OthersKept(h0, s0, h1, s1, except)
    requires BlockOk(h0, UsedSet(h0, s0), high0, b, i) && b.ptr - 1 !in except
    ensures BlockOk(h1, UsedSet(h1, s1), high1, b, i)
  {
    var q := b.ptr - 1;
    KeptUsed(h0, s0, h1, s1, except, q);
    UsedBounds(h1, s1, lists1, high1, q);
    hide HeapInv, OthersKept, Len, ByteOf, UsedSet;
    FilledKept(h0, h1, b.ptr, b.ptr, b.size, i % 256);
  }

  lemma TracksKept(h0: Words, s0: set<int>, high0: int, h1: Words, s1: set<int>, lists1: seq<seq<int>>, high1: int,
                   except: set<int>, live: map<int, Block>)
    requires (forall s :: s in s0 ==> 0 <= s < |h0|) && HeapInv(h1, s1, lists1, high1)
    requires (forall s :: s in s1 ==> 0 <= s < |h1|) && OthersKept(h0, s0, h1, s1, except)
    requires Tracks(h0, UsedSet(h0, s0), high0, live) && forall i :: i in live ==> live[i].ptr - 1 !in except
    ensures Tracks(h1, UsedSet(h1, s1), high1, live)
  {
    hide HeapInv, OthersKept, UsedSet, BlockOk;
    forall i | i in live
      ensures BlockOk(h1, UsedSet(h1, s1), high1, live[i], i)
    {
      BlockKept(h0, s0, high0, h1, s1, lists1, high1, except, live[i], i);
    }
  }

  /** A new block joins the others. */
  lemma TracksMore(h: Words, used: set<int>, high: int, live: map<int, Block>, i: int, b: Block)
    requires Tracks(h, used, high, live) && BlockOk(h, used, high, b, i) && i !in live
    requires forall j :: j in live ==> live[j].ptr != b.ptr
    ensures Tracks(h, used, high, live[i := b])
  {
    hide BlockOk;
  }

  /** A used chunk that is not the block's own does not meet its bytes. */
  lemma RangesApart(h: Words, starts: set<int>, lists: seq<seq<int>>, high: int, b: Block, c: Block)
    requires HeapInv(h, starts, lists, high) && (forall s :: s in starts ==> 0 <= s < |h|)
    requires b.ptr - 1 in UsedSet(h, starts) && c.ptr - 1 in UsedSet(h, starts) && b.ptr != c.ptr
    requires RoomFor(h, high, b.ptr, b.size) && RoomFor(h, high, c.ptr, c.size)
    ensures RangeOf(b).hi < RangeOf(c).lo || RangeOf(c).hi < RangeOf(b).lo
  {
    hide HeapInv, Len, UsedSet;
    Disjoint(h, starts, lists, high, b.ptr - 1, c.ptr - 1);
  }

  // ---------- the driver ----------

  predicate Meets(r: Range, lo: int, hi: int) { r.lo <= lo <= r.hi || r.lo <= hi <= r.hi }

  /** `add_range`: alignment, heap bounds and the end points of every range on the list. */
  method AddRange(ranges: seq<Range>, lo: int, size: nat, heapHi: int) returns (ok: bool, ranges1: seq<Range>)
    requires size > 0
    ensures ok <==>
              && lo % 8 == 0 && 0 <= lo && lo + size - 1 <= heapHi
              && forall k :: 0 <= k < |ranges| ==> !Meets(ranges[k], lo, lo + size - 1)
    ensures ranges1 == if ok then [Range(lo, lo + size - 1)] + ranges else ranges
  {
    var hi := lo + size - 1;
    if lo % 8 != 0 {
      return false, ranges;
    }
    if lo < 0 || lo > heapHi || hi < 0 || hi > heapHi {
      return false, ranges;
    }
    var k := 0;
    while k < |ranges|
      invariant 0 <= k <= |ranges| && forall j :: 0 <= j < k ==> !Meets(ranges[j], lo, hi)
    {
      if (lo >= ranges[k].lo && lo <= ranges[k].hi) || (hi >= ranges[k].lo && hi <= ranges[k].hi) {
        return false, ranges;
      }
      k := k + 1;
    }
    return true, [Range(lo, hi)] + ranges;
  }

  function WithoutFirst(ranges: seq<Range>, lo: int): seq<Range> {
    if ranges == [] then []
    else if ranges[0].lo == lo then ranges[1..]
    else [ranges[0]] + WithoutFirst(ranges[1..], lo)
  }

  lemma {:induction false} WithoutFirstAt(ranges: seq<Range>, lo: int, k: nat)
    requires k <= |ranges| && (forall j :: 0 <= j < k ==> ranges[j].lo != lo) && (k < |ranges| ==> ranges[k].lo == lo)
    ensures WithoutFirst(ranges, lo) == if k < |ranges| then ranges[..k] + ranges[k + 1..] else ranges
  {
    if k > 0 {
      WithoutFirstAt(ranges[1..], lo, k - 1);
    }
  }

  /** `remove_range`: the first range that starts at `lo`, number `k`, leaves the list. */
  method RemoveRange(ranges: seq<Range>, lo: int) returns (ranges1: seq<Range>, ghost k: nat)
    ensures ranges1 == WithoutFirst(ranges, lo)
    ensures k <= |ranges| && forall j :: 0 <= j < k ==> ranges[j].lo != lo
    ensures k < |ranges| ==> ranges[k].lo == lo && ranges1 == ranges[..k] + ranges[k + 1..]
    ensures k == |ranges| ==> ranges1 == ranges
  {
    var i := 0;
    while i < |ranges|
      invariant 0 <= i <= |ranges| && forall j :: 0 <= j < i ==> ranges[j].lo != lo
    {
      if ranges[i].lo == lo {
        WithoutFirstAt(ranges, lo, i);
        return ranges[..i] + ranges[i + 1..], i;
      }
      i := i + 1;
    }
    WithoutFirstAt(ranges, lo, |ranges|);
    return ranges, |ranges|;
  }

  /** `memset` of a payload, byte by byte. */
  method Fill(a: Allocator, ptr: int, size: nat, v: int)
    requires Bytes(a.heap[..], ptr, size) && 0 <= v < 256
    modifies a.heap
    ensures Filled(a.heap[..], ptr, size, v)
    ensures forall w :: 0 <= w < a.heap.Length && !(ptr <= w < ptr + (size + 7) / 8) ==> a.heap[w] == old(a.heap[w])
  {
    var j := 0;
    while j < size
      invariant 0 <= j <= size && Filled(a.heap[..], ptr, j, v)
      invariant forall w :: 0 <= w < a.heap.Length && !(ptr <= w < ptr + (size + 7) / 8) ==> a.heap[w] == old(a.heap[w])
      modifies a.heap
    {
      ghost var h := a.heap[..];
      a.heap[ptr + j / 8] := PutByte(a.heap[ptr + j / 8], j % 8, v);
      FilledMore(h, a.heap[..], ptr, j, v);
      j := j + 1;
    }
  }

  lemma FilledMore(h: Words, h1: Words, ptr: int, j: nat, v: int)
    requires Filled(h, ptr, j, v) && Bytes(h, ptr, j + 1) && 0 <= v < 256
    requires h1 == h[ptr + j / 8 := PutByte(h[ptr + j / 8], j % 8, v)]
    ensures Filled(h1, ptr, j + 1, v)
  {
    forall i: nat | i < j + 1
      ensures ByteOf(h1[ptr + i / 8], i % 8) == v
    {
      if i / 8 == j / 8 {
        PutByteAt(h[ptr + j / 8], j % 8, v, i % 8);
      }
    }
  }

  /** The comparison loop of the driver, through a pointer to signed `char`. It succeeds exactly if the bytes hold
      the fill and the fill is not a byte that reads back negative. */
  method CheckFill(a: Allocator, ptr: int, size: nat, v: int) returns (ok: bool)
    requires Bytes(a.heap[..], ptr, size) && 0 <= v < 256
    ensures ok <==> Filled(a.heap[..], ptr, size, v) && (size == 0 || v < 128)
  {
    var j := 0;
    while j < size
      invariant 0 <= j <= size && Filled(a.heap[..], ptr, j, v) && (j == 0 || v < 128)
    {
      if SignedChar(ByteOf(a.heap[ptr + j / 8], j % 8)) != v {
        assert v < 128 ==> ByteOf(a.heap[..][ptr + j / 8], j % 8) != v;
        return false;
      }
      j := j + 1;
    }
    return true;
  }

  /** What holds between two operations. */
  ghost predicate Sound(a: Allocator, live: map<int, Block>, ranges: seq<Range>, owners: seq<int>)
    reads a, a.heap
  {
    a.Valid() && Tracks(a.heap[..], a.Used(), a.high, live) && Listed(ranges, owners, live)
  }

  /** A block just handed out, which still holds the first `kept` bytes of its fill: it passes the range check, and the
      check of those bytes if there are none or they are not negative as `char`; then it is filled and remembered. */
  method Enter(a: Allocator, live: map<int, Block>, ranges: seq<Range>, ghost owners: seq<int>,
               index: int, ptr: int, size: nat, kept: nat)
      returns (ok: bool, live1: map<int, Block>, ranges1: seq<Range>, ghost owners1: seq<int>)
    requires Sound(a, live, ranges, owners) && index !in live && size > 0
    requires ptr - 1 in a.Used() && RoomFor(a.heap[..], a.high, ptr, size) && forall i :: i in live ==> live[i].ptr != ptr
    requires kept <= size && Filled(a.heap[..], ptr, kept, index % 256)
    modifies a.heap
    ensures ok <==> kept == 0 || index % 256 < 128
    ensures ok ==> Sound(a, live1, ranges1, owners1) && live1 == live[index := Block(ptr, size)]
    ensures a.Valid()
  {
    hide HeapInv, Tracks, Filled, UsedSet, OthersKept, Len, Listed, Meets, RoomFor;
    var b := Block(ptr, size);
    ghost var h := a.heap[..];
    HeapFacts(h, a.starts, a.lists, a.high);
    EnterReady(h, a.starts, a.lists, a.high, live, ranges, owners, b);
    ok, ranges1 := AddRange(ranges, 8 * ptr, size, 8 * a.brk - 1);
    var same := CheckFill(a, ptr, kept, index % 256);
    live1, owners1 := live, owners;
    if !ok || !same {
      return false, live1, ranges1, owners1;
    }
    Fill(a, ptr, size, index % 256);
    EnterTracks(h, a.heap[..], a.starts, a.lists, a.high, live, index, b);
    ListedMore(ranges, owners, live, index, b);
    live1 := live[index := b];
    owners1 := [index] + owners;
  }

  lemma ListedMore(ranges: seq<Range>, owners: seq<int>, live: map<int, Block>, index: int, b: Block)
    requires Listed(ranges, owners, live) && index !in live
    ensures Listed([RangeOf(b)] + ranges, [index] + owners, live[index := b])
  {
  }

  lemma EnterReady(h: Words, starts: set<int>, lists: seq<seq<int>>, high: int, live: map<int, Block>,
                   ranges: seq<Range>, owners: seq<int>, b: Block)
    requires HeapInv(h, starts, lists, high) && (forall s :: s in starts ==> 0 <= s < |h|)
    requires Tracks(h, UsedSet(h, starts), high, live) && Listed(ranges, owners, live) && b.size > 0
    requires b.ptr - 1 in UsedSet(h, starts) && RoomFor(h, high, b.ptr, b.size)
    requires forall i :: i in live ==> live[i].ptr != b.ptr
    ensures high < |h| && LO <= b.ptr - 1 && b.ptr + (b.size + 7) / 8 <= high && 8 * b.ptr + b.size - 1 <= 8 * high - 1
    ensures forall k :: 0 <= k < |ranges| ==> !Meets(ranges[k], 8 * b.ptr, 8 * b.ptr + b.size - 1)
  {
    AboveHeaders(h, starts, lists, high);
    hide HeapInv, UsedSet, Filled, Len;
    forall k | 0 <= k < |ranges|
      ensures !Meets(ranges[k], 8 * b.ptr, 8 * b.ptr + b.size - 1)
    {
      assert BlockOk(h, UsedSet(h, starts), high, live[owners[k]], owners[k]);
      RangesApart(h, starts, lists, high, b, live[owners[k]]);
    }
  }

  lemma EnterTracks(h: Words, h1: Words, starts: set<int>, lists: seq<seq<int>>, high: int, live: map<int, Block>,
                    index: int, b: Block)
    requires HeapInv(h, starts, lists, high) && (forall s :: s in starts ==> 0 <= s < |h|) && |h1| == |h|
    requires Tracks(h, UsedSet(h, starts), high, live) && index !in live
    requires b.ptr - 1 in UsedSet(h, starts) && RoomFor(h, high, b.ptr, b.size) && b.size > 0
    requires forall i :: i in live ==> live[i].ptr != b.ptr
    requires forall w :: 0 <= w < |h| && !(b.ptr <= w < b.ptr + (b.size + 7) / 8) ==> h1[w] == h[w]
    requires Filled(h1, b.ptr, b.size, index % 256)
    ensures HeapInv(h1, starts, lists, high) && Tracks(h1, UsedSet(h1, starts), high, live[index := b])
  {
    hide HeapInv, UsedSet, Filled, Len, OthersKept, Tracks;
    var q := b.ptr - 1;
    UsedBounds(h, starts, lists, high, q);
    PayloadWriteKeeps(h, h1, starts, high, lists, q);
    TracksKept(h, starts, high, h1, starts, lists, high, {q}, live);
    assert h1[q] == h[q];
    TracksMore(h1, UsedSet(h1, starts), high, live, index, b);
  }

  /** May the allocator be asked for `size` bytes: is there a fit, or room to grow and not by the size that breaks the
      heap? */
  method CanAllocate(a: Allocator, size: nat) returns (ok: bool)
    requires a.Valid()
    ensures ok <==> a.MayAllocate(size)
  {
    hide HeapInv, Fits, FirstFit;
    var need := Align(size + 8);
    AlignFacts(size);
    HeapFacts(a.heap[..], a.starts, a.lists, a.high);
    var _, c, _ := a.Search(need);
    return c != HEADERS || (need != MIN_CHUNK_SIZE && a.high + Growth(need) / 8 <= a.maxWords);
  }

  method CanReallocate(a: Allocator, ptr: int, size: nat) returns (ok: bool)
    requires a.Valid() && ptr - 1 in a.Used()
    ensures ok <==> a.MayReallocate(ptr - 1, size)
  {
    hide HeapInv, UsedSet, Fits, Align, GetPSize, Len;
    HeapFacts(a.heap[..], a.starts, a.lists, a.high);
    UsedBounds(a.heap[..], a.starts, a.lists, a.high, ptr - 1);
    AlignFacts(size);
    var p, need := ptr - 1, Align(size + 8);
    SizeOfWord(a.heap[p]);
    var size0 := GetPSize(a.heap[p]);
    if need <= size0 {
      return true;
    }
    if p + size0 / 8 == a.high {
      return p + need / 8 <= a.maxWords;
    }
    ok := CanAllocate(a, size);
  }

  /** A request, and its place among the live blocks. */
  method DoAlloc(a: Allocator, live: map<int, Block>, ranges: seq<Range>, ghost owners: seq<int>, index: int, size: nat)
      returns (ok: bool, live1: map<int, Block>, ranges1: seq<Range>, ghost owners1: seq<int>)
    requires Sound(a, live, ranges, owners) && index !in live && size > 0 && a.MayAllocate(size)
    modifies a, a.heap
    ensures ok && Sound(a, live1, ranges1, owners1) && live1.Keys == live.Keys + {index}
    ensures a.high <= old(a.high) + Room(size)
  {
    hide HeapInv, Tracks, Filled, UsedSet, OthersKept, Len, OldestFit, AgeOrder, Fits, FreeSet;
    ghost var h0, s0, high0 := a.heap[..], a.starts, a.high;
    HeapFacts(h0, s0, a.lists, high0);
    var ptr := a.Malloc(size);
    HeapFacts(a.heap[..], a.starts, a.lists, a.high);
    TracksKept(h0, s0, high0, a.heap[..], a.starts, a.lists, a.high, {}, live);
    FreshBlock(h0, UsedSet(h0, s0), high0, live, ptr);
    NothingFilled(a.heap[..], a.high, ptr, size, index % 256);
    ok, live1, ranges1, owners1 := Enter(a, live, ranges, owners, index, ptr, size, 0);
  }

  lemma NothingFilled(h: Words, high: int, ptr: int, size: nat, v: int)
    requires RoomFor(h, high, ptr, size)
    ensures Filled(h, ptr, 0, v)
  {
  }

  lemma FreshBlock(h: Words, used: set<int>, high: int, live: map<int, Block>, ptr: int)
    requires Tracks(h, used, high, live) && ptr - 1 !in used
    ensures forall i :: i in live ==> live[i].ptr != ptr
  {
    forall i | i in live
      ensures live[i].ptr != ptr
    {
      assert BlockOk(h, used, high, live[i], i);
    }
  }

  /** The range of a block that goes is taken off the list; what is listed then are other blocks. */
  method Forget(live: map<int, Block>, ranges: seq<Range>, ghost owners: seq<int>, index: int)
      returns (ranges1: seq<Range>, ghost owners1: seq<int>)
    requires Listed(ranges, owners, live) && index in live
    requires forall i :: i in live && i != index ==> live[i].ptr != live[index].ptr
    ensures Listed(ranges1, owners1, live - {index})
  {
    ghost var k;
    ranges1, k := RemoveRange(ranges, 8 * live[index].ptr);
    owners1 := if k < |owners| then owners[..k] + owners[k + 1..] else owners;
    assert k < |owners| ==> owners[k] == index;
    if k == |owners| {
      assert forall j :: 0 <= j < |owners| ==> owners[j] != index;
    }
  }

  method DoRelease(a: Allocator, live: map<int, Block>, ranges: seq<Range>, ghost owners: seq<int>, index: int)
      returns (live1: map<int, Block>, ranges1: seq<Range>, ghost owners1: seq<int>)
    requires Sound(a, live, ranges, owners) && index in live
    modifies a, a.heap
    ensures Sound(a, live1, ranges1, owners1) && live1 == live - {index} && a.high <= old(a.high)
  {
    hide HeapInv, Filled, UsedSet, OthersKept, Len, AgeOrder, RoomFor, Freed;
    ghost var h0, s0, high0 := a.heap[..], a.starts, a.high;
    HeapFacts(h0, s0, a.lists, high0);
    var p := live[index].ptr;
    assert BlockOk(h0, UsedSet(h0, s0), high0, live[index], index);
    ranges1, owners1 := Forget(live, ranges, owners, index);
    a.Free(p);
    HeapFacts(a.heap[..], a.starts, a.lists, a.high);
    live1 := live - {index};
    TracksKept(h0, s0, high0, a.heap[..], a.starts, a.lists, a.high, {p - 1}, live1);
  }

  /** A resized block: new range accepted, old data there, but accepted only if its bytes are not negative as `char`;
      then filled again. */
  method DoRealloc(a: Allocator, live: map<int, Block>, ranges: seq<Range>, ghost owners: seq<int>, index: int, size: nat)
      returns (ok: bool, live1: map<int, Block>, ranges1: seq<Range>, ghost owners1: seq<int>)
    requires Sound(a, live, ranges, owners) && index in live && size > 0
    requires live[index].ptr - 1 in a.Used() && a.MayReallocate(live[index].ptr - 1, size)
    modifies a, a.heap
    ensures a.Valid() && (ok <==> index % 256 < 128)
    ensures ok ==> Sound(a, live1, ranges1, owners1) && live1.Keys == live.Keys
    ensures a.high <= old(a.high) + Room(size)
  {
    hide HeapInv, Filled, UsedSet, OthersKept, Len, Fits, FreeSet, RoomFor, PayloadMoved, Growth;
    ghost var h0, s0, high0 := a.heap[..], a.starts, a.high;
    var block := live[index];
    HeapFacts(h0, s0, a.lists, high0);
    ReallocReady(h0, s0, a.lists, high0, live, index, size);
    var ptr := a.Realloc(block.ptr, size);
    var rest := live - {index};
    var ranges0;
    ghost var owners0;
    ranges0, owners0 := Forget(live, ranges, owners, index);
    HeapFacts(a.heap[..], a.starts, a.lists, a.high);
    ReallocDone(h0, s0, high0, a.heap[..], a.starts, a.lists, a.high, live, index, ptr, size);
    var kept := if size < block.size then size else block.size;
    ok, live1, ranges1, owners1 := Enter(a, rest, ranges0, owners0, index, ptr, size, kept);
  }

  lemma ReallocReady(h: Words, starts: set<int>, lists: seq<seq<int>>, high: int, live: map<int, Block>, index: int, size: nat)
    requires HeapInv(h, starts, lists, high) && (forall s :: s in starts ==> 0 <= s < |h|)
    requires Tracks(h, UsedSet(h, starts), high, live) && index in live
    ensures var p := live[index].ptr - 1;
            p in UsedSet(h, starts) && LO <= p < high < |h| && p < End(h, p) <= high
            && p + Align(size + 8) / 8 <= high + Room(size)
  {
    assert BlockOk(h, UsedSet(h, starts), high, live[index], index);
    UsedBounds(h, starts, lists, high, live[index].ptr - 1);
    AboveHeaders(h, starts, lists, high);
    hide HeapInv, Len, UsedSet, Filled;
  }

  lemma ReallocDone(h0: Words, s0: set<int>, high0: int, h1: Words, s1: set<int>, lists1: seq<seq<int>>, high1: int,
                    live: map<int, Block>, index: int, ptr: int, size: nat)
    requires (forall s :: s in s0 ==> 0 <= s < |h0|) && HeapInv(h1, s1, lists1, high1)
    requires (forall s :: s in s1 ==> 0 <= s < |h1|) && Tracks(h0, UsedSet(h0, s0), high0, live) && index in live
    requires OthersKept(h0, s0, h1, s1, {live[index].ptr - 1})
    requires ptr == live[index].ptr || ptr - 1 !in UsedSet(h0, s0)
    requires PayloadMoved(h0, h1, live[index].ptr, ptr) && RoomFor(h1, high1, ptr, size) && high1 < |h1|
    ensures Tracks(h1, UsedSet(h1, s1), high1, live - {index})
    ensures forall i :: i in live - {index} ==> live[i].ptr != ptr
    ensures Filled(h1, ptr, if size < live[index].size then size else live[index].size, index % 256)
  {
    hide HeapInv, UsedSet, OthersKept, Len, ByteOf;
    var rest, b := live - {index}, live[index];
    assert Tracks(h0, UsedSet(h0, s0), high0, rest);
    TracksKept(h0, s0, high0, h1, s1, lists1, high1, {b.ptr - 1}, rest);
    forall i | i in rest
      ensures live[i].ptr != ptr
    {
      assert BlockOk(h0, UsedSet(h0, s0), high0, live[i], i);
    }
    var kept := if size < b.size then size else b.size;
    assert BlockOk(h0, UsedSet(h0, s0), high0, b, index);
    FilledShorter(h0, b.ptr, kept, b.size, index % 256);
    FilledKept(h0, h1, b.ptr, ptr, kept, index % 256);
  }

  /** The driver's comparison works for the operation's block: a resized block's fill is not negative as `char`. */
  predicate Accepted(op: Op) { op.Realloc? ==> op.index % 256 < 128 }

  /** What the allocator asks of its caller. */
  ghost predicate Servable(a: Allocator, live: map<int, Block>, op: Op)
    reads a, a.heap
    requires a.Valid()
  {
    match op
    case Alloc(_, size) => a.MayAllocate(size)
    case Realloc(i, size) => i in live && live[i].ptr - 1 in a.Used() && a.MayReallocate(live[i].ptr - 1, size)
    case Release(_) => true
  }

  /** A request that does not round to 544 bytes may be made if the arena has the words it may need. */
  lemma RoomServes(a: Allocator, live: map<int, Block>, ranges: seq<Range>, owners: seq<int>, op: Op)
    requires Sound(a, live, ranges, owners) && OpFits(op, live.Keys) && a.high + Cost(op) <= a.maxWords
    requires !op.Release? ==> Align(op.size + 8) != MIN_CHUNK_SIZE
    ensures Servable(a, live, op)
  {
    hide HeapInv, Tracks, Listed, UsedSet, Len, Fits;
    HeapFacts(a.heap[..], a.starts, a.lists, a.high);
    if op.Realloc? {
      ReallocReady(a.heap[..], a.starts, a.lists, a.high, live, op.index, op.size);
    }
  }

  method CanServe(a: Allocator, live: map<int, Block>, ranges: seq<Range>, ghost owners: seq<int>, op: Op) returns (ok: bool)
    requires Sound(a, live, ranges, owners) && OpFits(op, live.Keys)
    ensures ok <==> Servable(a, live, op)
  {
    hide HeapInv, Tracks, Listed, UsedSet, Len, Fits;
    HeapFacts(a.heap[..], a.starts, a.lists, a.high);
    ok := true;
    match op {
      case Alloc(_, size) => ok := CanAllocate(a, size);
      case Realloc(i, size) =>
        ReallocReady(a.heap[..], a.starts, a.lists, a.high, live, i, size);
        ok := CanReallocate(a, live[i].ptr, size);
      case Release(_) =>
    }
  }

  /** One turn of the loop of `eval_mm_valid`. */
  method DoOp(a: Allocator, live: map<int, Block>, ranges: seq<Range>, ghost owners: seq<int>, op: Op)
      returns (ok: bool, live1: map<int, Block>, ranges1: seq<Range>, ghost owners1: seq<int>)
    requires Sound(a, live, ranges, owners) && OpFits(op, live.Keys) && Servable(a, live, op)
    modifies a, a.heap
    ensures a.Valid() && (ok <==> Accepted(op))
    ensures ok ==> Sound(a, live1, ranges1, owners1) && live1.Keys == LiveNext(op, live.Keys)
    ensures a.high <= old(a.high) + Cost(op)
  {
    hide HeapInv, Tracks, Listed, UsedSet, Len, Fits, Growth;
    ok := true;
    HeapFacts(a.heap[..], a.starts, a.lists, a.high);
    if op.Realloc? {
      ReallocReady(a.heap[..], a.starts, a.lists, a.high, live, op.index, op.size);
    }
    match op {
      case Alloc(i, size) => ok, live1, ranges1, owners1 := DoAlloc(a, live, ranges, owners, i, size);
      case Realloc(i, size) => ok, live1, ranges1, owners1 := DoRealloc(a, live, ranges, owners, i, size);
      case Release(i) => live1, ranges1, owners1 := DoRelease(a, live, ranges, owners, i);
    }
  }

  /** `eval_mm_valid`: the whole trace on a fresh heap. A well-formed trace that fits into the arena is found valid
      exactly if it resizes no block whose index modulo 256 is 128 or more. */
  method EvalMmValid(a: Allocator, trace: seq<Op>) returns (valid: bool)
    requires a.Arena() && WellFormed(trace) && InCapacity(trace, a.maxWords)
    modifies a, a.heap
    ensures valid <==> forall n :: 0 <= n < |trace| ==> Accepted(trace[n])
    ensures a.Valid()
  {
    hide HeapInv, Tracks, Listed, Cost, OpFits, LiveNext, Accepted, Servable;
    a.MemResetBrk();
    a.MmInit();
    var live: map<int, Block>, ranges: seq<Range> := map[], [];
    ghost var owners: seq<int> := [];
    NothingTracked(a.heap[..], a.Used(), a.high);
    var n := 0;
    while n < |trace|
      invariant 0 <= n <= |trace| && Sound(a, live, ranges, owners) && live.Keys == LiveAfter(trace, n)
      invariant a.high <= LO + Spent(trace, n)
      invariant forall m :: 0 <= m < n ==> Accepted(trace[m])
    {
      SpentGrows(trace, n + 1, |trace|);
      RoomServes(a, live, ranges, owners, trace[n]);
      var ok;
      ok, live, ranges, owners := DoOp(a, live, ranges, owners, trace[n]);
      if !ok {
        return false;
      }
      n := n + 1;
    }
    return true;
  }

  /** The same loop on any well-formed trace and arena, up to the first operation that the allocator may not be asked
      for: the `n` operations before it are found valid exactly if they resize no block of that kind. */
  method EvalServed(a: Allocator, trace: seq<Op>) returns (valid: bool, n: nat, live: map<int, Block>)
    requires a.Arena() && WellFormed(trace)
    modifies a, a.heap
    ensures n <= |trace| && a.Valid() && forall m :: 0 <= m < n ==> Accepted(trace[m])
    ensures !valid ==> n < |trace| && !Accepted(trace[n])
    ensures valid ==> live.Keys == LiveAfter(trace, n) && Tracks(a.heap[..], a.Used(), a.high, live)
    ensures valid && n < |trace| ==> !Servable(a, live, trace[n])
  {
    hide HeapInv, Tracks, Listed, OpFits, LiveNext, Accepted, Servable, Cost;
    a.MemResetBrk();
    a.MmInit();
    live, n := map[], 0;
    var ranges: seq<Range> := [];
    ghost var owners: seq<int> := [];
    NothingTracked(a.heap[..], a.Used(), a.high);
    while n < |trace|
      invariant n <= |trace| && Sound(a, live, ranges, owners) && live.Keys == LiveAfter(trace, n)
      invariant forall m :: 0 <= m < n ==> Accepted(trace[m])
    {
      var served := CanServe(a, live, ranges, owners, trace[n]);
      if !served {
        return true, n, live;
      }
      var ok;
      ok, live, ranges, owners := DoOp(a, live, ranges, owners, trace[n]);
      if !ok {
        return false, n, live;
      }
      n := n + 1;
    }
    return true, n, live;
  }

  /** A trace on which the test fails although the allocator does nothing wrong: allocate one byte, resize it to one
      byte. */
  function ResizesBlock128(): seq<Op> { [Alloc(128, 1), Realloc(128, 1)] }

  method FailsOnCorrectHeap(a: Allocator) returns (valid: bool)
    requires a.Arena() && a.maxWords >= 200
    modifies a, a.heap
    ensures WellFormed(ResizesBlock128()) && InCapacity(ResizesBlock128(), a.maxWords)
    ensures !valid && a.Valid()
  {
    hide HeapInv, Tracks;
    var t := ResizesBlock128();
    assert LiveAfter(t, 0) == {} && LiveAfter(t, 1) == {128};
    assert Align(9) == 32 && Growth(32) == 192 && Room(1) == 24;
    assert Spent(t, 1) == 24 && Spent(t, 2) == 48;
    valid := EvalMmValid(a, t);
    assert !Accepted(t[1]);
  }

  lemma NothingTracked(h: Words, used: set<int>, high: int)
    ensures Tracks(h, used, high, map[]) && Listed([], [], map[])
  {
  }
}
