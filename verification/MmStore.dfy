/** The allocator under a program that allocates, resizes, frees and writes as it likes: a store of blocks that do not
    know of each other. */
module MmStore {
  import opened MmHeap
  import opened MmOps
  import opened MmAlloc
  import Driver = MmDriver

  // ---------- blocks with a memory of their own ----------

  /** A block and the words its owner has put into it. */
  datatype Block = Block(size: nat, words: map<nat, int>)

  type Store = map<int, Block>

  /** What a program does next. A program names its blocks; `offset` counts words. */
  datatype Action =
    | New(i: int, size: nat)
    | Resize(i: int, size: nat)
    | Drop(i: int)
    | Put(i: int, offset: nat, value: int)

  function Next(act: Action, s: Store): Store {
    match act
    case New(i, size) => s[i := Block(size, map[])]
    case Resize(i, size) => if i in s then s[i := Cut(s[i], size)] else s
    case Drop(i) => s - {i}
    case Put(i, offset, value) => if i in s then s[i := Written(s[i], offset, value)] else s
  }

  /** The words that a block of `size` bytes still has. */
  function Cut(b: Block, size: nat): Block {
    Block(size, map o | o in b.words && 8 * o + 8 <= size :: b.words[o])
  }

  function Written(b: Block, offset: nat, value: int): Block { Block(b.size, b.words[offset := value]) }

  function After(actions: seq<Action>, n: nat): Store
    requires n <= |actions|
  {
    if n == 0 then map[] else Next(actions[n - 1], After(actions, n - 1))
  }

  /** A program uses the blocks it has, and writes inside them. */
  predicate Allowed(act: Action, s: Store) {
    match act
    case New(i, _) => i !in s
    case Resize(i, _) => i in s
    case Drop(i) => i in s
    case Put(i, offset, _) => i in s && 8 * offset + 8 <= s[i].size
  }

  predicate AllAllowed(actions: seq<Action>) {
    forall n :: 0 <= n < |actions| ==> Allowed(actions[n], After(actions, n))
  }

  function Cost(act: Action): nat { if act.New? || act.Resize? then Driver.Room(act.size) else 0 }

  function Spent(actions: seq<Action>, n: nat): nat
    requires n <= |actions|
  {
    if n == 0 then 0 else Spent(actions, n - 1) + Cost(actions[n - 1])
  }

  lemma {:induction false} SpentGrows(actions: seq<Action>, n: nat, m: nat)
    requires n <= m <= |actions|
    ensures Spent(actions, n) <= Spent(actions, m)
  {
    if n < m {
      SpentGrows(actions, n, m - 1);
    }
  }

  // ---------- the heap holds the store ----------

  /** The payload at `ptr` is allocated, large enough, and holds the block's words. */
  ghost predicate HeldAt(h: Words, used: set<int>, high: int, ptr: int, b: Block) {
    && ptr - 1 in used && RoomFor(h, high, ptr, b.size)
    && (forall o :: o in b.words ==> 8 * o + 8 <= b.size && ptr + o < |h| && h[ptr + o] == b.words[o])
  }

  ghost predicate Holds(h: Words, used: set<int>, high: int, ptrs: map<int, int>, s: Store) {
    && ptrs.Keys == s.Keys
    && (forall i :: i in s ==> HeldAt(h, used, high, ptrs[i], s[i]))
    && (forall i, j :: i in ptrs && j in ptrs && i != j ==> ptrs[i] != ptrs[j])
  }

  lemma HeldKept(h0: Words, s0: set<int>, high0: int, h1: Words, s1: set<int>, lists1: seq<seq<int>>, high1: int,
                 except: set<int>, ptr: int, b: Block)
    requires (forall s :: s in s0 ==> 0 <= s < |h0|) && HeapInv(h1, s1, lists1, high1)
    requires (forall s :: s in s1 ==> 0 <= s < |h1|) && OthersKept(h0, s0, h1, s1, except)
    requires HeldAt(h0, UsedSet(h0, s0), high0, ptr, b) && ptr - 1 !in except
    ensures HeldAt(h1, UsedSet(h1, s1), high1, ptr, b)
  {
    KeptUsed(h0, s0, h1, s1, except, ptr - 1);
    UsedBounds(h1, s1, lists1, high1, ptr - 1);
    hide HeapInv, OthersKept, Len, UsedSet;
  }

  /** A call keeps the blocks it is not given. */
  lemma HoldsKept(h0: Words, s0: set<int>, high0: int, h1: Words, s1: set<int>, lists1: seq<seq<int>>, high1: int,
                  except: set<int>, ptrs: map<int, int>, s: Store)
    requires (forall s :: s in s0 ==> 0 <= s < |h0|) && HeapInv(h1, s1, lists1, high1)
    requires (forall s :: s in s1 ==> 0 <= s < |h1|) && OthersKept(h0, s0, h1, s1, except)
    requires Holds(h0, UsedSet(h0, s0), high0, ptrs, s) && forall i :: i in ptrs ==> ptrs[i] - 1 !in except
    ensures Holds(h1, UsedSet(h1, s1), high1, ptrs, s)
  {
    hide HeapInv, OthersKept, UsedSet, HeldAt;
    forall i | i in s
      ensures HeldAt(h1, UsedSet(h1, s1), high1, ptrs[i], s[i])
    {
      HeldKept(h0, s0, high0, h1, s1, lists1, high1, except, ptrs[i], s[i]);
    }
  }

  lemma HoldsLess(h: Words, used: set<int>, high: int, ptrs: map<int, int>, s: Store, i: int)
    requires Holds(h, used, high, ptrs, s)
    ensures Holds(h, used, high, ptrs - {i}, s - {i})
  {
    hide HeldAt;
  }

  lemma HoldsMore(h: Words, used: set<int>, high: int, ptrs: map<int, int>, s: Store, i: int, ptr: int, b: Block)
    requires Holds(h, used, high, ptrs - {i}, s - {i}) && HeldAt(h, used, high, ptr, b)
    requires forall j :: j in ptrs && j != i ==> ptrs[j] != ptr
    ensures Holds(h, used, high, ptrs[i := ptr], s[i := b])
  {
    hide HeldAt;
    var ptrs1, s1 := ptrs[i := ptr], s[i := b];
    assert forall j :: j in s1 ==> j == i || j in s - {i};
    assert forall j :: j in ptrs1 ==> j == i || j in ptrs - {i};
  }

  /** A pointer outside the used chunks is no block's. */
  lemma NewPointer(h: Words, used: set<int>, high: int, ptrs: map<int, int>, s: Store, ptr: int)
    requires Holds(h, used, high, ptrs, s) && ptr - 1 !in used
    ensures forall j :: j in ptrs ==> ptrs[j] != ptr
  {
    forall j | j in ptrs
      ensures ptrs[j] != ptr
    {
      assert HeldAt(h, used, high, ptrs[j], s[j]);
    }
  }

  /** What was written before a resize is there after it, as far as it fits. */
  lemma CutHeld(h: Words, h1: Words, used: set<int>, used1: set<int>, high: int, high1: int, ptr: int, result: int,
                b: Block, size: nat)
    requires HeldAt(h, used, high, ptr, b) && PayloadMoved(h, h1, ptr, result)
    requires result - 1 in used1 && RoomFor(h1, high1, result, size) && high1 < |h1|
    ensures HeldAt(h1, used1, high1, result, Cut(b, size))
  {
    hide Len;
  }

  /** A write inside a block changes that block only. */
  lemma PutHolds(h: Words, starts: set<int>, lists: seq<seq<int>>, high: int, ptrs: map<int, int>, s: Store,
                 i: int, offset: nat, value: int)
    requires HeapInv(h, starts, lists, high) && (forall s :: s in starts ==> 0 <= s < |h|)
    requires Holds(h, UsedSet(h, starts), high, ptrs, s) && i in s && 8 * offset + 8 <= s[i].size
    ensures 0 <= ptrs[i] + offset < |h|
    ensures var h1 := h[ptrs[i] + offset := value];
            && HeapInv(h1, starts, lists, high)
            && Holds(h1, UsedSet(h1, starts), high, ptrs, s[i := Written(s[i], offset, value)])
  {
    hide HeapInv, UsedSet, OthersKept, Len;
    var ptr, b := ptrs[i], s[i];
    assert HeldAt(h, UsedSet(h, starts), high, ptr, b);
    UsedBounds(h, starts, lists, high, ptr - 1);
    AboveHeaders(h, starts, lists, high);
    var h1 := h[ptr + offset := value];
    PayloadWriteKeeps(h, h1, starts, high, lists, ptr - 1);
    assert h1[ptr - 1] == h[ptr - 1];
    HoldsLess(h, UsedSet(h, starts), high, ptrs, s, i);
    HoldsKept(h, starts, high, h1, starts, lists, high, {ptr - 1}, ptrs - {i}, s - {i});
    assert HeldAt(h1, UsedSet(h1, starts), high, ptr, Written(b, offset, value));
    HoldsMore(h1, UsedSet(h1, starts), high, ptrs, s, i, ptr, Written(b, offset, value));
    assert ptrs[i := ptr] == ptrs;
  }

  // ---------- running a program ----------

  ghost predicate Sound(a: Allocator, ptrs: map<int, int>, s: Store)
    reads a, a.heap
  {
    a.Valid() && Holds(a.heap[..], a.Used(), a.high, ptrs, s)
  }

  method DoNew(a: Allocator, ptrs: map<int, int>, ghost s: Store, i: int, size: nat) returns (ptrs1: map<int, int>)
    requires Sound(a, ptrs, s) && i !in s && a.MayAllocate(size)
    modifies a, a.heap
    ensures Sound(a, ptrs1, Next(New(i, size), s)) && a.high <= old(a.high) + Driver.Room(size)
  {
    hide HeapInv, Holds, UsedSet, OthersKept, Len, OldestFit, AgeOrder, Fits, FreeSet;
    ghost var h0, s0, high0 := a.heap[..], a.starts, a.high;
    HeapFacts(h0, s0, a.lists, high0);
    var ptr := a.Malloc(size);
    HeapFacts(a.heap[..], a.starts, a.lists, a.high);
    HoldsKept(h0, s0, high0, a.heap[..], a.starts, a.lists, a.high, {}, ptrs, s);
    NewPointer(h0, UsedSet(h0, s0), high0, ptrs, s, ptr);
    KeysAgree(a.heap[..], a.Used(), a.high, ptrs, s);
    assert ptrs - {i} == ptrs && s - {i} == s;
    HoldsMore(a.heap[..], a.Used(), a.high, ptrs, s, i, ptr, Block(size, map[]));
    ptrs1 := ptrs[i := ptr];
  }

  lemma KeysAgree(h: Words, used: set<int>, high: int, ptrs: map<int, int>, s: Store)
    requires Holds(h, used, high, ptrs, s)
    ensures ptrs.Keys == s.Keys
    ensures forall i :: i in s ==> HeldAt(h, used, high, ptrs[i], s[i])
    ensures forall i, j :: i in ptrs && j in ptrs && i != j ==> ptrs[i] != ptrs[j]
  {
  }

  method DoResize(a: Allocator, ptrs: map<int, int>, ghost s: Store, i: int, size: nat) returns (ptrs1: map<int, int>)
    requires Sound(a, ptrs, s) && i in s && i in ptrs && ptrs[i] - 1 in a.Used() && a.MayReallocate(ptrs[i] - 1, size)
    modifies a, a.heap
    ensures Sound(a, ptrs1, Next(Resize(i, size), s))
    ensures a.high <= old(a.high) || 8 * a.high <= 8 * (ptrs[i] - 1) + Align(size + 8) || a.high <= old(a.high) + Driver.Room(size)
  {
    hide HeapInv, Holds, HeldAt, UsedSet, OthersKept, Len, Fits, FreeSet, RoomFor, PayloadMoved, Growth;
    ghost var h0, s0, high0 := a.heap[..], a.starts, a.high;
    HeapFacts(h0, s0, a.lists, high0);
    KeysAgree(h0, UsedSet(h0, s0), high0, ptrs, s);
    var ptr := ptrs[i];
    var result := a.Realloc(ptr, size);
    ghost var h1, used1 := a.heap[..], a.Used();
    AboveHeaders(h1, a.starts, a.lists, a.high);
    HoldsLess(h0, UsedSet(h0, s0), high0, ptrs, s, i);
    HoldsKept(h0, s0, high0, h1, a.starts, a.lists, a.high, {ptr - 1}, ptrs - {i}, s - {i});
    if result != ptr {
      NewPointer(h0, UsedSet(h0, s0), high0, ptrs, s, result);
    }
    CutHeld(h0, h1, UsedSet(h0, s0), used1, high0, a.high, ptr, result, s[i], size);
    HoldsMore(h1, used1, a.high, ptrs, s, i, result, Cut(s[i], size));
    ptrs1 := ptrs[i := result];
  }

  method DoDrop(a: Allocator, ptrs: map<int, int>, ghost s: Store, i: int) returns (ptrs1: map<int, int>)
    requires Sound(a, ptrs, s) && i in s && i in ptrs
    modifies a, a.heap
    ensures Sound(a, ptrs1, Next(Drop(i), s)) && a.high <= old(a.high)
  {
    hide HeapInv, Holds, UsedSet, OthersKept, Len, AgeOrder, RoomFor, Freed;
    ghost var h0, s0, high0 := a.heap[..], a.starts, a.high;
    HeapFacts(h0, s0, a.lists, high0);
    KeysAgree(h0, UsedSet(h0, s0), high0, ptrs, s);
    var ptr := ptrs[i];
    a.Free(ptr);
    HeapFacts(a.heap[..], a.starts, a.lists, a.high);
    HoldsLess(h0, UsedSet(h0, s0), high0, ptrs, s, i);
    ptrs1 := ptrs - {i};
    HoldsKept(h0, s0, high0, a.heap[..], a.starts, a.lists, a.high, {ptr - 1}, ptrs1, s - {i});
  }

  method DoPut(a: Allocator, ptrs: map<int, int>, ghost s: Store, i: int, offset: nat, value: int)
    requires Sound(a, ptrs, s) && i in s && i in ptrs && 8 * offset + 8 <= s[i].size
    modifies a.heap
    ensures Sound(a, ptrs, Next(Put(i, offset, value), s))
  {
    hide HeapInv, Holds, UsedSet, Len;
    HeapFacts(a.heap[..], a.starts, a.lists, a.high);
    PutHolds(a.heap[..], a.starts, a.lists, a.high, ptrs, s, i, offset, value);
    a.heap[ptrs[i] + offset] := value;
  }

  /** What the allocator asks of its caller: a fit, or room to grow and not the size that breaks the heap. */
  ghost predicate Servable(a: Allocator, ptrs: map<int, int>, act: Action)
    reads a, a.heap
    requires a.Valid()
  {
    match act
    case New(_, size) => a.MayAllocate(size)
    case Resize(i, size) => i in ptrs && ptrs[i] - 1 in a.Used() && a.MayReallocate(ptrs[i] - 1, size)
    case _ => true
  }

  method CanServe(a: Allocator, ptrs: map<int, int>, ghost s: Store, act: Action) returns (ok: bool)
    requires Sound(a, ptrs, s) && Allowed(act, s)
    ensures ok <==> Servable(a, ptrs, act)
  {
    hide HeapInv, Holds, HeldAt, UsedSet, Fits, Align, Len;
    HeapFacts(a.heap[..], a.starts, a.lists, a.high);
    KeysAgree(a.heap[..], a.Used(), a.high, ptrs, s);
    ok := true;
    match act {
      case New(_, size) => ok := Driver.CanAllocate(a, size);
      case Resize(i, size) =>
        ResizeFits(a.heap[..], a.starts, a.lists, a.high, ptrs[i], s[i], size);
        ok := Driver.CanReallocate(a, ptrs[i], size);
      case _ =>
    }
  }

  /** One action that the allocator may be asked for. */
  method DoAction(a: Allocator, ptrs: map<int, int>, ghost s: Store, act: Action) returns (ptrs1: map<int, int>)
    requires Sound(a, ptrs, s) && Allowed(act, s) && Servable(a, ptrs, act)
    modifies a, a.heap
    ensures Sound(a, ptrs1, Next(act, s)) && a.high <= old(a.high) + Cost(act)
  {
    hide HeapInv, Holds, HeldAt, UsedSet, Len, Fits, Next;
    HeapFacts(a.heap[..], a.starts, a.lists, a.high);
    KeysAgree(a.heap[..], a.Used(), a.high, ptrs, s);
    ptrs1 := ptrs;
    match act {
      case New(i, size) => ptrs1 := DoNew(a, ptrs, s, i, size);
      case Resize(i, size) =>
        ResizeFits(a.heap[..], a.starts, a.lists, a.high, ptrs[i], s[i], size);
        ptrs1 := DoResize(a, ptrs, s, i, size);
      case Drop(i) => ptrs1 := DoDrop(a, ptrs, s, i);
      case Put(i, offset, value) => DoPut(a, ptrs, s, i, offset, value);
    }
  }

  /** A request that does not round to 544 bytes is served if the arena has the words it may need. */
  lemma RoomServes(a: Allocator, ptrs: map<int, int>, s: Store, act: Action)
    requires Sound(a, ptrs, s) && Allowed(act, s) && a.high + Cost(act) <= a.maxWords
    requires act.New? || act.Resize? ==> Align(act.size + 8) != MIN_CHUNK_SIZE
    ensures Servable(a, ptrs, act)
  {
    hide HeapInv, Holds, HeldAt, UsedSet, Len, Fits, Align;
    HeapFacts(a.heap[..], a.starts, a.lists, a.high);
    KeysAgree(a.heap[..], a.Used(), a.high, ptrs, s);
    if act.Resize? {
      ResizeFits(a.heap[..], a.starts, a.lists, a.high, ptrs[act.i], s[act.i], act.size);
    }
  }

  lemma ResizeFits(h: Words, starts: set<int>, lists: seq<seq<int>>, high: int, ptr: int, b: Block, size: nat)
    requires HeapInv(h, starts, lists, high) && (forall s :: s in starts ==> 0 <= s < |h|)
    requires HeldAt(h, UsedSet(h, starts), high, ptr, b)
    ensures ptr - 1 in UsedSet(h, starts) && LO <= ptr - 1 < high < |h|
    ensures 8 * (ptr - 1) + Align(size + 8) <= 8 * (high + Driver.Room(size))
  {
    UsedBounds(h, starts, lists, high, ptr - 1);
    AboveHeaders(h, starts, lists, high);
    hide HeapInv, Len, UsedSet, Align;
  }

  /** No request rounds to 544 bytes, and the arena has the words that all requests may need. */
  predicate InCapacity(actions: seq<Action>, maxWords: int) {
    && LO + Spent(actions, |actions|) <= maxWords
    && (forall n :: 0 <= n < |actions| && (actions[n].New? || actions[n].Resize?) ==>
          Align(actions[n].size + 8) != MIN_CHUNK_SIZE)
  }

  /** Any program on a fresh heap, up to the first request that the allocator may not be asked for, if there is one:
      every block it still has holds exactly what it last put there, through all the splitting, merging, moving and
      reuse in between. */
  method RunActions(a: Allocator, actions: seq<Action>) returns (ptrs: map<int, int>, n: nat)
    requires a.Arena() && AllAllowed(actions)
    modifies a, a.heap
    ensures n <= |actions| && a.Valid() && Holds(a.heap[..], a.Used(), a.high, ptrs, After(actions, n))
    ensures n < |actions| ==> !Servable(a, ptrs, actions[n])
    ensures InCapacity(actions, a.maxWords) ==> n == |actions|
  {
    hide HeapInv, Cost, Allowed, Next, Holds, Servable;
    a.MemResetBrk();
    a.MmInit();
    ptrs := map[];
    NothingHeld(a.heap[..], a.Used(), a.high);
    n := 0;
    while n < |actions|
      invariant n <= |actions| && Sound(a, ptrs, After(actions, n))
      invariant a.high <= LO + Spent(actions, n)
    {
      SpentGrows(actions, n + 1, |actions|);
      if InCapacity(actions, a.maxWords) {
        RoomServes(a, ptrs, After(actions, n), actions[n]);
      }
      var ok := CanServe(a, ptrs, After(actions, n), actions[n]);
      if !ok {
        return;
      }
      ptrs := DoAction(a, ptrs, After(actions, n), actions[n]);
      n := n + 1;
    }
  }

  lemma NothingHeld(h: Words, used: set<int>, high: int)
    ensures Holds(h, used, high, map[], map[])
  {
  }
}
