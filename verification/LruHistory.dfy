/** What the recency model means in terms of the trace alone: which lines visit, which set an address goes to, and
    when a visit hits, misses or evicts. */
module LruHistory {
  import opened Lru
  import opened Arith

  // ---------- where an address goes ----------

  function BlockOf(address: nat, b: nat): int { address / Pow2(b) }

  /** The first 2^s blocks go to the sets in order, every byte of a block to the same one, and then it starts again. */
  lemma SetsInTurn(k: nat, offset: nat, s: nat, b: nat, rounds: nat)
    requires k < Pow2(s) && offset < Pow2(b)
    ensures SetIndex(k * Pow2(b) + offset + rounds * Pow2(b + s), s, b) == k
  {
    hide Pow2;
    var m, n := Pow2(b), Pow2(s);
    Pow2Sum(b, s);
    assert rounds * (m * n) == m * (n * rounds);
    assert k * m + offset + m * (n * rounds) == m * (k + n * rounds) + offset;
    var x := k * m + offset + rounds * Pow2(b + s);
    DivMod(x, m);
    UniqueQuotient(m, x / m, x % m, k + n * rounds, offset);
    DivMod(x / m, n);
    UniqueQuotient(n, x / m / n, x / m % n, rounds, k);
  }

  /** With 16 sets and blocks of 16 bytes the last hexadecimal digit of an address is the offset, the one before it the
      set, and the rest the tag. */
  lemma HexParts(address: nat)
    ensures SetIndex(address, 4, 4) == address / 16 % 16 && TagOf(address, 4, 4) == address / 256
    ensures Pow2(0) == 1 && Pow2(10) == 1024
  {
    assert Pow2(4) == 16;
    assert Pow2(8) == 256;
  }

  // ---------- trace lines ----------

  /** The addresses a line visits: a modify loads and stores. */
  function LineVisits(line: Access): seq<nat> {
    match line.op
    case 'L' => [line.address]
    case 'S' => [line.address]
    case 'M' => [line.address, line.address]
    case _ => []
  }

  function Visited(trace: seq<Access>): seq<nat> {
    if trace == [] then [] else Visited(trace[..|trace| - 1]) + LineVisits(trace[|trace| - 1])
  }

  function VisitAll(c: Cache, s: nat, b: nat, e: nat, visits: seq<nat>): (r: Cache)
    requires |c.sets| == Pow2(s) && e >= 1
    ensures |r.sets| == Pow2(s)
  {
    if visits == [] then c
    else VisitAddress(VisitAll(c, s, b, e, visits[..|visits| - 1]), s, b, e, visits[|visits| - 1])
  }

  lemma VisitTwo(c: Cache, s: nat, b: nat, e: nat, visits: seq<nat>, x: nat)
    requires |c.sets| == Pow2(s) && e >= 1
    ensures var r := VisitAll(c, s, b, e, visits);
            && VisitAll(c, s, b, e, visits + [x]) == VisitAddress(r, s, b, e, x)
            && VisitAll(c, s, b, e, visits + [x, x]) == VisitAddress(VisitAddress(r, s, b, e, x), s, b, e, x)
  {
    hide VisitAddress;
    assert (visits + [x])[..|visits|] == visits;
    assert (visits + [x, x])[..|visits| + 1] == visits + [x];
  }

  /** A trace visits what its lines visit, in order. */
  lemma {:induction false} RunVisits(c: Cache, s: nat, b: nat, e: nat, trace: seq<Access>)
    requires |c.sets| == Pow2(s) && e >= 1
    ensures Run(c, s, b, e, trace) == VisitAll(c, s, b, e, Visited(trace))
  {
    hide VisitAddress;
    if trace != [] {
      var n := |trace| - 1;
      var line, before := trace[n], Visited(trace[..n]);
      RunVisits(c, s, b, e, trace[..n]);
      VisitTwo(c, s, b, e, before, line.address);
      assert before + [] == before;
      RepeatTwice(Run(c, s, b, e, trace[..n]), s, b, e, line.address);
    }
  }

  lemma RepeatTwice(c: Cache, s: nat, b: nat, e: nat, x: nat)
    requires |c.sets| == Pow2(s) && e >= 1
    ensures Repeat(c, s, b, e, x, 0) == c && Repeat(c, s, b, e, x, 1) == VisitAddress(c, s, b, e, x)
    ensures Repeat(c, s, b, e, x, 2) == VisitAddress(VisitAddress(c, s, b, e, x), s, b, e, x)
  {
    hide VisitAddress;
    assert Repeat(c, s, b, e, x, 1) == VisitAddress(Repeat(c, s, b, e, x, 0), s, b, e, x);
    assert Repeat(c, s, b, e, x, 2) == VisitAddress(Repeat(c, s, b, e, x, 1), s, b, e, x);
  }

  /** A modify does what a load and a store of its address do, and its second visit is a hit. Lines that are no
      load, store or modify change nothing. */
  lemma ModifyIsLoadStore(c: Cache, s: nat, b: nat, e: nat, x: nat, op: char)
    requires |c.sets| == Pow2(s) && e >= 1
    ensures var loaded := Run(c, s, b, e, [Access('L', x)]);
            var r := Run(c, s, b, e, [Access('M', x)]);
            && r == Run(c, s, b, e, [Access('L', x), Access('S', x)])
            && r.counts == loaded.counts.(hits := loaded.counts.hits + 1)
    ensures op != 'L' && op != 'S' && op != 'M' ==> Run(c, s, b, e, [Access(op, x)]) == c
  {
    RunVisits(c, s, b, e, [Access('L', x)]);
    RunVisits(c, s, b, e, [Access('M', x)]);
    RunVisits(c, s, b, e, [Access('L', x), Access('S', x)]);
    RunVisits(c, s, b, e, [Access(op, x)]);
    hide Run, VisitAddress, VisitAll;
    OneLine(Access('L', x));
    OneLine(Access('M', x));
    OneLine(Access(op, x));
    var two := [Access('L', x), Access('S', x)];
    assert two[..1] == [Access('L', x)] && Visited(two) == [x, x];
    VisitTwo(c, s, b, e, [], x);
    assert [] + [x] == [x] && [] + [x, x] == [x, x];
    NoVisit(c, s, b, e);
    SecondVisitHits(c, s, b, e, x);
  }

  lemma NoVisit(c: Cache, s: nat, b: nat, e: nat)
    requires |c.sets| == Pow2(s) && e >= 1
    ensures VisitAll(c, s, b, e, []) == c
  {
  }

  lemma OneLine(line: Access)
    ensures Visited([line]) == LineVisits(line)
  {
    assert [line][..0] == [];
    assert Visited([]) + LineVisits(line) == LineVisits(line);
  }

  lemma SecondVisitHits(c: Cache, s: nat, b: nat, e: nat, x: nat)
    requires |c.sets| == Pow2(s) && e >= 1
    ensures var r := VisitAddress(c, s, b, e, x);
            VisitAddress(r, s, b, e, x).counts == r.counts.(hits := r.counts.hits + 1)
  {
    hide Pow2, SetIndex, TagOf;
    var i, t := SetIndex(x, s, b), TagOf(x, s, b);
    assert Touch(c.sets[i], t, e)[0] == t;
  }

  /** How many lines of a trace have the operation `op`. */
  function Lines(trace: seq<Access>, op: char): nat {
    if trace == [] then 0 else Lines(trace[..|trace| - 1], op) + if trace[|trace| - 1].op == op then 1 else 0
  }

  /** Hits and misses together are the loads, the stores and twice the modifies. */
  lemma {:induction false} VisitsOfTrace(c: Cache, s: nat, b: nat, e: nat, trace: seq<Access>)
    requires |c.sets| == Pow2(s) && e >= 1
    ensures var r := Run(c, s, b, e, trace).counts;
            r.hits + r.misses == c.counts.hits + c.counts.misses + Lines(trace, 'L') + Lines(trace, 'S') + 2 * Lines(trace, 'M')
  {
    RunVisits(c, s, b, e, trace);
    VisitsCounted(c, s, b, e, Visited(trace));
    VisitedLines(trace);
    hide Run, VisitAll;
  }

  lemma {:induction false} VisitedLines(trace: seq<Access>)
    ensures |Visited(trace)| == Lines(trace, 'L') + Lines(trace, 'S') + 2 * Lines(trace, 'M')
  {
    if trace != [] {
      VisitedLines(trace[..|trace| - 1]);
    }
  }

  lemma {:induction false} VisitsCounted(c: Cache, s: nat, b: nat, e: nat, visits: seq<nat>)
    requires |c.sets| == Pow2(s) && e >= 1
    ensures var r := VisitAll(c, s, b, e, visits).counts;
            r.hits + r.misses == c.counts.hits + c.counts.misses + |visits|
  {
    hide SetIndex, TagOf, Touch, Pow2;
    if visits != [] {
      VisitsCounted(c, s, b, e, visits[..|visits| - 1]);
    }
  }

  // ---------- hits, misses and evictions from the history ----------

  /** The entries by the time of their last visit, latest first. */
  function Recency(visits: seq<int>): seq<int> {
    if visits == [] then [] else Move(Recency(visits[..|visits| - 1]), visits[|visits| - 1])
  }

  /** What was visited after the last visit to `t`. */
  function Since(visits: seq<int>, t: int): set<int> {
    if visits == [] || visits[|visits| - 1] == t then {}
    else Since(visits[..|visits| - 1], t) + {visits[|visits| - 1]}
  }

  function Elements(l: seq<int>): set<int> { set x | x in l }

  lemma {:induction false} DistinctSize(l: seq<int>)
    requires Distinct(l)
    ensures |Elements(l)| == |l|
  {
    if l != [] {
      var n := |l| - 1;
      DistinctSize(l[..n]);
      assert Elements(l) == Elements(l[..n]) + {l[n]};
    }
  }

  /** An entry stands behind exactly those visited after it. */
  lemma {:induction false} RecencyPlace(visits: seq<int>, t: int) returns (k: nat)
    ensures Distinct(Recency(visits)) && Elements(Recency(visits)) == Elements(visits)
    ensures t in visits ==> k < |Recency(visits)| && Recency(visits)[k] == t && Elements(Recency(visits)[..k]) == Since(visits, t)
  {
    k := 0;
    if visits != [] {
      var n := |visits| - 1;
      var x, l := visits[n], Recency(visits[..n]);
      k := RecencyPlace(visits[..n], t);
      MoveKeeps(l, x);
      MovePlace(l, x, t, k);
      assert Elements(visits) == Elements(visits[..n]) + {x};
      if t == x {
        k := 0;
      } else if t in visits {
        k := if x in l[..k] then k else k + 1;
      }
    }
  }

  /** Where `t` at place `k` goes when `x` moves to the front. */
  lemma MovePlace(l: seq<int>, x: int, t: int, k: nat)
    requires Distinct(l)
    ensures Elements(Move(l, x)) == Elements(l) + {x}
    ensures t != x && k < |l| && l[k] == t ==>
              var k1 := if x in l[..k] then k else k + 1;
              k1 < |Move(l, x)| && Move(l, x)[k1] == t && Elements(Move(l, x)[..k1]) == Elements(l[..k]) + {x}
  {
    if x in l {
      var j :| 0 <= j < |l| && l[j] == x;
      WithoutAt(l, j);
      Shifted(l, j, k);
    } else {
      WithoutMissing(l, x);
      ElementsConcat([x], l);
      if k < |l| {
        assert ([x] + l)[..k + 1] == [x] + l[..k];
        ElementsConcat([x], l[..k]);
      }
    }
  }

  lemma ElementsConcat(l: seq<int>, m: seq<int>)
    ensures Elements(l + m) == Elements(l) + Elements(m)
  {
  }

  lemma Shifted(l: seq<int>, j: nat, k: nat)
    requires Distinct(l) && j < |l|
    ensures var m := [l[j]] + (l[..j] + l[j + 1..]);
            && Elements(m) == Elements(l)
            && (k < |l| && k != j ==>
                  var k1 := if j < k then k else k + 1;
                  && (l[j] in l[..k] <==> j < k)
                  && k1 < |m| && m[k1] == l[k] && Elements(m[..k1]) == Elements(l[..k]) + {l[j]})
  {
    hide Elements;
    var m, x := [l[j]] + (l[..j] + l[j + 1..]), [l[j]];
    assert Elements(x) == {l[j]} by { SingleElement(l[j]); }
    ThreeParts(l[..j], x, l[j + 1..]);
    assert l == l[..j] + (x + l[j + 1..]) && m == x + (l[..j] + l[j + 1..]);
    if k < |l| && k < j {
      assert m[..k + 1] == x + l[..k];
      ElementsConcat(x, l[..k]);
    } else if k < |l| && k > j {
      ThreeParts(l[..j], x, l[j + 1..k]);
      assert m[..k] == x + (l[..j] + l[j + 1..k]) && l[..k] == l[..j] + (x + l[j + 1..k]);
      assert l[..k][j] == l[j];
      assert l[j] in Elements(l[..k]) by { InElements(l[..k], j); }
    }
  }

  lemma SingleElement(x: int)
    ensures Elements([x]) == {x}
  {
  }

  lemma InElements(l: seq<int>, j: nat)
    requires j < |l|
    ensures l[j] in Elements(l)
  {
  }

  lemma ThreeParts(l: seq<int>, x: seq<int>, m: seq<int>)
    ensures Elements(l + (x + m)) == Elements(x + (l + m))
  {
  }

  /** The blocks visited in set `i`. */
  function OfSet(visits: seq<nat>, i: nat, s: nat, b: nat): seq<int> {
    if visits == [] then []
    else
      var block := BlockOf(visits[|visits| - 1], b);
      OfSet(visits[..|visits| - 1], i, s, b) + if block % Pow2(s) == i then [block] else []
  }

  lemma {:induction false} OfSetBlocks(visits: seq<nat>, i: nat, s: nat, b: nat)
    ensures forall x :: x in OfSet(visits, i, s, b) ==> x % Pow2(s) == i
  {
    hide Pow2;
    if visits != [] {
      OfSetBlocks(visits[..|visits| - 1], i, s, b);
    }
  }

  function BlockTags(l: seq<int>, m: int): seq<Tag>
    requires m >= 1
  {
    seq(|l|, k requires 0 <= k < |l| => l[k] / m)
  }

  /** All entries are blocks of one set. */
  predicate InSet(l: seq<int>, i: int, m: int)
    requires m >= 1
  {
    forall x :: x in l ==> x % m == i
  }

  lemma TagNamesBlock(x: int, y: int, m: int)
    requires m >= 1 && x % m == y % m
    ensures x / m == y / m <==> x == y
  {
    DivMod(x, m);
    DivMod(y, m);
  }

  lemma TagsMembers(l: seq<int>, x: int, i: int, m: int)
    requires m >= 1 && InSet(l + [x], i, m)
    ensures x / m in BlockTags(l, m) <==> x in l
    ensures forall k :: 0 <= k < |l| ==> BlockTags(l, m)[k] == l[k] / m
    ensures forall k :: 0 <= k < |l| ==> (l[k] == x <==> l[k] / m == x / m)
  {
    forall k | 0 <= k < |l|
      ensures l[k] == x <==> l[k] / m == x / m
    {
      assert l[k] in l + [x] && x in l + [x];
      TagNamesBlock(l[k], x, m);
    }
    if x in l {
      var k :| 0 <= k < |l| && l[k] == x;
      assert BlockTags(l, m)[k] == x / m;
    }
  }

  lemma TagsDistinct(l: seq<int>, i: int, m: int)
    requires m >= 1 && InSet(l, i, m) && Distinct(l)
    ensures Distinct(BlockTags(l, m))
  {
    forall j, k | 0 <= j < k < |l|
      ensures BlockTags(l, m)[j] != BlockTags(l, m)[k]
    {
      assert l[j] in l && l[k] in l;
      TagNamesBlock(l[j], l[k], m);
    }
  }

  lemma MoveTags(l: seq<int>, x: int, i: int, m: int)
    requires m >= 1 && InSet(l + [x], i, m) && Distinct(l)
    ensures BlockTags(Move(l, x), m) == Move(BlockTags(l, m), x / m)
  {
    hide Distinct, InSet, Without;
    InSetPart(l, x, i, m);
    TagsMembers(l, x, i, m);
    TagsDistinct(l, i, m);
    var u := BlockTags(l, m);
    if x in l {
      var k :| 0 <= k < |l| && l[k] == x;
      WithoutAt(l, k);
      WithoutAt(u, k);
      MovedTags(l, k, m);
    } else {
      WithoutMissing(l, x);
      WithoutMissing(u, x / m);
      assert BlockTags([x] + l, m) == [x / m] + u;
    }
  }

  lemma InSetPart(l: seq<int>, x: int, i: int, m: int)
    requires m >= 1 && InSet(l + [x], i, m)
    ensures InSet(l, i, m)
  {
    assert forall y :: y in l ==> y in l + [x];
  }

  lemma MovedTags(l: seq<int>, k: nat, m: int)
    requires m >= 1 && k < |l|
    ensures BlockTags([l[k]] + (l[..k] + l[k + 1..]), m) == [l[k] / m] + (BlockTags(l, m)[..k] + BlockTags(l, m)[k + 1..])
  {
  }

  /** A set of `e` lines holds the `e` blocks of its own visited last. */
  lemma {:induction false} SetHoldsRecent(s: nat, b: nat, e: nat, visits: seq<nat>, i: nat)
    requires e >= 1 && i < Pow2(s)
    ensures VisitAll(Empty(s), s, b, e, visits).sets[i] == Take(BlockTags(Recency(OfSet(visits, i, s, b)), Pow2(s)), e)
  {
    hide Move, Touch, Distinct, Take, BlockTags, Pow2, VisitAddress, BlockOf, InSet;
    if visits == [] {
      NoTags(Pow2(s));
      NothingTaken(e);
    } else {
      var n := |visits| - 1;
      var block, before := BlockOf(visits[n], b), OfSet(visits[..n], i, s, b);
      SetHoldsRecent(s, b, e, visits[..n], i);
      VisitedSet(VisitAll(Empty(s), s, b, e, visits[..n]), s, b, e, visits[n], i);
      if block % Pow2(s) == i {
        assert (before + [block])[..|before|] == before;
        BlocksInSet(visits, i, s, b);
        RecentStep(before, block, i, Pow2(s), e);
      } else {
        assert before + [] == before;
      }
    }
  }

  lemma BlocksInSet(visits: seq<nat>, i: nat, s: nat, b: nat)
    ensures InSet(OfSet(visits, i, s, b), i, Pow2(s))
  {
    OfSetBlocks(visits, i, s, b);
  }

  lemma VisitedSet(c: Cache, s: nat, b: nat, e: nat, x: nat, i: nat)
    requires |c.sets| == Pow2(s) && e >= 1 && i < Pow2(s)
    ensures VisitAddress(c, s, b, e, x).sets[i] ==
            if BlockOf(x, b) % Pow2(s) == i then Touch(c.sets[i], BlockOf(x, b) / Pow2(s), e) else c.sets[i]
  {
    hide Touch, Pow2;
    TagIsHighPart(x, s, b);
  }

  lemma NoTags(m: int)
    requires m >= 1
    ensures BlockTags([], m) == []
  {
  }

  lemma NothingTaken(e: nat)
    ensures Take([], e) == []
  {
  }

  lemma RecentStep(before: seq<int>, x: int, i: int, m: int, e: nat)
    requires m >= 1 && e >= 1 && InSet(before + [x], i, m)
    ensures Touch(Take(BlockTags(Recency(before), m), e), x / m, e) == Take(BlockTags(Move(Recency(before), x), m), e)
  {
    var k := RecencyPlace(before, x);
    var l := Recency(before);
    hide Move, Touch, Take, BlockTags, Recency, Distinct;
    assert InSet(l + [x], i, m) by {
      forall y | y in l + [x]
        ensures y % m == i
      {
        assert y in l ==> y in Elements(l);
        assert y in before + [x];
      }
    }
    InSetPart(l, x, i, m);
    MoveTags(l, x, i, m);
    TagsDistinct(l, i, m);
    TouchIsTake(BlockTags(l, m), x / m, e);
  }

  /** Least recently used: a visit hits exactly if its block was visited before and fewer than E other blocks of its
      set were visited since. A miss evicts exactly if E blocks of the set have been visited at all. */
  lemma VisitOutcome(s: nat, b: nat, e: nat, visits: seq<nat>, x: nat)
    requires e >= 1
    ensures var c := VisitAll(Empty(s), s, b, e, visits);
            var own, block := OfSet(visits, BlockOf(x, b) % Pow2(s), s, b), BlockOf(x, b);
            VisitAddress(c, s, b, e, x).counts ==
            if block in own && |Since(own, block)| < e then c.counts.(hits := c.counts.hits + 1)
            else if |Elements(own)| < e then c.counts.(misses := c.counts.misses + 1)
            else c.counts.(misses := c.counts.misses + 1, evictions := c.counts.evictions + 1)
  {
    hide Move, Touch, Pow2, VisitAll, Distinct;
    var m, block := Pow2(s), BlockOf(x, b);
    var i := block % m;
    var own := OfSet(visits, i, s, b);
    SetHoldsRecent(s, b, e, visits, i);
    TagIsHighPart(x, s, b);
    OfSetBlocks(visits, i, s, b);
    InRecent(own, block, i, m, e);
  }

  /** Membership in the first `e` entries, from the history. */
  lemma InRecent(own: seq<int>, x: int, i: int, m: int, e: nat)
    requires m >= 1 && e >= 1 && InSet(own + [x], i, m)
    ensures var l := Take(BlockTags(Recency(own), m), e);
            && (x / m in l <==> x in own && |Since(own, x)| < e)
            && (|l| < e <==> |Elements(own)| < e)
  {
    var k := RecencyPlace(own, x);
    var r := Recency(own);
    hide Recency, Since;
    DistinctSize(r);
    assert InSet(r + [x], i, m) by {
      forall y | y in r + [x]
        ensures y % m == i
      {
        assert y in r ==> y in Elements(r);
        assert y in own + [x];
      }
    }
    TagsMembers(r, x, i, m);
    if x in own {
      PrefixSize(r, k);
    } else {
      assert x !in Elements(r);
    }
    TakenAt(BlockTags(r, m), x / m, k, e);
  }

  lemma PrefixSize(r: seq<int>, k: nat)
    requires Distinct(r) && k <= |r|
    ensures |Elements(r[..k])| == k
  {
    DistinctSize(r[..k]);
  }

  /** A distinct list's first `e` entries contain the one at `k` exactly if `k < e`. */
  lemma TakenAt(l: seq<Tag>, t: Tag, k: nat, e: nat)
    requires t in l ==> k < |l| && l[k] == t && forall j :: 0 <= j < |l| && j != k ==> l[j] != t
    ensures t in Take(l, e) <==> t in l && k < e
  {
    if t in l && k < e {
      assert Take(l, e)[k] == t;
    }
  }
}
