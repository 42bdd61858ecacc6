/** `csim.c`: a cache simulator with valid bits and visit times, refining recency lists. */
module CacheSim {
  import opened Lru
  import opened Arith
  import opened LruHistory

  datatype Line = Line(tag: Tag, valid: bool, time: nat)

  // ---------- lines and their order ----------

  function ValidLines(ls: seq<Line>): nat {
    if ls == [] then 0 else (if ls[0].valid then 1 else 0) + ValidLines(ls[1..])
  }

  lemma {:induction false} ValidUpdate(ls: seq<Line>, i: nat, l: Line)
    requires i < |ls| && l.valid
    ensures ValidLines(ls[i := l]) == ValidLines(ls) + if ls[i].valid then 0 else 1
  {
    if i > 0 {
      ValidUpdate(ls[1..], i - 1, l);
      assert ls[i := l][1..] == ls[1..][i - 1 := l];
    } else {
      assert ls[i := l][1..] == ls[1..];
    }
  }

  lemma {:induction false} AllValid(ls: seq<Line>)
    ensures ValidLines(ls) <= |ls|
    ensures ValidLines(ls) == |ls| <==> forall i :: 0 <= i < |ls| ==> ls[i].valid
  {
    if ls != [] {
      AllValid(ls[1..]);
      assert forall i :: 1 <= i < |ls| ==> ls[i] == ls[1..][i - 1];
    }
  }

  lemma {:induction false} NoneValid(ls: seq<Line>)
    requires forall i :: 0 <= i < |ls| ==> !ls[i].valid
    ensures ValidLines(ls) == 0
  {
    if ls != [] {
      NoneValid(ls[1..]);
    }
  }

  /** The entries of `order` are valid lines visited at most `visits` visits ago. */
  predicate Entries(ls: seq<Line>, order: seq<int>, visits: nat) {
    forall k :: 0 <= k < |order| ==> 0 <= order[k] < |ls| && ls[order[k]].valid && 1 <= ls[order[k]].time <= visits
  }

  /** An earlier entry was visited later; no line and no tag comes twice. */
  predicate Falling(ls: seq<Line>, order: seq<int>)
    requires forall k :: 0 <= k < |order| ==> 0 <= order[k] < |ls|
  {
    forall j, k :: 0 <= j < k < |order| ==>
      order[j] != order[k] && ls[order[j]].time > ls[order[k]].time && ls[order[j]].tag != ls[order[k]].tag
  }

  /** `order` lists the valid lines, latest visit first; visit times never pass the number of visits. */
  predicate Ordered(ls: seq<Line>, order: seq<int>, visits: nat) {
    && Entries(ls, order, visits) && Falling(ls, order) && |order| == ValidLines(ls)
    && (forall i :: 0 <= i < |ls| && ls[i].valid ==> i in order)
  }

  function Tags(ls: seq<Line>, order: seq<int>): (r: seq<Tag>)
    requires forall k :: 0 <= k < |order| ==> 0 <= order[k] < |ls|
    ensures |r| == |order| && forall k :: 0 <= k < |order| ==> r[k] == ls[order[k]].tag
  {
    seq(|order|, k requires 0 <= k < |order| => ls[order[k]].tag)
  }

  /** `now` is later than every visit so far. */
  predicate Later(ls: seq<Line>, now: nat, visits: nat) {
    1 <= now <= visits + 1 && forall i :: 0 <= i < |ls| && ls[i].valid ==> ls[i].time < now
  }

  /** Line `i`, rewritten at time `now` with a tag no other listed line has, goes to the front. */
  lemma {:induction false} Front(ls: seq<Line>, rest: seq<int>, visits: nat, i: int, t: Tag, now: nat)
    requires Entries(ls, rest, visits) && Falling(ls, rest) && Later(ls, now, visits) && 0 <= i < |ls|
    requires i !in rest && t !in Tags(ls, rest)
    ensures var ls1 := ls[i := Line(t, true, now)];
            && Entries(ls1, [i] + rest, visits + 1) && Falling(ls1, [i] + rest)
            && Tags(ls1, [i] + rest) == [t] + Tags(ls, rest)
  {
    var ls1, order1 := ls[i := Line(t, true, now)], [i] + rest;
    forall k | 0 <= k < |order1|
      ensures 0 <= order1[k] < |ls| && ls1[order1[k]] == if k == 0 then Line(t, true, now) else ls[rest[k - 1]]
    {
    }
    forall j, k | 0 <= j < k < |order1|
      ensures order1[j] != order1[k] && ls1[order1[j]].time > ls1[order1[k]].time
      ensures ls1[order1[j]].tag != ls1[order1[k]].tag
    {
      if j > 0 {
        assert rest[j - 1] != rest[k - 1];
      }
    }
  }

  /** Dropping an entry. */
  lemma {:induction false} Drop(ls: seq<Line>, order: seq<int>, visits: nat, k: nat)
    requires Entries(ls, order, visits) && Falling(ls, order) && k < |order|
    ensures var rest := order[..k] + order[k + 1..];
            && Entries(ls, rest, visits) && Falling(ls, rest)
            && Tags(ls, rest) == Tags(ls, order)[..k] + Tags(ls, order)[k + 1..]
            && order[k] !in rest && ls[order[k]].tag !in Tags(ls, rest)
            && (forall x :: x in order && x != order[k] ==> x in rest)
  {
    var rest := order[..k] + order[k + 1..];
    forall m | 0 <= m < |rest|
      ensures rest[m] == order[if m < k then m else m + 1]
    {
    }
    forall x | x in order && x != order[k]
      ensures x in rest
    {
      var m :| 0 <= m < |order| && order[m] == x;
      assert if m < k then rest[m] == x else rest[m - 1] == x;
    }
  }

  lemma TagsDistinct(ls: seq<Line>, order: seq<int>, visits: nat)
    requires Ordered(ls, order, visits)
    ensures Lru.Distinct(Tags(ls, order))
  {
  }

  lemma AbsentTag(ls: seq<Line>, order: seq<int>, visits: nat, t: Tag)
    requires Entries(ls, order, visits) && forall j :: 0 <= j < |ls| && ls[j].valid ==> ls[j].tag != t
    ensures t !in Tags(ls, order)
  {
  }

  lemma Place(order: seq<int>, i: int) returns (k: nat)
    requires i in order
    ensures k < |order| && order[k] == i
  {
    k :| 0 <= k < |order| && order[k] == i;
  }

  lemma {:induction false} HitLine(ls: seq<Line>, order: seq<int>, visits: nat, i: int,
                                   now: nat) returns (order1: seq<int>)
    requires Ordered(ls, order, visits) && Later(ls, now, visits) && 0 <= i < |ls| && ls[i].valid
    ensures Ordered(ls[i := ls[i].(time := now)], order1, visits + 1)
    ensures Tags(ls[i := ls[i].(time := now)], order1) == Touch(Tags(ls, order), ls[i].tag, |ls|)
    ensures Visit(Tags(ls, order), ls[i].tag, |ls|) == Hit
  {
    hide Falling, Later;
    var k := Place(order, i);
    var rest, ls1 := order[..k] + order[k + 1..], ls[i := ls[i].(time := now)];
    order1 := [i] + rest;
    assert ls1 == ls[i := Line(ls[i].tag, true, now)];
    Drop(ls, order, visits, k);
    Front(ls, rest, visits, i, ls[i].tag, now);
    ValidUpdate(ls, i, ls1[i]);
    TagsDistinct(ls, order, visits);
    assert Tags(ls, order)[k] == ls[i].tag;
    WithoutAt(Tags(ls, order), k);
  }

  lemma {:induction false} FillLine(ls: seq<Line>, order: seq<int>, visits: nat, i: int, t: Tag,
                                    now: nat) returns (order1: seq<int>)
    requires Ordered(ls, order, visits) && Later(ls, now, visits) && 0 <= i < |ls| && !ls[i].valid
    requires forall j :: 0 <= j < |ls| && ls[j].valid ==> ls[j].tag != t
    ensures Ordered(ls[i := Line(t, true, now)], order1, visits + 1)
    ensures Tags(ls[i := Line(t, true, now)], order1) == Touch(Tags(ls, order), t, |ls|)
    ensures Visit(Tags(ls, order), t, |ls|) == Miss
  {
    hide Falling, Later;
    order1 := [i] + order;
    AbsentTag(ls, order, visits, t);
    AllValid(ls);
    Front(ls, order, visits, i, t, now);
    ValidUpdate(ls, i, Line(t, true, now));
  }

  lemma OldestIsLast(ls: seq<Line>, order: seq<int>, visits: nat, i: int)
    requires Ordered(ls, order, visits) && 0 <= i < |ls| && ls[i].valid
    requires forall j :: 0 <= j < |ls| && ls[j].valid ==> ls[i].time <= ls[j].time
    ensures |order| > 0 && order[|order| - 1] == i
  {
    var k := Place(order, i);
    var n := |order| - 1;
    assert ls[order[n]].time >= ls[order[k]].time;
  }

  lemma {:induction false} EvictLine(ls: seq<Line>, order: seq<int>, visits: nat, i: int, t: Tag,
                                     now: nat) returns (order1: seq<int>)
    requires Ordered(ls, order, visits) && Later(ls, now, visits) && 0 <= i < |ls|
    requires forall j :: 0 <= j < |ls| ==> ls[j].valid && ls[j].tag != t && ls[i].time <= ls[j].time
    ensures Ordered(ls[i := Line(t, true, now)], order1, visits + 1)
    ensures Tags(ls[i := Line(t, true, now)], order1) == Touch(Tags(ls, order), t, |ls|)
    ensures Visit(Tags(ls, order), t, |ls|) == Eviction
  {
    hide Falling, Later, Entries;
    var n := |order| - 1;
    var rest, ls1 := order[..n], ls[i := Line(t, true, now)];
    AllValid(ls);
    AbsentTag(ls, order, visits, t);
    OldestIsLast(ls, order, visits, i);
    assert order[..n] + order[n + 1..] == rest;
    Drop(ls, order, visits, n);
    assert Entries(ls, rest, visits);
    AbsentTag(ls, rest, visits, t);
    order1 := [i] + rest;
    Front(ls, rest, visits, i, t, now);
    ValidUpdate(ls, i, Line(t, true, now));
    assert Tags(ls, rest) == Tags(ls, order)[..n];
  }

  // ---------- one set ----------

  class SetSlot {
    const lines: array<Line>
    ghost var order: seq<int>
    ghost var visits: nat

    ghost predicate Valid()
      reads this, lines
    {
      lines.Length >= 1 && Ordered(lines[..], order, visits)
    }

    /** The tags held, latest visit first. */
    ghost function Recency(): seq<Tag>
      reads this, lines
      requires Valid()
    {
      Tags(lines[..], order)
    }

    /** `setSlotInit`. */
    constructor (e: nat)
      requires e >= 1
      ensures Valid() && fresh(lines) && lines.Length == e && Recency() == [] && visits == 0
    {
      lines := new Line[e](_ => Line(0, false, 0));
      order, visits := [], 0;
      new;
      NoneValid(lines[..]);
    }

    /** `setVisitAddress`. */
    method VisitTag(tag: Tag) returns (r: Outcome)
      requires Valid()
      modifies this, lines
      ensures Valid() && visits == old(visits) + 1
      ensures r == Visit(old(Recency()), tag, lines.Length)
      ensures Recency() == Touch(old(Recency()), tag, lines.Length)
    {
      hide Touch, Visit, Tags, Falling;
      var latest := 0;
      var i := 0;
      while i < lines.Length
        invariant 0 <= i <= lines.Length && 0 <= latest <= visits
        invariant forall j :: 0 <= j < i && lines[j].valid ==> lines[j].time <= latest
      {
        if lines[i].valid && lines[i].time > latest {
          assert i in order;
          latest := lines[i].time;
        }
        i := i + 1;
      }
      latest := latest + 1;
      ghost var ls := lines[..];

      i := 0;
      while i < lines.Length
        invariant 0 <= i <= lines.Length && lines[..] == ls
        invariant forall j :: 0 <= j < i && lines[j].valid ==> lines[j].tag != tag
      {
        if lines[i].valid && lines[i].tag == tag {
          ghost var order1 := HitLine(ls, order, visits, i, latest);
          lines[i] := lines[i].(time := latest);
          order, visits := order1, visits + 1;
          return Hit;
        }
        i := i + 1;
      }

      i := 0;
      while i < lines.Length
        invariant 0 <= i <= lines.Length && lines[..] == ls
        invariant forall j :: 0 <= j < i ==> lines[j].valid
      {
        if !lines[i].valid {
          ghost var order1 := FillLine(ls, order, visits, i, tag, latest);
          lines[i] := Line(tag, true, latest);
          order, visits := order1, visits + 1;
          return Miss;
        }
        i := i + 1;
      }

      var oldest, evict := latest, -1;
      i := 0;
      while i < lines.Length
        invariant 0 <= i <= lines.Length && lines[..] == ls
        invariant if i == 0 then evict == -1 && oldest == latest else 0 <= evict < i && oldest == lines[evict].time
        invariant forall j :: 0 <= j < i ==> oldest <= lines[j].time
      {
        if lines[i].valid && lines[i].time < oldest {
          oldest, evict := lines[i].time, i;
        }
        i := i + 1;
      }
      ghost var order1 := EvictLine(ls, order, visits, evict, tag, latest);
      lines[evict] := Line(tag, true, latest);
      order, visits := order1, visits + 1;
      return Eviction;
    }
  }

  /** Valid lines of a set have different tags and different visit times, none later than the visits so far. */
  lemma ValidLinesDiffer(ls: seq<Line>, order: seq<int>, visits: nat, i: int, j: int)
    requires Ordered(ls, order, visits) && 0 <= i < j < |ls| && ls[i].valid && ls[j].valid
    ensures ls[i].tag != ls[j].tag && ls[i].time != ls[j].time && ls[i].time <= visits && ls[j].time <= visits
  {
    var k := Place(order, i);
    var m := Place(order, j);
    assert k < m || m < k;
  }

  // ---------- the cache ----------

  class CacheModel {
    const sets: seq<SetSlot>
    const setIndexBit: nat
    const blockBit: nat
    const e: nat
    var hitTimes: nat
    var missTimes: nat
    var evictionTimes: nat
    ghost var model: Cache

    ghost predicate Valid()
      reads this, sets, set i | 0 <= i < |sets| :: sets[i].lines
    {
      && e >= 1 && |sets| == |model.sets| == Pow2(setIndexBit)
      && Apart(sets)
      && (forall i {:trigger sets[i].Valid()} :: 0 <= i < |sets| ==>
            sets[i].Valid() && sets[i].lines.Length == e && sets[i].Recency() == model.sets[i])
      && CountersShow(model.counts)
    }

    /** `cacheInit`. */
    constructor (blockBit: nat, setIndexBit: nat, e: nat)
      requires e >= 1
      ensures Valid() && model == Empty(setIndexBit)
      ensures this.blockBit == blockBit && this.setIndexBit == setIndexBit && this.e == e
    {
      var slots: seq<SetSlot> := [];
      var i := 0;
      while i < Pow2(setIndexBit)
        invariant 0 <= i <= Pow2(setIndexBit) && |slots| == i && Apart(slots)
        invariant forall j :: 0 <= j < i ==> fresh(slots[j]) && fresh(slots[j].lines)
        invariant forall j :: 0 <= j < i ==> slots[j].Valid() && slots[j].lines.Length == e && slots[j].Recency() == []
      {
        var slot := new SetSlot(e);
        slots := slots + [slot];
        i := i + 1;
      }
      this.sets := slots;
      this.blockBit, this.setIndexBit, this.e := blockBit, setIndexBit, e;
      hitTimes, missTimes, evictionTimes := 0, 0, 0;
      model := Empty(setIndexBit);
    }

    lemma SetCount()
      requires Valid()
      ensures |model.sets| == Pow2(setIndexBit) && e >= 1
    {
    }

    /** The 32-bit counters show the counts modulo 2^32. */
    ghost predicate CountersShow(c: Counts)
      reads this
    {
      && hitTimes == Wrap32(c.hits) && missTimes == Wrap32(c.misses) && evictionTimes == Wrap32(c.evictions)
    }

    method CountOutcome(r: Outcome, ghost c: Counts)
      requires CountersShow(c)
      modifies this`hitTimes, this`missTimes, this`evictionTimes
      ensures CountersShow(Count(c, r))
    {
      WrapStep(c.hits);
      WrapStep(c.misses);
      WrapStep(c.evictions);
      hide Wrap32;
      match r {
        case Hit => hitTimes := Wrap32(hitTimes + 1);
        case Miss => missTimes := Wrap32(missTimes + 1);
        case Eviction =>
          missTimes := Wrap32(missTimes + 1);
          evictionTimes := Wrap32(evictionTimes + 1);
      }
    }

    /** `cacheVisitAddress`. */
    method VisitBlock(address: nat)
      requires Valid()
      modifies this`hitTimes, this`missTimes, this`evictionTimes, this`model, sets, set i | 0 <= i < |sets| :: sets[i].lines
      ensures Valid() && model == VisitAddress(old(model), setIndexBit, blockBit, e, address)
    {
      hide Ordered, Touch, Visit, Tags, Pow2, SetIndex, TagOf, Wrap32, Count;
      var i, t := SetIndex(address, setIndexBit, blockBit), TagOf(address, setIndexBit, blockBit);
      ghost var c := model;
      assert sets[i].Valid();
      var r := sets[i].VisitTag(t);
      forall j | 0 <= j < |sets| && j != i
        ensures sets[j].Valid() && sets[j].lines.Length == e && sets[j].Recency() == c.sets[j]
      {
        ApartAt(sets, i, j);
        assert old(sets[j].Valid());
      }
      CountOutcome(r, c.counts);
      model := VisitAddress(c, setIndexBit, blockBit, e, address);
      forall j | 0 <= j < |sets|
        ensures sets[j].Valid() && sets[j].lines.Length == e && sets[j].Recency() == model.sets[j]
      {
      }
    }

    /** `simulateCache` from the parsed trace lines on. */
    method Simulate(trace: seq<Access>)
      requires Valid()
      modifies this`hitTimes, this`missTimes, this`evictionTimes, this`model, sets, set i | 0 <= i < |sets| :: sets[i].lines
      ensures Valid() && model == Run(old(model), setIndexBit, blockBit, e, trace)
      ensures |old(model).sets| == Pow2(setIndexBit) && e >= 1
      ensures model == VisitAll(old(model), setIndexBit, blockBit, e, Visited(trace))
      ensures model.counts.hits + model.counts.misses == old(model.counts.hits + model.counts.misses) +
                Lines(trace, 'L') + Lines(trace, 'S') + 2 * Lines(trace, 'M')
      ensures hitTimes == model.counts.hits % 0x1_0000_0000 && missTimes == model.counts.misses % 0x1_0000_0000
      ensures evictionTimes == model.counts.evictions % 0x1_0000_0000
    {
      hide Valid, VisitAddress, Pow2, Visited, VisitAll, Lines;
      ghost var c := model;
      SetCount();
      RunVisits(c, setIndexBit, blockBit, e, trace);
      VisitsOfTrace(c, setIndexBit, blockBit, e, trace);
      var n := 0;
      while n < |trace|
        invariant 0 <= n <= |trace| && Valid() && model == Run(c, setIndexBit, blockBit, e, trace[..n])
      {
        assert trace[..n + 1][..n] == trace[..n];
        var line := trace[n];
        if line.op == 'L' || line.op == 'S' {
          VisitBlock(line.address);
        } else if line.op == 'M' {
          VisitBlock(line.address);
          VisitBlock(line.address);
        }
        RepeatFew(Run(c, setIndexBit, blockBit, e, trace[..n]), setIndexBit, blockBit, e, line.address);
        n := n + 1;
      }
      assert trace[..n] == trace;
      Counters();
    }

    lemma Counters()
      requires Valid()
      ensures hitTimes == model.counts.hits % 0x1_0000_0000 && missTimes == model.counts.misses % 0x1_0000_0000
      ensures evictionTimes == model.counts.evictions % 0x1_0000_0000
    {
      assert CountersShow(model.counts);
      hide Valid;
    }
  }

  const MAX32: nat := 0x1_0000_0000

  function Wrap32(n: nat): nat { n % MAX32 }

  lemma WrapStep(n: nat)
    ensures Wrap32(Wrap32(n) + 1) == Wrap32(n + 1)
  {
  }

  /** No two sets share lines. */
  predicate Apart(sets: seq<SetSlot>) {
    forall i, j :: 0 <= i < |sets| && 0 <= j < |sets| && i != j ==> sets[i] != sets[j] && sets[i].lines != sets[j].lines
  }

  lemma ApartAt(sets: seq<SetSlot>, i: nat, j: nat)
    requires Apart(sets) && i < |sets| && j < |sets| && i != j
    ensures sets[i] != sets[j] && sets[i].lines != sets[j].lines
  {
  }

  lemma RepeatFew(c: Cache, s: nat, b: nat, e: nat, address: nat)
    requires |c.sets| == Pow2(s) && e >= 1
    ensures Repeat(c, s, b, e, address, 0) == c
    ensures Repeat(c, s, b, e, address, 1) == VisitAddress(c, s, b, e, address)
    ensures Repeat(c, s, b, e, address, 2) == VisitAddress(VisitAddress(c, s, b, e, address), s, b, e, address)
  {
    hide VisitAddress;
    assert Repeat(c, s, b, e, address, 1) == VisitAddress(Repeat(c, s, b, e, address, 0), s, b, e, address);
    assert Repeat(c, s, b, e, address, 2) == VisitAddress(Repeat(c, s, b, e, address, 1), s, b, e, address);
  }
}
