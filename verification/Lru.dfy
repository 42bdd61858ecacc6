/** Least-recently-used replacement as a list of tags, most recent first, and the laws of whole traces. */
module Lru {
  import opened Arith

  type Tag = int

  datatype Outcome = Hit | Miss | Eviction

  predicate Distinct(l: seq<Tag>) { forall i, j :: 0 <= i < j < |l| ==> l[i] != l[j] }

  /** The list without the first `t`. */
  function Without(l: seq<Tag>, t: Tag): seq<Tag> {
    if l == [] then [] else if l[0] == t then l[1..] else [l[0]] + Without(l[1..], t)
  }

  /** A set of `e` lines after a visit to `t`. */
  function Touch(l: seq<Tag>, t: Tag, e: nat): seq<Tag>
    requires e >= 1
  {
    if t in l then [t] + Without(l, t)
    else if |l| < e then [t] + l
    else [t] + l[..e - 1]
  }

  function Visit(l: seq<Tag>, t: Tag, e: nat): Outcome {
    if t in l then Hit else if |l| < e then Miss else Eviction
  }

  /** The same with no bound on the number of lines. */
  function Move(l: seq<Tag>, t: Tag): seq<Tag> { [t] + Without(l, t) }

  function Take(l: seq<Tag>, e: nat): seq<Tag> { if |l| <= e then l else l[..e] }

  lemma {:induction false} WithoutAt(l: seq<Tag>, k: nat)
    requires Distinct(l) && k < |l|
    ensures Without(l, l[k]) == l[..k] + l[k + 1..]
  {
    if k > 0 {
      var r := l[1..];
      assert l[0] != l[k] && r[k - 1] == l[k] && Distinct(r);
      WithoutAt(r, k - 1);
      hide Distinct;
      assert r[k..] == l[k + 1..];
      assert [l[0]] + (r[..k - 1] + r[k..]) == l[..k] + l[k + 1..];
    }
  }

  lemma {:induction false} WithoutMissing(l: seq<Tag>, t: Tag)
    requires t !in l
    ensures Without(l, t) == l
  {
    if l != [] {
      WithoutMissing(l[1..], t);
    }
  }

  /** Visits keep the tags distinct and the list no longer than the set. */
  lemma TouchKeeps(l: seq<Tag>, t: Tag, e: nat)
    requires Distinct(l) && |l| <= e && e >= 1
    ensures Distinct(Touch(l, t, e)) && 1 <= |Touch(l, t, e)| <= e && Touch(l, t, e)[0] == t
    ensures |Touch(l, t, e)| == |l| + if Visit(l, t, e) == Miss then 1 else 0
  {
    if t in l {
      MoveKeeps(l, t);
    }
  }

  lemma MoveKeeps(l: seq<Tag>, t: Tag)
    requires Distinct(l)
    ensures Distinct(Move(l, t)) && |Move(l, t)| == if t in l then |l| else |l| + 1
  {
    if t in l {
      var k :| 0 <= k < |l| && l[k] == t;
      WithoutAt(l, k);
      MovedDistinct(l, k);
    } else {
      WithoutMissing(l, t);
    }
  }

  lemma MovedDistinct(l: seq<Tag>, k: nat)
    requires Distinct(l) && k < |l|
    ensures Distinct([l[k]] + (l[..k] + l[k + 1..]))
  {
  }

  /** A set of `e` lines holds the first `e` entries of the unbounded list. */
  lemma TouchIsTake(l: seq<Tag>, t: Tag, e: nat)
    requires Distinct(l) && e >= 1
    ensures Touch(Take(l, e), t, e) == Take(Move(l, t), e)
  {
    if t in l {
      var k :| 0 <= k < |l| && l[k] == t;
      if k < e {
        TouchNear(l, k, e);
      } else {
        TouchFar(l, k, e);
      }
    } else {
      WithoutMissing(l, t);
    }
  }

  lemma {:induction false} TouchNear(l: seq<Tag>, k: nat, e: nat)
    requires Distinct(l) && k < |l| && k < e
    ensures Touch(Take(l, e), l[k], e) == Take(Move(l, l[k]), e)
  {
    var m := Take(l, e);
    assert m[k] == l[k] && Distinct(m);
    WithoutAt(l, k);
    WithoutAt(m, k);
    hide Distinct, Without;
    TakeMoved(l, k, e);
  }

  lemma TakeMoved(l: seq<Tag>, k: nat, e: nat)
    requires k < |l| && k < e
    ensures |Take(l, e)| > k
    ensures [l[k]] + (Take(l, e)[..k] + Take(l, e)[k + 1..]) == Take([l[k]] + (l[..k] + l[k + 1..]), e)
  {
  }

  lemma TouchFar(l: seq<Tag>, k: nat, e: nat)
    requires Distinct(l) && 1 <= e <= k < |l|
    ensures Touch(Take(l, e), l[k], e) == Take(Move(l, l[k]), e)
  {
    WithoutAt(l, k);
    assert l[k] !in l[..e];
    hide Distinct, Without;
    assert [l[k]] + l[..e][..e - 1] == Take([l[k]] + (l[..k] + l[k + 1..]), e);
  }

  // ---------- whole caches ----------

  /** One line of a trace file: an instruction fetch, a load, a store, a modify, or anything else. */
  datatype Access = Access(op: char, address: nat)

  /** Counted without wrap-around. */
  datatype Counts = Counts(hits: nat, misses: nat, evictions: nat)

  /** The recency list of every set, and what has been counted. */
  datatype Cache = Cache(sets: seq<seq<Tag>>, counts: Counts)

  function SetIndex(address: nat, s: nat, b: nat): (i: nat)
    ensures i < Pow2(s)
  {
    address / Pow2(b) % Pow2(s)
  }

  function TagOf(address: nat, s: nat, b: nat): Tag { address / Pow2(b + s) }

  /** Set index and tag together name the block. */
  lemma SameBlock(x: nat, y: nat, s: nat, b: nat)
    ensures SetIndex(x, s, b) == SetIndex(y, s, b) && TagOf(x, s, b) == TagOf(y, s, b) <==> x / Pow2(b) == y / Pow2(b)
  {
    hide Pow2, TagOf;
    TagIsHighPart(x, s, b);
    TagIsHighPart(y, s, b);
    SamePair(x / Pow2(b), y / Pow2(b), Pow2(s));
  }

  lemma TagIsHighPart(x: nat, s: nat, b: nat)
    ensures TagOf(x, s, b) == x / Pow2(b) / Pow2(s)
  {
    hide Pow2;
    Pow2Sum(b, s);
    DivTwice(x, Pow2(b), Pow2(s));
  }

  lemma SamePair(p: nat, q: nat, m: nat)
    requires m >= 1
    ensures p / m == q / m && p % m == q % m <==> p == q
  {
    DivMod(p, m);
    DivMod(q, m);
    if p / m == q / m && p % m == q % m {
      assert m * (p / m) == m * (q / m);
    }
  }

  function Count(c: Counts, o: Outcome): Counts {
    match o
    case Hit => c.(hits := c.hits + 1)
    case Miss => c.(misses := c.misses + 1)
    case Eviction => c.(misses := c.misses + 1, evictions := c.evictions + 1)
  }

  /** `cacheVisitAddress` on recency lists of at most `e` tags. */
  function VisitAddress(c: Cache, s: nat, b: nat, e: nat, address: nat): Cache
    requires |c.sets| == Pow2(s) && e >= 1
  {
    var i, t := SetIndex(address, s, b), TagOf(address, s, b);
    Cache(c.sets[i := Touch(c.sets[i], t, e)], Count(c.counts, Visit(c.sets[i], t, e)))
  }

  /** How often a trace line visits its address. */
  function Visits(op: char): nat {
    if op == 'M' then 2 else if op == 'L' || op == 'S' then 1 else 0
  }

  function Repeat(c: Cache, s: nat, b: nat, e: nat, address: nat, n: nat): (r: Cache)
    requires |c.sets| == Pow2(s) && e >= 1
    ensures |r.sets| == Pow2(s)
  {
    if n == 0 then c else VisitAddress(Repeat(c, s, b, e, address, n - 1), s, b, e, address)
  }

  function Run(c: Cache, s: nat, b: nat, e: nat, trace: seq<Access>): (r: Cache)
    requires |c.sets| == Pow2(s) && e >= 1
    ensures |r.sets| == Pow2(s)
  {
    if trace == [] then c
    else
      var last := trace[|trace| - 1];
      Repeat(Run(c, s, b, e, trace[..|trace| - 1]), s, b, e, last.address, Visits(last.op))
  }

  function Empty(s: nat): Cache { Cache(seq(Pow2(s), _ => []), Counts(0, 0, 0)) }

  function TotalVisits(trace: seq<Access>): nat {
    if trace == [] then 0 else TotalVisits(trace[..|trace| - 1]) + Visits(trace[|trace| - 1].op)
  }

  // ---------- conservation ----------

  function Resident(sets: seq<seq<Tag>>): nat {
    if sets == [] then 0 else |sets[0]| + Resident(sets[1..])
  }

  lemma {:induction false} ResidentUpdate(sets: seq<seq<Tag>>, i: nat, l: seq<Tag>)
    requires i < |sets|
    ensures Resident(sets[i := l]) == Resident(sets) - |sets[i]| + |l|
  {
    if i > 0 {
      ResidentUpdate(sets[1..], i - 1, l);
      assert sets[i := l][1..] == sets[1..][i - 1 := l];
    } else {
      assert sets[i := l][1..] == sets[1..];
    }
  }

  lemma {:induction false} ResidentEmpty(n: nat)
    ensures Resident(seq(n, _ => [])) == 0
  {
    if n > 0 {
      var z: seq<seq<Tag>> := seq(n, _ => []);
      assert z[1..] == seq(n - 1, _ => []);
      ResidentEmpty(n - 1);
    }
  }

  predicate Fits(c: Cache, e: nat) {
    forall i :: 0 <= i < |c.sets| ==> Distinct(c.sets[i]) && |c.sets[i]| <= e
  }

  /** After `visits` visits. */
  predicate Balanced(c: Cache, visits: nat) {
    && c.counts.hits + c.counts.misses == visits
    && c.counts.misses - c.counts.evictions == Resident(c.sets)
  }

  lemma VisitBalance(c: Cache, s: nat, b: nat, e: nat, address: nat, visits: nat)
    requires |c.sets| == Pow2(s) && e >= 1 && Fits(c, e) && Balanced(c, visits)
    ensures Fits(VisitAddress(c, s, b, e, address), e) && Balanced(VisitAddress(c, s, b, e, address), visits + 1)
  {
    var i, t := SetIndex(address, s, b), TagOf(address, s, b);
    TouchKeeps(c.sets[i], t, e);
    ResidentUpdate(c.sets, i, Touch(c.sets[i], t, e));
  }

  lemma {:induction false} RepeatBalance(c: Cache, s: nat, b: nat, e: nat, address: nat, n: nat, visits: nat)
    requires |c.sets| == Pow2(s) && e >= 1 && Fits(c, e) && Balanced(c, visits)
    ensures var r := Repeat(c, s, b, e, address, n);
            Fits(r, e) && Balanced(r, visits + n)
  {
    if n > 0 {
      RepeatBalance(c, s, b, e, address, n - 1, visits);
      VisitBalance(Repeat(c, s, b, e, address, n - 1), s, b, e, address, visits + n - 1);
    }
  }

  /** Hits and misses make up the visits; misses that evicted nothing filled the lines. */
  lemma {:induction false} RunBalance(s: nat, b: nat, e: nat, trace: seq<Access>)
    requires e >= 1
    ensures var r := Run(Empty(s), s, b, e, trace);
            Fits(r, e) && Balanced(r, TotalVisits(trace))
  {
    if trace == [] {
      ResidentEmpty(Pow2(s));
    } else {
      var n := |trace| - 1;
      RunBalance(s, b, e, trace[..n]);
      var c := Run(Empty(s), s, b, e, trace[..n]);
      RepeatBalance(c, s, b, e, trace[n].address, Visits(trace[n].op), TotalVisits(trace[..n]));
    }
  }

  // ---------- inclusion ----------

  /** Both caches hold prefixes of the same unbounded lists, and the larger one has missed and evicted no more. */
  predicate Included(u: seq<seq<Tag>>, c1: Cache, e1: nat, c2: Cache, e2: nat) {
    && |u| == |c1.sets| == |c2.sets|
    && (forall i :: 0 <= i < |u| ==> Distinct(u[i]) && c1.sets[i] == Take(u[i], e1) && c2.sets[i] == Take(u[i], e2))
    && c1.counts.misses >= c2.counts.misses && c1.counts.hits <= c2.counts.hits
    && c1.counts.evictions >= c2.counts.evictions
  }

  lemma CompareVisits(l: seq<Tag>, t: Tag, e1: nat, e2: nat)
    requires e1 <= e2
    ensures var o1, o2 := Visit(Take(l, e1), t, e1), Visit(Take(l, e2), t, e2);
            && (o1 == Hit ==> o2 == Hit) && (o2 == Eviction ==> o1 == Eviction)
  {
    if t in Take(l, e1) {
      var k :| 0 <= k < |Take(l, e1)| && Take(l, e1)[k] == t;
      assert Take(l, e2)[k] == t;
    }
  }

  lemma VisitIncluded(u: seq<seq<Tag>>, c1: Cache, e1: nat, c2: Cache, e2: nat, s: nat, b: nat,
                      address: nat) returns (u1: seq<seq<Tag>>)
    requires |u| == Pow2(s) && 1 <= e1 <= e2 && Included(u, c1, e1, c2, e2)
    ensures |u1| == Pow2(s)
    ensures Included(u1, VisitAddress(c1, s, b, e1, address), e1, VisitAddress(c2, s, b, e2, address), e2)
  {
    hide Move, Touch, Distinct, Take, Visit, SetIndex, TagOf;
    var i, t := SetIndex(address, s, b), TagOf(address, s, b);
    u1 := u[i := Move(u[i], t)];
    MoveKeeps(u[i], t);
    TouchIsTake(u[i], t, e1);
    TouchIsTake(u[i], t, e2);
    CompareVisits(u[i], t, e1, e2);
  }

  lemma {:induction false} RepeatIncluded(u: seq<seq<Tag>>, c1: Cache, e1: nat, c2: Cache, e2: nat, s: nat, b: nat,
                                          address: nat, n: nat)
      returns (u1: seq<seq<Tag>>)
    requires |u| == Pow2(s) && 1 <= e1 <= e2 && Included(u, c1, e1, c2, e2)
    ensures |u1| == Pow2(s)
    ensures Included(u1, Repeat(c1, s, b, e1, address, n), e1, Repeat(c2, s, b, e2, address, n), e2)
  {
    u1 := u;
    if n > 0 {
      var v := RepeatIncluded(u, c1, e1, c2, e2, s, b, address, n - 1);
      var d1, d2 := Repeat(c1, s, b, e1, address, n - 1), Repeat(c2, s, b, e2, address, n - 1);
      u1 := VisitIncluded(v, d1, e1, d2, e2, s, b, address);
    }
  }

  lemma {:induction false} RunIncluded(e1: nat, e2: nat, s: nat, b: nat, trace: seq<Access>) returns (u: seq<seq<Tag>>)
    requires 1 <= e1 <= e2
    ensures |u| == Pow2(s) && Included(u, Run(Empty(s), s, b, e1, trace), e1, Run(Empty(s), s, b, e2, trace), e2)
  {
    u := seq(Pow2(s), _ => []);
    if trace != [] {
      var n := |trace| - 1;
      var v := RunIncluded(e1, e2, s, b, trace[..n]);
      u := RepeatIncluded(v, Run(Empty(s), s, b, e1, trace[..n]), e1, Run(Empty(s), s, b, e2, trace[..n]), e2,
                          s, b, trace[n].address, Visits(trace[n].op));
    }
  }

  /** Inclusion: after every trace, and so after every prefix of one, each block in the cache with fewer lines a set is
      in the cache with more, which has missed and evicted no more often. */
  lemma MoreLinesNeverWorse(e1: nat, e2: nat, s: nat, b: nat, trace: seq<Access>)
    requires 1 <= e1 <= e2
    ensures var c1, c2 := Run(Empty(s), s, b, e1, trace), Run(Empty(s), s, b, e2, trace);
            && c1.counts.misses >= c2.counts.misses && c1.counts.hits <= c2.counts.hits
            && c1.counts.evictions >= c2.counts.evictions
            && forall i, t :: 0 <= i < Pow2(s) && t in c1.sets[i] ==> t in c2.sets[i]
  {
    var u := RunIncluded(e1, e2, s, b, trace);
  }
}
