/** The K-best sampler of `fcyc.c`: the smallest samples seen so far, kept sorted in place. Times are reals. */
module KBest {

  predicate Sorted(s: seq<real>) { forall i, j :: 0 <= i < j < |s| ==> s[i] <= s[j] }

  /** Where a value from the end comes to rest: behind the last entry that is not larger. */
  function Place(s: seq<real>, v: real): (p: nat)
    ensures p <= |s| && (p > 0 ==> s[p - 1] <= v)
    ensures forall i :: p <= i < |s| ==> v < s[i]
  {
    if s == [] || s[|s| - 1] <= v then |s| else Place(s[..|s| - 1], v)
  }

  function Insert(s: seq<real>, v: real): seq<real> { s[..Place(s, v)] + [v] + s[Place(s, v)..] }

  /** All samples in order. */
  function InOrder(samples: seq<real>): seq<real> {
    if samples == [] then [] else Insert(InOrder(samples[..|samples| - 1]), samples[|samples| - 1])
  }

  function Take(s: seq<real>, k: nat): seq<real> { if |s| <= k then s else s[..k] }

  lemma InsertKeeps(s: seq<real>, v: real)
    requires Sorted(s)
    ensures Sorted(Insert(s, v)) && multiset(Insert(s, v)) == multiset(s) + multiset{v} && |Insert(s, v)| == |s| + 1
  {
    hide Place;
    var p := Place(s, v);
    PutSorted(s, p, v);
    PutMultiset(s, p, v);
  }

  lemma PutSorted(s: seq<real>, p: nat, v: real)
    requires Sorted(s) && p <= |s| && (p > 0 ==> s[p - 1] <= v) && (p < |s| ==> v < s[p])
    ensures Sorted(s[..p] + [v] + s[p..])
  {
    var t := s[..p] + [v] + s[p..];
    forall i, j | 0 <= i < j < |t|
      ensures t[i] <= t[j]
    {
      assert t[i] == if i < p then s[i] else if i == p then v else s[i - 1];
      assert t[j] == if j < p then s[j] else if j == p then v else s[j - 1];
      assert i < p ==> s[i] <= s[p - 1];
      assert j > p ==> s[p] <= s[j - 1];
    }
  }

  lemma PutMultiset(s: seq<real>, p: nat, v: real)
    requires p <= |s|
    ensures multiset(s[..p] + [v] + s[p..]) == multiset(s) + multiset{v}
  {
    assert s == s[..p] + s[p..];
  }

  /** Sorting keeps every sample. */
  lemma {:induction false} InOrderSorts(samples: seq<real>)
    ensures Sorted(InOrder(samples)) && multiset(InOrder(samples)) == multiset(samples)
    ensures |InOrder(samples)| == |samples|
  {
    if samples != [] {
      var n := |samples| - 1;
      InOrderSorts(samples[..n]);
      InsertKeeps(InOrder(samples[..n]), samples[n]);
      assert samples == samples[..n] + [samples[n]];
    }
  }

  /** No sample left out is smaller than one kept. */
  lemma KeptAreSmallest(samples: seq<real>, k: nat)
    ensures var s := InOrder(samples);
            && Take(s, k) + s[|Take(s, k)|..] == s && Sorted(Take(s, k)) && |Take(s, k)| == Min(|samples|, k)
            && multiset(Take(s, k)) + multiset(s[|Take(s, k)|..]) == multiset(samples)
            && forall i, j :: 0 <= i < |Take(s, k)| <= j < |s| ==> Take(s, k)[i] <= s[j]
  {
    InOrderSorts(samples);
    hide InOrder;
    var s := InOrder(samples);
    assert Take(s, k) + s[|Take(s, k)|..] == s;
  }

  function Min(a: int, b: int): int { if a < b then a else b }

  /** One comparison of the insertion loop. */
  lemma PlaceStep(s: seq<real>, pos: nat, v: real)
    requires pos <= |s|
    ensures Place(s[..pos], v) == if pos > 0 && s[pos - 1] > v then Place(s[..pos - 1], v) else pos
  {
    if pos > 0 {
      assert s[..pos][..pos - 1] == s[..pos - 1];
    }
  }

  lemma InOrderStep(samples: seq<real>, v: real)
    ensures InOrder(samples + [v]) == Insert(InOrder(samples), v)
  {
    assert (samples + [v])[..|samples|] == samples;
  }

  /** Entries behind the place do not matter. */
  lemma {:induction false} PlaceInPrefix(s: seq<real>, v: real, m: nat)
    requires Place(s, v) <= m <= |s|
    ensures Place(s[..m], v) == Place(s, v)
  {
    if m < |s| {
      assert s[|s| - 1] > v;
      assert s[..|s| - 1][..m] == s[..m];
      PlaceInPrefix(s[..|s| - 1], v, m);
    } else {
      assert s[..m] == s;
    }
  }

  /** A sample below the worst of `k` kept ones takes its seat. */
  lemma InsertBelow(s: seq<real>, k: nat, v: real)
    requires Sorted(s) && 1 <= k <= |s| && v < s[k - 1]
    ensures Take(Insert(s, v), k) == Insert(s[..k - 1], v)
  {
    hide Place;
    var p := Place(s, v);
    assert p > 0 ==> s[p - 1] <= v;
    assert p <= k - 1;
    PlaceInPrefix(s, v, k - 1);
    PrefixPut(s, p, v, k);
  }

  lemma PrefixPut(s: seq<real>, p: nat, v: real, k: nat)
    requires p <= k - 1 < |s|
    ensures Take(s[..p] + [v] + s[p..], k) == s[..k - 1][..p] + [v] + s[..k - 1][p..]
  {
  }

  /** Any other sample changes nothing. */
  lemma InsertAbove(s: seq<real>, k: nat, v: real)
    requires Sorted(s) && 1 <= k <= |s| && v >= s[k - 1]
    ensures Take(Insert(s, v), k) == s[..k]
  {
    assert Place(s, v) >= k;
  }

  /** What a sample does to the `k` kept ones. */
  lemma TakeStep(s: seq<real>, k: nat, v: real)
    requires Sorted(s) && k >= 1
    ensures Take(s, k) == if |s| < k then s else s[..k]
    ensures Take(Insert(s, v), k) == if |s| < k then Insert(s, v) else if v < s[k - 1] then Insert(s[..k - 1], v) else s[..k]
    ensures |Insert(s, v)| == |s| + 1 && |Take(Insert(s, v), k)| == Min(|s| + 1, k)
  {
    InsertKeeps(s, v);
    hide Insert, Sorted;
    if |s| >= k {
      if v < s[k - 1] {
        InsertBelow(s, k, v);
      } else {
        InsertAbove(s, k, v);
      }
    }
  }

  class Sampler {
    const kbest: nat
    const values: array<real>
    var samplecount: nat
    ghost var samples: seq<real>

    ghost predicate Valid()
      reads this, values
    {
      && kbest >= 1 && values.Length == kbest && samplecount == |samples|
      && Best() == Take(InOrder(samples), kbest)
    }

    function Best(): seq<real>
      reads this, values
    {
      values[..Min(samplecount, values.Length)]
    }

    /** `init_sampler`. */
    constructor (kbest: nat)
      requires kbest >= 1
      ensures Valid() && fresh(values) && samples == [] && this.kbest == kbest
    {
      this.kbest := kbest;
      values := new real[kbest](_ => 0.0);
      samplecount, samples := 0, [];
    }

    /** The insertion loop: the value behind the sorted part `s` moves down to its place. */
    method SiftDown(last: nat, ghost s: seq<real>, ghost v: real)
      requires last < values.Length && values[..last + 1] == s + [v]
      modifies values
      ensures values[..last + 1] == Insert(s, v)
      ensures forall i :: last < i < values.Length ==> values[i] == old(values[i])
    {
      hide Place;
      assert |values[..last + 1]| == |s| + 1;
      assert forall i :: 0 <= i < last ==> values[i] == values[..last + 1][i] == s[i];
      assert values[last] == values[..last + 1][last] == v;
      var pos := last;
      while pos > 0 && values[pos - 1] > values[pos]
        invariant 0 <= pos <= last == |s| && values[pos] == v
        invariant forall i :: 0 <= i < pos ==> values[i] == s[i]
        invariant forall i :: pos < i <= last ==> values[i] == s[i - 1]
        invariant pos <= |s| && Place(s[..|s|], v) == Place(s[..pos], v)
        invariant forall i :: last < i < values.Length ==> values[i] == old(values[i])
      {
        PlaceStep(s, pos, v);
        var temp := values[pos - 1];
        values[pos - 1] := values[pos];
        values[pos] := temp;
        pos := pos - 1;
      }
      PlaceStep(s, pos, v);
      assert s[..|s|] == s;
      assert values[..last + 1] == s[..pos] + [v] + s[pos..];
    }

    /** `add_sample`. */
    method AddSample(val: real)
      requires Valid()
      modifies this`samplecount, this`samples, values
      ensures Valid() && samples == old(samples) + [val] && samplecount == old(samplecount) + 1
    {
      hide Place, Insert, InOrder, Sorted, Take;
      ghost var s := InOrder(samples);
      InOrderSorts(samples);
      InOrderStep(samples, val);
      TakeStep(s, kbest, val);
      if samplecount < kbest {
        StoreSample(samplecount, s, val);
      } else if val < values[kbest - 1] {
        StoreSample(kbest - 1, s[..kbest - 1], val);
      }
      samplecount, samples := samplecount + 1, samples + [val];
    }

    method StoreSample(pos: nat, ghost s: seq<real>, val: real)
      requires pos < values.Length && values[..pos] == s
      modifies values
      ensures values[..pos + 1] == Insert(s, val)
    {
      hide Insert;
      values[pos] := val;
      assert values[..pos + 1] == s + [val];
      SiftDown(pos, s, val);
    }

    /** `has_converged`. */
    method HasConverged(epsilon: real) returns (r: bool)
      requires Valid()
      ensures r <==> Steady(samples, kbest, epsilon)
    {
      hide Within, InOrder, Sorted, Steady;
      ConvergedMeansSteady(samples, kbest, epsilon);
      InOrderSorts(samples);
      assert samplecount >= kbest ==> Best()[0] == values[0] && Best()[kbest - 1] == values[kbest - 1];
      r := samplecount >= kbest && Within(epsilon, values[0], values[kbest - 1]);
    }
  }

  /** At least `k` samples exceed the least of all by no more than `epsilon` times it. */
  ghost predicate Steady(samples: seq<real>, k: nat, epsilon: real) {
    exists low :: IsMinimum(low, samples) && CountUpTo(samples, Above(low, epsilon)) >= k
  }

  function Above(low: real, epsilon: real): real { low + epsilon * low }

  function CountUpTo(s: seq<real>, bound: real): nat {
    if s == [] then 0 else CountUpTo(s[..|s| - 1], bound) + if s[|s| - 1] <= bound then 1 else 0
  }

  /** The test of the code, on the sorted samples. */
  predicate Converged(samples: seq<real>, k: nat, epsilon: real)
    requires k >= 1
  {
    |InOrder(samples)| >= k && Within(epsilon, InOrder(samples)[0], InOrder(samples)[k - 1])
  }

  predicate Within(epsilon: real, low: real, high: real) { (1.0 + epsilon) * low >= high }

  lemma {:induction false} CountConcat(s: seq<real>, t: seq<real>, bound: real)
    ensures CountUpTo(s + t, bound) == CountUpTo(s, bound) + CountUpTo(t, bound)
  {
    if t == [] {
      assert s + t == s;
    } else {
      var n := |t| - 1;
      CountConcat(s, t[..n], bound);
      assert (s + t)[..|s| + n] == s + t[..n];
    }
  }

  lemma CountInsert(s: seq<real>, v: real, bound: real)
    ensures CountUpTo(Insert(s, v), bound) == CountUpTo(s, bound) + if v <= bound then 1 else 0
  {
    hide Place;
    var p := Place(s, v);
    CountConcat(s[..p], [v], bound);
    CountConcat(s[..p] + [v], s[p..], bound);
    CountConcat(s[..p], s[p..], bound);
    assert s[..p] + s[p..] == s;
    assert CountUpTo([v], bound) == if v <= bound then 1 else 0;
    hide CountUpTo;
  }

  lemma {:induction false} CountSamples(samples: seq<real>, bound: real)
    ensures CountUpTo(InOrder(samples), bound) == CountUpTo(samples, bound)
  {
    hide Insert;
    if samples != [] {
      var n := |samples| - 1;
      CountSamples(samples[..n], bound);
      CountInsert(InOrder(samples[..n]), samples[n], bound);
    }
  }

  /** In a sorted sequence the samples up to a bound come first. */
  lemma {:induction false} CountSorted(s: seq<real>, bound: real, k: nat)
    requires Sorted(s) && k >= 1
    ensures CountUpTo(s, bound) <= |s|
    ensures CountUpTo(s, bound) >= k <==> |s| >= k && s[k - 1] <= bound
  {
    if s != [] {
      var n := |s| - 1;
      CountSorted(s[..n], bound, if k <= n then k else 1);
      if s[n] <= bound && n >= 1 {
        CountSorted(s[..n], bound, n);
      }
    }
  }

  lemma ConvergedMeansSteady(samples: seq<real>, k: nat, epsilon: real)
    requires k >= 1
    ensures Converged(samples, k, epsilon) <==> Steady(samples, k, epsilon)
  {
    InOrderSorts(samples);
    hide InOrder, Sorted, Above, Within;
    if samples != [] {
      FirstIsMinimum(samples);
      var low := InOrder(samples)[0];
      CountSamples(samples, Above(low, epsilon));
      CountSorted(InOrder(samples), Above(low, epsilon), k);
      if |samples| >= k {
        WithinAbove(epsilon, low, InOrder(samples)[k - 1]);
      }
    }
  }

  lemma WithinAbove(epsilon: real, low: real, high: real)
    ensures Within(epsilon, low, high) <==> high <= Above(low, epsilon)
  {
    assert (1.0 + epsilon) * low == low + epsilon * low;
  }

  function Times(time: nat -> real, n: nat): seq<real> { seq(n, i requires 0 <= i < n => time(i)) }

  /** The sampling loop of `fcyc`; `time(i)` is what the timer shows for run `i`. It ends at the first count of
      samples that have converged or are enough, and returns the least time seen. */
  method Fcyc(time: nat -> real, kbest: nat, maxsamples: nat, epsilon: real) returns (result: real, n: nat)
    requires kbest >= 1
    ensures 1 <= n && (n <= maxsamples || n == 1)
    ensures n < maxsamples ==> Steady(Times(time, n), kbest, epsilon)
    ensures forall m :: 1 <= m < n ==> !Steady(Times(time, m), kbest, epsilon)
    ensures IsMinimum(result, Times(time, n))
  {
    hide Steady, InOrder;
    var sampler := new Sampler(kbest);
    n := 0;
    while true
      invariant sampler.Valid() && fresh(sampler) && fresh(sampler.values) && sampler.kbest == kbest
      invariant n == sampler.samplecount && sampler.samples == Times(time, n)
      invariant n == 0 || n < maxsamples
      invariant forall m :: 1 <= m <= n ==> !Steady(Times(time, m), kbest, epsilon)
      decreases maxsamples + 1 - n
    {
      sampler.AddSample(time(n));
      n := n + 1;
      assert Times(time, n) == Times(time, n - 1) + [time(n - 1)];
      var converged := sampler.HasConverged(epsilon);
      if converged || n >= maxsamples {
        break;
      }
    }
    FirstIsMinimum(sampler.samples);
    result := sampler.values[0];
    assert sampler.Best()[0] == result;
  }

  predicate IsMinimum(x: real, s: seq<real>) { x in s && forall y :: y in s ==> x <= y }

  lemma FirstIsMinimum(samples: seq<real>)
    requires samples != []
    ensures |InOrder(samples)| == |samples| && IsMinimum(InOrder(samples)[0], samples)
  {
    InOrderSorts(samples);
    var s := InOrder(samples);
    forall y | y in samples
      ensures s[0] <= y
    {
      assert y in multiset(samples);
      assert y in s;
    }
    assert s[0] in multiset(s);
  }
}
