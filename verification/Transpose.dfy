/** `trans.c`: transposing in cache-sized blocks. The 64x64 form parks blocks in parts of the output that are
    written later. */
module Transpose {

  predicate Shapes(A: array2<int>, B: array2<int>) {
    A != B && B.Length0 == A.Length1 && B.Length1 == A.Length0
  }

  predicate Transposed(A: array2<int>, B: array2<int>)
    requires Shapes(A, B)
    reads A, B
  {
    forall c, r :: 0 <= c < B.Length0 && 0 <= r < B.Length1 ==> B[c, r] == A[r, c]
  }

  /** Rows `c0` to `c1` of the output hold their columns of the input, in columns `r0` to `r1`. */
  predicate Done(A: array2<int>, B: array2<int>, c0: int, c1: int, r0: int, r1: int)
    requires Shapes(A, B)
    reads A, B
  {
    forall c, r :: c0 <= c < c1 && 0 <= c < B.Length0 && r0 <= r < r1 && 0 <= r < B.Length1 ==> B[c, r] == A[r, c]
  }

  /** `is_transpose`. */
  method IsTranspose(A: array2<int>, B: array2<int>) returns (ok: bool)
    requires Shapes(A, B)
    ensures ok <==> Transposed(A, B)
  {
    var i := 0;
    while i < A.Length0
      invariant 0 <= i <= A.Length0 && Done(A, B, 0, A.Length1, 0, i)
    {
      var j := 0;
      while j < A.Length1
        invariant 0 <= j <= A.Length1 && Done(A, B, 0, j, i, i + 1)
      {
        if A[i, j] != B[j, i] {
          return false;
        }
        j := j + 1;
      }
      i := i + 1;
    }
    return true;
  }

  /** `trans`, the simple form. */
  method Trans(A: array2<int>, B: array2<int>)
    requires Shapes(A, B)
    modifies B
    ensures Transposed(A, B)
  {
    var i := 0;
    while i < A.Length0
      invariant 0 <= i <= A.Length0 && Done(A, B, 0, A.Length1, 0, i)
    {
      var j := 0;
      while j < A.Length1
        invariant 0 <= j <= A.Length1 && Done(A, B, 0, j, i, i + 1) && Done(A, B, 0, A.Length1, 0, i)
      {
        var tmp := A[i, j];
        B[j, i] := tmp;
        j := j + 1;
      }
      i := i + 1;
    }
  }

  /** The branch for all sizes without a branch of their own. */
  method TransGeneral(A: array2<int>, B: array2<int>)
    requires Shapes(A, B)
    modifies B
    ensures Transposed(A, B)
  {
    var M, N := A.Length1, A.Length0;
    var j := 0;
    while j < M
      invariant 0 <= j && Done(A, B, 0, j, 0, N)
    {
      var i := 0;
      while i < N
        invariant 0 <= i && Done(A, B, 0, j, 0, N) && Done(A, B, j, j + 8, 0, i)
      {
        var ii := 0;
        while ii + i < N && ii < 8
          invariant 0 <= ii <= 8 && Done(A, B, 0, j, 0, N) && Done(A, B, j, j + 8, 0, i + ii)
        {
          var jj := 0;
          while jj + j < M && jj < 8
            invariant 0 <= jj <= 8 && Done(A, B, 0, j, 0, N) && Done(A, B, j, j + 8, 0, i + ii)
            invariant Done(A, B, j, j + jj, i + ii, i + ii + 1)
          {
            var t0 := A[ii + i, jj + j];
            B[jj + j, ii + i] := t0;
            jj := jj + 1;
          }
          ii := ii + 1;
        }
        i := i + 8;
      }
      j := j + 8;
    }
  }

  /** Eight entries of one column of the input become eight entries of one row of the output. */
  method CopyColumn(A: array2<int>, B: array2<int>, i: int, c: int)
    requires Shapes(A, B) && 0 <= i && i + 8 <= A.Length0 && 0 <= c < A.Length1
    modifies B
    ensures Done(A, B, c, c + 1, i, i + 8)
    ensures forall x, y :: 0 <= x < B.Length0 && 0 <= y < B.Length1 && !(x == c && i <= y < i + 8) ==>
              B[x, y] == old(B[x, y])
  {
    var t0, t1, t2, t3 := A[0 + i, c], A[1 + i, c], A[2 + i, c], A[3 + i, c];
    var t4, t5, t6, t7 := A[4 + i, c], A[5 + i, c], A[6 + i, c], A[7 + i, c];
    B[c, 0 + i], B[c, 1 + i], B[c, 2 + i], B[c, 3 + i] := t0, t1, t2, t3;
    B[c, 4 + i], B[c, 5 + i], B[c, 6 + i], B[c, 7 + i] := t4, t5, t6, t7;
  }

  /** The row groups 0..7, 8..15, ... read while `i < rows` stay inside the input exactly if the rows are a
      multiple of eight. */
  lemma RowGroupsFit(rows: nat)
    ensures (forall i :: 0 <= i < rows && i % 8 == 0 ==> i + 7 < rows) <==> rows % 8 == 0
  {
    var last := rows - rows % 8;
    assert last % 8 == 0;
  }

  /** The branch for 32 columns. It reads eight rows at a time, so their number has to be a multiple of eight. */
  method Trans32(A: array2<int>, B: array2<int>)
    requires Shapes(A, B) && A.Length1 == 32 && A.Length0 % 8 == 0
    modifies B
    ensures Transposed(A, B)
  {
    var M, N := A.Length1, A.Length0;
    var j := 0;
    while j < M
      invariant 0 <= j && Done(A, B, 0, j, 0, N)
    {
      var i := 0;
      while i < N
        invariant 0 <= i <= N && i % 8 == 0 && Done(A, B, 0, j, 0, N) && Done(A, B, j, j + 8, 0, i)
      {
        var jj := 0;
        while jj + j < M && jj < 8
          invariant 0 <= jj <= 8 && Done(A, B, 0, j, 0, N) && Done(A, B, j, j + 8, 0, i)
          invariant Done(A, B, j, j + jj, i, i + 8)
        {
          CopyColumn(A, B, i, jj + j);
          jj := jj + 1;
        }
        i := i + 8;
      }
      j := j + 8;
    }
  }

  // ---------- 64x64 ----------

  predicate Square64(A: array2<int>, B: array2<int>) {
    Shapes(A, B) && A.Length0 == 64 && A.Length1 == 64
  }

  /** The output may have changed only in rows `j` to `j + 8`, columns `k` to `k + 8`. */
  twostate predicate Inside(B: array2<int>, j: int, k: int)
    reads B
  {
    forall c, r :: 0 <= c < B.Length0 && 0 <= r < B.Length1 && !(j <= c < j + 8 && k <= r < k + 8) ==>
      B[c, r] == old(B[c, r])
  }

  /** `B[j + x, k + y] == A[i + y, j + x]` for the given ranges: the input block at row `i` stands at column `k`. */
  predicate Block(A: array2<int>, B: array2<int>, i: int, j: int, k: int, x0: int, x1: int, y0: int, y1: int)
    requires Square64(A, B) && 0 <= i <= 56 && 0 <= j <= 56 && 0 <= k <= 56
    reads A, B
  {
    forall c, r :: j + x0 <= c < j + x1 && j <= c < j + 8 && k + y0 <= r < k + y1 && k <= r < k + 8 ==>
      B[c, r] == A[i + (r - k), c]
  }

  /** The lower left quarter, still to come, stands in the upper right one. */
  predicate Parked(A: array2<int>, B: array2<int>, i: int, j: int, k: int, x0: int, x1: int, y1: int)
    requires Square64(A, B) && 0 <= i <= 56 && 0 <= j <= 56 && 0 <= k <= 56
    reads A, B
  {
    forall c, r :: j + x0 <= c < j + x1 && j <= c < j + 4 && k + 4 <= r < k + 4 + y1 && r < k + 8 ==>
      B[c, r] == A[i + (r - k - 4), c + 4]
  }

  method UpperRow(A: array2<int>, B: array2<int>, i: int, j: int, k: int, ii: int)
    requires Square64(A, B) && 0 <= i <= 56 && 0 <= j <= 56 && 0 <= k <= 56 && 0 <= ii < 4
    requires Block(A, B, i, j, k, 0, 4, 0, ii) && Parked(A, B, i, j, k, 0, 4, ii)
    modifies B
    ensures Block(A, B, i, j, k, 0, 4, 0, ii + 1) && Parked(A, B, i, j, k, 0, 4, ii + 1)
    ensures Inside(B, j, k)
  {
    var t0, t1, t2, t3 := A[i + ii, j], A[i + ii, j + 1], A[i + ii, j + 2], A[i + ii, j + 3];
    var t4, t5, t6, t7 := A[i + ii, j + 4], A[i + ii, j + 5], A[i + ii, j + 6], A[i + ii, j + 7];
    B[j, k + ii], B[j + 1, k + ii], B[j + 2, k + ii], B[j + 3, k + ii] := t0, t1, t2, t3;
    B[j, k + 4 + ii], B[j + 1, k + 4 + ii], B[j + 2, k + 4 + ii], B[j + 3, k + 4 + ii] := t4, t5, t6, t7;
  }

  /** Four parked entries of one row move down by four rows; entries of the input take their place. */
  method ExchangeEntries(A: array2<int>, B: array2<int>, i: int, c: int, k: int)
    requires Square64(A, B) && 0 <= i <= 56 && 0 <= c < 60 && 0 <= k <= 56
    modifies B
    ensures forall r :: k + 4 <= r < k + 8 ==> B[c, r] == A[i + (r - k), c]
    ensures forall x, r :: x == c + 4 && k <= r < k + 4 ==> B[x, r] == old(B[x - 4, r + 4])
    ensures forall x, r :: 0 <= x < 64 && 0 <= r < 64 && !(x == c && k + 4 <= r < k + 8) && !(x == c + 4 && k <= r < k + 4) ==>
              B[x, r] == old(B[x, r])
  {
    var t0, t1, t2, t3 := A[i + 4, c], A[i + 5, c], A[i + 6, c], A[i + 7, c];
    var t4, t5, t6, t7 := B[c, k + 4], B[c, k + 5], B[c, k + 6], B[c, k + 7];
    B[c, k + 4], B[c, k + 5], B[c, k + 6], B[c, k + 7] := t0, t1, t2, t3;
    B[c + 4, k], B[c + 4, k + 1], B[c + 4, k + 2], B[c + 4, k + 3] := t4, t5, t6, t7;
  }

  method Exchange(A: array2<int>, B: array2<int>, i: int, j: int, k: int, jj: int)
    requires Square64(A, B) && 0 <= i <= 56 && 0 <= j <= 56 && 0 <= k <= 56 && 0 <= jj < 4
    requires Block(A, B, i, j, k, 0, 4, 0, 4) && Parked(A, B, i, j, k, jj, 4, 4)
    requires Block(A, B, i, j, k, 0, jj, 4, 8) && Block(A, B, i, j, k, 4, 4 + jj, 0, 4)
    modifies B
    ensures Block(A, B, i, j, k, 0, 4, 0, 4) && Parked(A, B, i, j, k, jj + 1, 4, 4)
    ensures Block(A, B, i, j, k, 0, jj + 1, 4, 8) && Block(A, B, i, j, k, 4, 5 + jj, 0, 4)
    ensures Inside(B, j, k)
  {
    ExchangeEntries(A, B, i, j + jj, k);
  }

  method LowerRow(A: array2<int>, B: array2<int>, i: int, j: int, k: int, ii: int)
    requires Square64(A, B) && 0 <= i <= 56 && 0 <= j <= 56 && 0 <= k <= 56 && 4 <= ii < 8
    requires Block(A, B, i, j, k, 0, 4, 0, 8) && Block(A, B, i, j, k, 4, 8, 0, ii)
    modifies B
    ensures Block(A, B, i, j, k, 0, 4, 0, 8) && Block(A, B, i, j, k, 4, 8, 0, ii + 1)
    ensures Inside(B, j, k)
  {
    var t1, t2, t3, t4 := A[i + ii, j + 4], A[i + ii, j + 5], A[i + ii, j + 6], A[i + ii, j + 7];
    B[j + 4, k + ii], B[j + 5, k + ii], B[j + 6, k + ii], B[j + 7, k + ii] := t1, t2, t3, t4;
  }

  /** The 8x8 block of the input at row `i`, column `j` is written, transposed, to row `j`, column `k` of the
      output, by way of the output itself. */
  method PutBlock(A: array2<int>, B: array2<int>, i: int, j: int, k: int)
    requires Square64(A, B) && 0 <= i <= 56 && 0 <= j <= 56 && 0 <= k <= 56
    modifies B
    ensures Block(A, B, i, j, k, 0, 8, 0, 8) && Inside(B, j, k)
  {
    var ii := 0;
    while ii < 4
      invariant 0 <= ii <= 4 && Inside(B, j, k)
      invariant Block(A, B, i, j, k, 0, 4, 0, ii) && Parked(A, B, i, j, k, 0, 4, ii)
    {
      UpperRow(A, B, i, j, k, ii);
      ii := ii + 1;
    }
    var jj := 0;
    while jj < 4
      invariant 0 <= jj <= 4 && Inside(B, j, k)
      invariant Block(A, B, i, j, k, 0, 4, 0, 4) && Parked(A, B, i, j, k, jj, 4, 4)
      invariant Block(A, B, i, j, k, 0, jj, 4, 8) && Block(A, B, i, j, k, 4, 4 + jj, 0, 4)
    {
      Exchange(A, B, i, j, k, jj);
      jj := jj + 1;
    }
    ii := 4;
    while ii < 8
      invariant 4 <= ii <= 8 && Inside(B, j, k)
      invariant Block(A, B, i, j, k, 0, 4, 0, 8) && Block(A, B, i, j, k, 4, 8, 0, ii)
    {
      LowerRow(A, B, i, j, k, ii);
      ii := ii + 1;
    }
  }

  /** Rows `x0` to `x1` of the diagonal block come back from its parking place. */
  method Fetch(A: array2<int>, B: array2<int>, j: int, k: int, x0: int, x1: int)
    requires Square64(A, B) && 0 <= j <= 56 && 0 <= k <= 56 && (j + 8 <= k || k + 8 <= j) && 0 <= x0 <= x1 <= 8
    requires Block(A, B, j, j, k, 0, 8, 0, 8)
    modifies B
    ensures Block(A, B, j, j, k, 0, 8, 0, 8) && Block(A, B, j, j, j, x0, x1, 0, 8)
    ensures forall c, r :: 0 <= c < 64 && 0 <= r < 64 && !(j + x0 <= c < j + x1 && j <= r < j + 8) ==>
              B[c, r] == old(B[c, r])
  {
    var jj := x0;
    while jj < x1
      invariant x0 <= jj <= x1 && Block(A, B, j, j, k, 0, 8, 0, 8) && Block(A, B, j, j, j, x0, jj, 0, 8)
      invariant forall c, r :: 0 <= c < 64 && 0 <= r < 64 && !(j + x0 <= c < j + jj && j <= r < j + 8) ==>
                B[c, r] == old(B[c, r])
    {
      var ii := 0;
      while ii < 8
        invariant 0 <= ii <= 8 && Block(A, B, j, j, k, 0, 8, 0, 8) && Block(A, B, j, j, j, x0, jj, 0, 8)
        invariant Block(A, B, j, j, j, jj, jj + 1, 0, ii)
        invariant forall c, r :: 0 <= c < 64 && 0 <= r < 64 && !(j + x0 <= c < j + jj + 1 && j <= r < j + 8) ==>
                  B[c, r] == old(B[c, r])
      {
        B[j + jj, j + ii] := B[j + jj, k + ii];
        ii := ii + 1;
      }
      jj := jj + 1;
    }
  }

  /** The columns written when the block loop, which starts after `j` and wraps around, has come to `i`. */
  predicate Passed(j: int, i: int, r: int) { if i > j then j <= r < i else r >= j || r < i }

  lemma PassedNext(j: int, i: int, r: int)
    requires 0 <= j <= 56 && 0 <= i <= 56 && j % 8 == 0 && i % 8 == 0 && i != j && 0 <= r < 64
    ensures var n := (i + 8) % 64;
            && 0 <= n <= 56 && n % 8 == 0 && (n != j ==> (n > j <==> i > j && n != 0))
            && (Passed(j, n, r) ==> Passed(j, i, r) || i <= r < i + 8)
  {
  }

  /** The diagonal block goes to its parking place, eight columns on, and from there to its own. */
  method DiagonalBlock(A: array2<int>, B: array2<int>, j: int)
    requires Square64(A, B) && 0 <= j <= 56 && j % 8 == 0
    modifies B
    ensures Done(A, B, j, j + 8, j, j + 8)
    ensures forall c, r :: 0 <= c < 64 && 0 <= r < 64 && !(j <= c < j + 8) ==> B[c, r] == old(B[c, r])
  {
    var k := (j + 8) % 64;
    PutBlock(A, B, j, j, k);
    Fetch(A, B, j, k, 4, 8);
    Fetch(A, B, j, k, 0, 4);
  }

  /** The other blocks of the same eight output rows, from the parking place on and around. */
  method OtherBlocks(A: array2<int>, B: array2<int>, j: int)
    requires Square64(A, B) && 0 <= j <= 56 && j % 8 == 0 && Done(A, B, j, j + 8, j, j + 8)
    modifies B
    ensures Done(A, B, j, j + 8, 0, 64)
    ensures forall c, r :: 0 <= c < 64 && 0 <= r < 64 && !(j <= c < j + 8) ==> B[c, r] == old(B[c, r])
  {
    var i := (j + 8) % 64;
    while i != j
      invariant 0 <= i <= 56 && i % 8 == 0
      invariant forall c, r :: 0 <= c < 64 && 0 <= r < 64 && !(j <= c < j + 8) ==> B[c, r] == old(B[c, r])
      invariant forall c, r :: j <= c < j + 8 && 0 <= r < 64 && Passed(j, i, r) ==> B[c, r] == A[r, c]
      decreases if i > j then 64 - i + j else j - i
    {
      PutBlock(A, B, i, j, i);
      forall c, r | j <= c < j + 8 && 0 <= r < 64 && Passed(j, (i + 8) % 64, r)
        ensures B[c, r] == A[r, c]
      {
        PassedNext(j, i, r);
      }
      PassedNext(j, i, 0);
      i := (i + 8) % 64;
    }
  }

  /** The branch for 64 rows and 64 columns. */
  method Trans64(A: array2<int>, B: array2<int>)
    requires Square64(A, B)
    modifies B
    ensures Transposed(A, B)
  {
    var j := 0;
    while j < 64
      invariant 0 <= j <= 64 && j % 8 == 0 && Done(A, B, 0, j, 0, 64)
    {
      DiagonalBlock(A, B, j);
      OtherBlocks(A, B, j);
      j := j + 8;
    }
  }

  /** `transpose_submit`. */
  method TransposeSubmit(A: array2<int>, B: array2<int>)
    requires Shapes(A, B) && (A.Length1 == 32 ==> A.Length0 % 8 == 0)
    modifies B
    ensures Transposed(A, B)
  {
    if A.Length1 == 32 {
      Trans32(A, B);
    } else if A.Length1 == 64 && A.Length0 == 64 {
      Trans64(A, B);
    } else {
      TransGeneral(A, B);
    }
  }
}
