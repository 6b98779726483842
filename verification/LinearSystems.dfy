/**
 Linear systems modulo p, as rows of coefficients followed by the right-hand side.
 A vector y of length n + 1 with last entry -1 annihilates such a row exactly when its first n
 entries satisfy the row's equation, so solution sets are kernels of the augmented rows.
 */
module LinearSystems {
  import opened Modular

  type Row = seq<int>

  /** n rows of n coefficients and a right-hand side, all reduced modulo p. */
  ghost predicate System(A: seq<Row>, n: nat, p: int) {
    p > 0 && |A| == n && forall r :: 0 <= r < n ==> ReducedRow(A[r], n, p)
  }

  ghost predicate ReducedRow(row: Row, n: nat, p: int) {
    |row| == n + 1 && forall c :: 0 <= c <= n ==> 0 <= row[c] < p
  }

  /** The sum of the first k products u[c] * v[c]. */
  function Dot(u: seq<int>, v: seq<int>, k: nat): int
    requires k <= |u| && k <= |v|
  {
    if k == 0 then 0 else Dot(u, v, k - 1) + u[k - 1] * v[k - 1]
  }

  /** x satisfies every equation of the system. */
  ghost predicate Solves(A: seq<Row>, x: seq<int>, n: nat, p: int)
    requires System(A, n, p) && |x| == n
  {
    forall r :: 0 <= r < n ==> Cong(Dot(A[r], x, n), A[r][n], p)
  }

  /** y is in the kernel of the first k augmented rows. */
  ghost predicate Annihilates(A: seq<Row>, y: seq<int>, k: nat, n: nat, p: int)
    requires System(A, n, p) && |y| == n + 1 && k <= n
  {
    forall r :: 0 <= r < k ==> Cong(Dot(A[r], y, n + 1), 0, p)
  }

  /** The first k rows of the two systems have the same kernel. */
  ghost predicate SameKernel(A: seq<Row>, B: seq<Row>, k: nat, n: nat, p: int)
    requires System(A, n, p) && System(B, n, p) && k <= n
  {
    forall y :: |y| == n + 1 ==> (Annihilates(A, y, k, n, p) <==> Annihilates(B, y, k, n, p))
  }

  ghost predicate ZeroFrom(y: seq<int>, k: nat) {
    forall c :: k <= c < |y| ==> y[c] == 0
  }

  ghost predicate VanishesBelow(y: seq<int>, k: nat, p: int)
    requires k <= |y| && p > 0
  {
    forall c :: 0 <= c < k ==> Cong(y[c], 0, p)
  }

  /**
   Every leading square block of the coefficient matrix has a trivial kernel modulo p
   (for a prime p: no leading principal minor vanishes). The right-hand side plays no part,
   because y is zero there.
   */
  ghost predicate Regular(A: seq<Row>, n: nat, p: int)
    requires System(A, n, p)
  {
    forall k, y :: 1 <= k <= n && |y| == n + 1 && ZeroFrom(y, k) && Annihilates(A, y, k, n, p)
      ==> VanishesBelow(y, k, p)
  }

  ghost predicate IsIdentity(A: seq<Row>, n: nat, p: int)
    requires System(A, n, p)
  {
    forall r, c :: 0 <= r < n && 0 <= c < n ==> A[r][c] == if r == c then 1 else 0
  }

  /** The row step: entries lo..hi of the row gain ratio times those of another, modulo p. */
  function AddRow(row: Row, other: Row, ratio: int, lo: nat, hi: nat, p: int): (result: Row)
    requires |row| == |other| && hi <= |row| && p > 0
    ensures |result| == |row|
  {
    seq(|row|, c requires 0 <= c < |row| =>
      if lo <= c < hi then (row[c] + (ratio * other[c]) % p) % p else row[c])
  }

  lemma AddRowNothing(row: Row, other: Row, ratio: int, lo: nat, p: int)
    requires |row| == |other| && lo <= |row| && p > 0
    ensures AddRow(row, other, ratio, lo, lo, p) == row
  {
  }

  lemma AddRowOneMore(row: Row, other: Row, ratio: int, lo: nat, k: nat, p: int)
    requires |row| == |other| && lo <= k < |row| && p > 0
    ensures var partial := AddRow(row, other, ratio, lo, k, p);
            partial[k] == row[k] &&
            AddRow(row, other, ratio, lo, k + 1, p)
            == partial[k := (partial[k] + (ratio * other[k]) % p) % p]
  {
  }

  /** Where the step starts later or the other row is zero, entries stay. */
  lemma AddRowKeeps(row: Row, other: Row, ratio: int, lo: nat, n: nat, p: int, c: nat)
    requires p > 0 && ReducedRow(row, n, p) && |other| == n + 1 && c <= n
    requires c < lo || other[c] == 0
    ensures AddRow(row, other, ratio, lo, n + 1, p)[c] == row[c]
  {
    if c >= lo {
      AddZero(row[c], ratio, p);
    }
  }

  /** The scaling step, on one entry and the right-hand side only. */
  function ScaleRow(row: Row, i: nat, factor: int, p: int): (result: Row)
    requires i + 1 < |row| && p > 0
    ensures |result| == |row|
  {
    row[i := (row[i] * factor) % p][|row| - 1 := (row[|row| - 1] * factor) % p]
  }

  // ----- row steps and kernels

  lemma {:induction false} DotAddRow(row: Row, other: Row, ratio: int, p: int, y: seq<int>, k: nat)
    requires |row| == |other| == |y| && k <= |y| && p > 0
    ensures Cong(Dot(AddRow(row, other, ratio, 0, |row|, p), y, k),
                 Dot(row, y, k) + ratio * Dot(other, y, k), p)
  {
    var sum := AddRow(row, other, ratio, 0, |row|, p);
    if k > 0 {
      var c := k - 1;
      DotAddRow(row, other, ratio, p, y, c);
      CongMod(ratio * other[c], p);
      CongAdd(row[c], row[c], (ratio * other[c]) % p, ratio * other[c], p);
      CongMod(row[c] + (ratio * other[c]) % p, p);
      CongScale(sum[c], row[c] + ratio * other[c], y[c], p);
      CongAdd(Dot(sum, y, c), Dot(row, y, c) + ratio * Dot(other, y, c),
              sum[c] * y[c], (row[c] + ratio * other[c]) * y[c], p);
      Distribute(Dot(row, y, c), Dot(other, y, c), row[c], other[c], ratio, y[c]);
    }
  }

  lemma Distribute(a: int, b: int, u: int, v: int, ratio: int, y: int)
    ensures a + ratio * b + (u + ratio * v) * y == (a + u * y) + ratio * (b + v * y)
  {
    assert (u + ratio * v) * y == u * y + ratio * (v * y);
    assert ratio * (b + v * y) == ratio * b + ratio * (v * y);
  }

  lemma AddRowReduced(row: Row, other: Row, ratio: int, lo: nat, n: nat, p: int)
    requires ReducedRow(row, n, p) && |other| == n + 1 && p > 0
    ensures ReducedRow(AddRow(row, other, ratio, lo, n + 1, p), n, p)
  {
  }

  /** Adding a multiple of row i to row j keeps the kernel of any prefix holding both or not j. */
  lemma RowStepKeepsKernel(A: seq<Row>, j: nat, i: nat, ratio: int, k: nat, n: nat, p: int)
    requires System(A, n, p) && i < n && j < n && i != j && k <= n
    requires j < k ==> i < k
    ensures System(A[j := AddRow(A[j], A[i], ratio, 0, n + 1, p)], n, p)
    ensures SameKernel(A, A[j := AddRow(A[j], A[i], ratio, 0, n + 1, p)], k, n, p)
  {
    AddRowReduced(A[j], A[i], ratio, 0, n, p);
    var B := A[j := AddRow(A[j], A[i], ratio, 0, n + 1, p)];
    assert System(B, n, p);
    forall y | |y| == n + 1
      ensures Annihilates(A, y, k, n, p) <==> Annihilates(B, y, k, n, p)
    {
      if j < k {
        DotAddRow(A[j], A[i], ratio, p, y, n + 1);
        var dj, di, db := Dot(A[j], y, n + 1), Dot(A[i], y, n + 1), Dot(B[j], y, n + 1);
        assert B[i] == A[i];
        if Cong(di, 0, p) {
          CongScale(di, 0, ratio, p);
          CongAdd(dj, dj, ratio * di, 0, p);
          assert Cong(db, dj, p);
        }
        assert forall r :: 0 <= r < k && r != j ==> B[r] == A[r];
      } else {
        assert forall r :: 0 <= r < k ==> B[r] == A[r];
      }
    }
  }

  lemma SameKernelTrans(A: seq<Row>, B: seq<Row>, C: seq<Row>, k: nat, n: nat, p: int)
    requires System(A, n, p) && System(B, n, p) && System(C, n, p) && k <= n
    requires SameKernel(A, B, k, n, p) && SameKernel(B, C, k, n, p)
    ensures SameKernel(A, C, k, n, p)
  {
  }

  /** The chosen ratio clears the entry below or above the pivot. */
  lemma RatioClears(entry: int, pivot: int, inv: int, p: int)
    requires p > 0 && IsInverse(inv, pivot, p)
    ensures (entry + ((p - (entry * inv) % p) * pivot) % p) % p == 0
  {
    var ratio := p - (entry * inv) % p;
    CongMod(entry * inv, p);
    AddMultiple(-((entry * inv) % p), 1, p);
    CongSub(0, 0, (entry * inv) % p, entry * inv, p);
    assert Cong(ratio, -(entry * inv), p);
    CongScale(ratio, -(entry * inv), pivot, p);
    CongScale(pivot * inv, 1, -entry, p);
    assert -(entry * inv) * pivot == -entry * (pivot * inv) by {
      assert (entry * inv) * pivot == entry * (pivot * inv);
    }
    assert Cong(ratio * pivot, -entry, p);
    CongMod(ratio * pivot, p);
    CongAdd(entry, entry, (ratio * pivot) % p, -entry, p);
  }

  /** Where the other row is zero the row step changes nothing. */
  lemma AddRowZero(row: Row, other: Row, ratio: int, lo: nat, n: nat, p: int)
    requires p > 0 && ReducedRow(row, n, p) && ReducedRow(other, n, p) && lo <= n
    requires forall c :: 0 <= c < lo ==> other[c] == 0
    ensures AddRow(row, other, ratio, lo, n + 1, p) == AddRow(row, other, ratio, 0, n + 1, p)
  {
    forall c | 0 <= c < lo
      ensures (row[c] + (ratio * other[c]) % p) % p == row[c]
    {
      AddZero(row[c], ratio, p);
    }
  }

  lemma AddZero(x: int, ratio: int, p: int)
    requires 0 <= x < p
    ensures (x + (ratio * 0) % p) % p == x
  {
    SmallMod(0, p);
    SmallMod(x, p);
  }

  // ----- triangular systems

  /** Column c is zero below the diagonal, unless its pivot is zero. */
  ghost predicate ColumnDone(A: seq<Row>, c: nat, n: nat, p: int)
    requires System(A, n, p) && c < n
  {
    A[c][c] == 0 || forall r :: c < r < n ==> A[r][c] == 0
  }

  ghost predicate UpperTriangular(A: seq<Row>, k: nat, n: nat, p: int)
    requires System(A, n, p) && k <= n
  {
    forall r, c :: 0 <= c < r < k ==> A[r][c] == 0
  }

  /** Only the terms from lo to hi contribute. */
  lemma {:induction false} DotWindow(u: seq<int>, y: seq<int>, lo: nat, k: nat, p: int)
    requires lo <= k <= |u| && k <= |y| && p > 0
    requires forall c :: 0 <= c < lo ==> u[c] == 0
    requires forall c :: lo < c < k ==> Cong(y[c], 0, p)
    ensures k <= lo ==> Dot(u, y, k) == 0
    ensures lo < k ==> Cong(Dot(u, y, k), u[lo] * y[lo], p)
    decreases k
  {
    if k == lo {
      DotZero(u, y, k);
    } else {
      DotWindow(u, y, lo, k - 1, p);
      if k - 1 == lo {
      } else {
        CongScale(y[k - 1], 0, u[k - 1], p);
        CongAdd(Dot(u, y, k - 1), u[lo] * y[lo], u[k - 1] * y[k - 1], 0, p);
      }
    }
  }

  lemma {:induction false} DotZero(u: seq<int>, y: seq<int>, k: nat)
    requires k <= |u| && k <= |y|
    requires forall c :: 0 <= c < k ==> u[c] == 0
    ensures Dot(u, y, k) == 0
  {
    if k > 0 {
      DotZero(u, y, k - 1);
    }
  }

  lemma {:induction false} DotAgree(u: seq<int>, y: seq<int>, z: seq<int>, k: nat)
    requires k <= |u| && k <= |y| && k <= |z|
    requires forall c :: 0 <= c < k && u[c] != 0 ==> y[c] == z[c]
    ensures Dot(u, y, k) == Dot(u, z, k)
  {
    if k > 0 {
      DotAgree(u, y, z, k - 1);
      assert u[k - 1] == 0 || y[k - 1] == z[k - 1];
    }
  }

  /** A triangular system with nonzero diagonal has a trivial leading kernel. */
  lemma {:induction false} TriangularKernel(A: seq<Row>, y: seq<int>, k: nat, c: nat, n: nat, p: int)
    requires Prime(p) && System(A, n, p) && k <= n && |y| == n + 1 && c <= k
    requires UpperTriangular(A, n, n, p) && forall r :: 0 <= r < n ==> A[r][r] != 0
    requires ZeroFrom(y, k) && Annihilates(A, y, k, n, p)
    ensures forall d :: c <= d < k ==> Cong(y[d], 0, p)
    decreases k - c
  {
    if c < k {
      TriangularKernel(A, y, k, c + 1, n, p);
      assert forall d :: c < d < n + 1 ==> Cong(y[d], 0, p);
      DotWindow(A[c], y, c, n + 1, p);
      assert Cong(A[c][c] * y[c], 0, p);
      SmallMod(A[c][c], p);
      NoZeroDivisors(A[c][c], y[c], p);
    }
  }

  lemma UnitDiagonalIsRegular(A: seq<Row>, n: nat, p: int)
    requires Prime(p) && System(A, n, p)
    requires UpperTriangular(A, n, n, p) && forall r :: 0 <= r < n ==> A[r][r] != 0
    ensures Regular(A, n, p)
  {
    forall k, y | 1 <= k <= n && |y| == n + 1 && ZeroFrom(y, k) && Annihilates(A, y, k, n, p)
      ensures VanishesBelow(y, k, p)
    {
      TriangularKernel(A, y, k, 0, n, p);
    }
  }

  /**
   Back substitution: with y fixed from position k on, the entries below k can be chosen so that
   the first k rows of a triangular system with nonzero diagonal vanish on y.
   */
  lemma {:induction false} BackSubstitute(A: seq<Row>, z: seq<int>, k: nat, m: nat, n: nat, p: int)
    returns (y: seq<int>)
    requires Prime(p) && System(A, n, p) && k <= m <= n && |z| == n + 1
    requires UpperTriangular(A, m, n, p) && forall r :: 0 <= r < k ==> A[r][r] != 0
    ensures |y| == n + 1 && forall c :: k <= c <= n ==> y[c] == z[c]
    ensures forall r :: 0 <= r < k ==> Cong(Dot(A[r], y, n + 1), 0, p)
    decreases k
  {
    if k == 0 {
      y := z;
    } else {
      var r := k - 1;
      SmallMod(A[r][r], p);
      InverseExists(A[r][r], p);
      var inv :| IsInverse(inv, A[r][r], p);
      var rest := Dot(A[r], z[r := 0], n + 1);
      var z' := z[r := -rest * inv];
      DotReplace(A[r], z[r := 0], r, -rest * inv, n + 1);
      assert z' == z[r := 0][r := -rest * inv];
      CancelRest(A[r][r], inv, rest, p);
      assert Cong(Dot(A[r], z', n + 1), 0, p);
      y := BackSubstitute(A, z', r, m, n, p);
      DotAgree(A[r], y, z', n + 1);
    }
  }

  lemma CancelRest(a: int, inv: int, rest: int, p: int)
    requires p > 0 && IsInverse(inv, a, p)
    ensures Cong(rest + a * (-rest * inv), 0, p)
  {
    CongScale(a * inv, 1, -rest, p);
    assert a * (-rest * inv) == -rest * (a * inv);
    CongAdd(rest, rest, a * (-rest * inv), -rest, p);
  }

  lemma {:induction false} DotReplace(u: seq<int>, y: seq<int>, r: nat, v: int, k: nat)
    requires k <= |u| && k <= |y| && r < |y| && y[r] == 0
    ensures Dot(u, y[r := v], k) == Dot(u, y, k) + if r < k then u[r] * v else 0
  {
    if k > 0 {
      DotReplace(u, y, r, v, k - 1);
    }
  }

  /** Once phase one is over, a zero pivot witnesses a singular leading block. */
  lemma ZeroPivotIsSingular(A: seq<Row>, c: nat, n: nat, p: int)
    requires Prime(p) && System(A, n, p) && c < n && A[c][c] == 0
    requires forall d :: 0 <= d < c ==> A[d][d] != 0
    requires forall d :: 0 <= d < n ==> ColumnDone(A, d, n, p)
    ensures !Regular(A, n, p)
  {
    var z := seq(n + 1, d requires 0 <= d <= n => if d == c then 1 else 0);
    assert UpperTriangular(A, c + 1, n, p) by {
      forall r, d | 0 <= d < r < c + 1
        ensures A[r][d] == 0
      {
        assert ColumnDone(A, d, n, p);
      }
    }
    var y := BackSubstitute(A, z, c, c + 1, n, p);
    DotWindow(A[c], y, c, n + 1, p);
    assert Annihilates(A, y, c + 1, n, p);
    assert ZeroFrom(y, c + 1);
    assert !Cong(y[c], 0, p);
    assert !VanishesBelow(y, c + 1, p);
  }

  /** The pivots left by phase one are all nonzero exactly when the system is regular. */
  lemma PivotsAreRegularity(A: seq<Row>, n: nat, p: int)
    requires Prime(p) && System(A, n, p)
    requires forall d :: 0 <= d < n ==> ColumnDone(A, d, n, p)
    ensures Regular(A, n, p) <==> forall c :: 0 <= c < n ==> A[c][c] != 0
  {
    if c :| 0 <= c < n && A[c][c] == 0 {
      var least := FirstZeroPivot(A, c, n, p);
      ZeroPivotIsSingular(A, least, n, p);
    } else {
      forall r, d | 0 <= d < r < n
        ensures A[r][d] == 0
      {
        assert ColumnDone(A, d, n, p);
      }
      UnitDiagonalIsRegular(A, n, p);
    }
  }

  lemma {:induction false} FirstZeroPivot(A: seq<Row>, c: nat, n: nat, p: int) returns (least: nat)
    requires System(A, n, p) && c < n && A[c][c] == 0
    ensures least <= c && A[least][least] == 0
    ensures forall d :: 0 <= d < least ==> A[d][d] != 0
  {
    least := c;
    if d :| 0 <= d < c && A[d][d] == 0 {
      least := FirstZeroPivot(A, d, n, p);
    }
  }

  lemma SameKernelSameRegularity(A: seq<Row>, B: seq<Row>, n: nat, p: int)
    requires System(A, n, p) && System(B, n, p)
    requires forall k :: 0 <= k <= n ==> SameKernel(A, B, k, n, p)
    ensures Regular(A, n, p) <==> Regular(B, n, p)
  {
    forall k, y | 1 <= k <= n && |y| == n + 1
      ensures Annihilates(A, y, k, n, p) <==> Annihilates(B, y, k, n, p)
    {
      assert SameKernel(A, B, k, n, p);
    }
  }

  // ----- solutions

  /** Solutions are the kernel vectors with last entry -1. */
  lemma SolvesIsKernel(A: seq<Row>, x: seq<int>, n: nat, p: int)
    requires System(A, n, p) && |x| == n
    ensures Solves(A, x, n, p) <==> Annihilates(A, x + [-1], n, n, p)
  {
    forall r | 0 <= r < n
      ensures Cong(Dot(A[r], x, n), A[r][n], p) <==> Cong(Dot(A[r], x + [-1], n + 1), 0, p)
    {
      DotAgree(A[r], x, x + [-1], n);
      var d := Dot(A[r], x, n);
      assert Dot(A[r], x + [-1], n + 1) == d - A[r][n];
      if Cong(d, A[r][n], p) {
        CongSub(d, A[r][n], A[r][n], A[r][n], p);
      }
      if Cong(d - A[r][n], 0, p) {
        CongAdd(d - A[r][n], 0, A[r][n], A[r][n], p);
      }
    }
  }

  /** A system in identity form has its right-hand side as its only solution modulo p. */
  lemma IdentitySolution(A: seq<Row>, x: seq<int>, n: nat, p: int)
    requires System(A, n, p) && IsIdentity(A, n, p) && |x| == n
    ensures Solves(A, x, n, p) <==> forall r :: 0 <= r < n ==> Cong(x[r], A[r][n], p)
  {
    forall r | 0 <= r < n
      ensures Dot(A[r], x, n) == x[r]
    {
      var e := x[r := 0];
      DotAllZero(A[r], e, r, n);
      DotReplace(A[r], e, r, x[r], n);
      assert e[r := x[r]] == x;
    }
  }

  lemma {:induction false} DotAllZero(u: seq<int>, y: seq<int>, r: nat, k: nat)
    requires k <= |u| && k <= |y| && r < |y| && y[r] == 0
    requires forall c :: 0 <= c < k && c != r ==> u[c] == 0
    ensures Dot(u, y, k) == 0
  {
    if k > 0 {
      DotAllZero(u, y, r, k - 1);
    }
  }

  lemma UnitScale(d: int, e: int, unit: int, inv: int, p: int)
    requires p > 0 && IsInverse(inv, unit, p) && Cong(e, inv * d, p)
    ensures Cong(d, 0, p) <==> Cong(e, 0, p)
  {
    if Cong(d, 0, p) {
      CongScale(d, 0, inv, p);
    }
    if Cong(e, 0, p) {
      CongScale(e, 0, unit, p);
      CongScale(e, inv * d, unit, p);
      CongScale(unit * inv, 1, d, p);
      assert unit * (inv * d) == (unit * inv) * d;
    }
  }

  /** Scaling a diagonal row by a unit keeps the kernel. */
  lemma ScaleKeepsKernel(A: seq<Row>, i: nat, inv: int, n: nat, p: int)
    requires System(A, n, p) && i < n && IsInverse(inv, A[i][i], p)
    requires forall c :: 0 <= c < n && c != i ==> A[i][c] == 0
    ensures System(A[i := ScaleRow(A[i], i, inv, p)], n, p)
    ensures SameKernel(A, A[i := ScaleRow(A[i], i, inv, p)], n, n, p)
  {
    var B := A[i := ScaleRow(A[i], i, inv, p)];
    assert System(B, n, p);
    forall y | |y| == n + 1
      ensures Annihilates(A, y, n, n, p) <==> Annihilates(B, y, n, n, p)
    {
      DotScaled(A[i], B[i], i, inv, p, y, n);
      assert forall r :: 0 <= r < n && r != i ==> B[r] == A[r];
      var da, db := Dot(A[i], y, n + 1), Dot(B[i], y, n + 1);
      UnitScale(da, db, A[i][i], inv, p);
    }
  }

  lemma DotScaled(row: Row, scaled: Row, i: nat, inv: int, p: int, y: seq<int>, n: nat)
    requires |row| == n + 1 == |y| && i < n && p > 0 && scaled == ScaleRow(row, i, inv, p)
    requires forall c :: 0 <= c < n && c != i ==> row[c] == 0
    ensures Cong(Dot(scaled, y, n + 1), inv * Dot(row, y, n + 1), p)
  {
    var e := y[i := 0];
    DotAllZero(row, e, i, n);
    DotReplace(row, e, i, y[i], n);
    DotAllZero(scaled, e, i, n);
    DotReplace(scaled, e, i, y[i], n);
    assert e[i := y[i]] == y;
    ScaledSum(row[i], row[n], inv, y[i], y[n], p);
  }

  lemma ScaledSum(u: int, v: int, inv: int, y: int, z: int, p: int)
    requires p > 0
    ensures Cong(((u * inv) % p) * y + ((v * inv) % p) * z, inv * (u * y + v * z), p)
  {
    CongMod(u * inv, p);
    CongMod(v * inv, p);
    CongScale((u * inv) % p, u * inv, y, p);
    CongScale((v * inv) % p, v * inv, z, p);
    CongAdd(((u * inv) % p) * y, u * inv * y, ((v * inv) % p) * z, v * inv * z, p);
    assert u * inv * y + v * inv * z == inv * (u * y + v * z);
  }
}
