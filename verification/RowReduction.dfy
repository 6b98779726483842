/** The three-phase modular elimination bn_mod_row_reduce, in place on a flat matrix. */
module RowReduction {
  import opened Modular
  import opened LinearSystems

  /** Row r of the flat matrix starts at n * r. */
  lemma RowFits(n: nat, r: nat)
    requires r < n
    ensures 0 <= n * r && n * r + n <= n * n
  {
    assert n * r + n == n * (r + 1);
  }

  lemma RowsApart(n: nat, r: nat, c: nat, j: nat, k: nat)
    requires r < n && j < n && c < n && k < n && r != j
    ensures n * r + c != n * j + k
  {
    if r < j {
      assert n * j >= n * (r + 1);
    } else {
      assert n * r >= n * (j + 1);
    }
  }

  /** Row r of the matrix followed by entry r of the right-hand side. */
  function RowOf(M: seq<int>, b: seq<int>, n: nat, r: nat): (row: Row)
    requires |M| == n * n && |b| == n && r < n
    ensures |row| == n + 1 && row[n] == b[r]
  {
    RowFits(n, r);
    M[n * r..n * r + n] + [b[r]]
  }

  /** The rows M|b that the inner loops address as one. */
  function Augmented(M: seq<int>, b: seq<int>, n: nat): (A: seq<Row>)
    requires |M| == n * n && |b| == n
    ensures |A| == n && forall r :: 0 <= r < n ==> A[r] == RowOf(M, b, n, r)
  {
    seq(n, r requires 0 <= r < n => RowOf(M, b, n, r))
  }

  lemma Cell(M: seq<int>, b: seq<int>, n: nat, r: nat, c: nat)
    requires |M| == n * n && |b| == n && r < n && c < n
    ensures 0 <= n * r + c < n * n && Augmented(M, b, n)[r][c] == M[n * r + c]
  {
    RowFits(n, r);
  }

  lemma UpdateCell(M: seq<int>, b: seq<int>, n: nat, j: nat, k: nat, v: int)
    requires |M| == n * n && |b| == n && j < n && k < n
    ensures 0 <= n * j + k < n * n
    ensures var A := Augmented(M, b, n);
            Augmented(M[n * j + k := v], b, n) == A[j := A[j][k := v]]
  {
    RowFits(n, j);
    var A := Augmented(M, b, n);
    var B := Augmented(M[n * j + k := v], b, n);
    forall r | 0 <= r < n
      ensures B[r] == A[j := A[j][k := v]][r]
    {
      hide RowOf;
      assert B[r][n] == A[r][n];
      forall c | 0 <= c < n
        ensures B[r][c] == A[j := A[j][k := v]][r][c]
      {
        Cell(M, b, n, r, c);
        Cell(M[n * j + k := v], b, n, r, c);
        if r != j {
          RowsApart(n, r, c, j, k);
        }
      }
    }
  }

  lemma UpdateSide(M: seq<int>, b: seq<int>, n: nat, j: nat, v: int)
    requires |M| == n * n && |b| == n && j < n
    ensures var A := Augmented(M, b, n);
            Augmented(M, b[j := v], n) == A[j := A[j][n := v]]
  {
    var A := Augmented(M, b, n);
    var B := Augmented(M, b[j := v], n);
    forall r | 0 <= r < n
      ensures B[r] == A[j := A[j][n := v]][r]
    {
      RowFits(n, r);
    }
  }

  /** The arrays hold the system A. */
  ghost predicate Holds(M: array<int>, b: array<int>, n: nat, A: seq<Row>)
    reads M, b
  {
    M != b && M.Length == n * n && b.Length == n && A == Augmented(M[..], b[..], n)
  }

  /** The library inverse of a nonzero residue. */
  method ModInverse(a: int, p: int) returns (inv: int)
    requires Prime(p) && 0 < a < p
    ensures IsInverse(inv, a, p)
  {
    SmallMod(a, p);
    InverseExists(a, p);
    inv :| 0 <= inv < p && IsInverse(inv, a, p);
  }

  /** One entry of the inner loop. */
  method AddMultipleOfEntry(b: array<int>, M: array<int>, n: nat, p: int, j: nat, i: nat, ratio: int, k: nat,
                            ghost A: seq<Row>)
    requires Holds(M, b, n, A) && p > 0 && i < n && j < n && k <= n
    modifies b, M
    ensures Holds(M, b, n, A[j := A[j][k := (A[j][k] + (ratio * A[i][k]) % p) % p]])
  {
    ghost var m0, b0 := M[..], b[..];
    ghost var v := (A[j][k] + (ratio * A[i][k]) % p) % p;
    if k == n {
      var tmp := (ratio * b[i]) % p;
      b[j] := (b[j] + tmp) % p;
      UpdateSide(m0, b0, n, j, v);
      assert b[..] == b0[j := v];
    } else {
      Cell(m0, b0, n, i, k);
      Cell(m0, b0, n, j, k);
      hide *;
      var tmp := (ratio * M[n * i + k]) % p;
      M[n * j + k] := (M[n * j + k] + tmp) % p;
      UpdateCell(m0, b0, n, j, k, v);
      assert M[..] == m0[n * j + k := v];
    }
  }

  /** row(j) = row(j) + ratio * row(i), from column lo on, with column n standing for b. */
  method AddMultipleOfRow(b: array<int>, M: array<int>, n: nat, p: int, j: nat, i: nat, ratio: int, lo: nat,
                          ghost A: seq<Row>)
    requires Holds(M, b, n, A) && p > 0 && i < n && j < n && i != j && lo <= n
    modifies b, M
    ensures Holds(M, b, n, A[j := AddRow(A[j], A[i], ratio, lo, n + 1, p)])
  {
    AddRowNothing(A[j], A[i], ratio, lo, p);
    assert A[j := A[j]] == A;
    for k := lo to n + 1
      invariant Holds(M, b, n, A[j := AddRow(A[j], A[i], ratio, lo, k, p)])
    {
      ghost var B := A[j := AddRow(A[j], A[i], ratio, lo, k, p)];
      AddMultipleOfEntry(b, M, n, p, j, i, ratio, k, B);
      AddRowOneMore(A[j], A[i], ratio, lo, k, p);
      assert B[i] == A[i];
      assert B[j := AddRow(A[j], A[i], ratio, lo, k + 1, p)]
          == A[j := AddRow(A[j], A[i], ratio, lo, k + 1, p)];
    }
  }

  /** Reads one entry of the matrix. */
  method Entry(b: array<int>, M: array<int>, n: nat, p: int, r: nat, c: nat, ghost A: seq<Row>)
    returns (v: int)
    requires Holds(M, b, n, A) && System(A, n, p) && r < n && c < n
    ensures |A| == n && |A[r]| == n + 1 && v == A[r][c] && 0 <= v < p
  {
    Cell(M[..], b[..], n, r, c);
    v := M[n * r + c];
  }

  // ----- phase one

  /** Columns before i are done, and column i is cleared in the rows between i and j. */
  ghost predicate Forward(A0: seq<Row>, A: seq<Row>, i: nat, j: nat, n: nat, p: int) {
    && System(A0, n, p) && System(A, n, p) && i < n
    && (forall k :: 0 <= k <= n ==> SameKernel(A0, A, k, n, p))
    && (forall c :: 0 <= c < i ==> ColumnDone(A, c, n, p))
    && (forall r :: i < r < j && r < n ==> A[r][i] == 0)
  }

  /** The row step of both phases: row j gains the multiple of row i that clears entry (j, i). */
  function ClearEntry(A: seq<Row>, i: nat, j: nat, inv: int, lo: nat, n: nat, p: int): (B: seq<Row>)
    requires i < |A| && j < |A| && |A[i]| == |A[j]| == n + 1 && i <= n && p > 0
    ensures |B| == |A|
  {
    A[j := AddRow(A[j], A[i], p - (A[j][i] * inv) % p, lo, n + 1, p)]
  }

  /** What the row step changes: only row j, and there only where row i has entries. */
  lemma ClearEntryShape(A: seq<Row>, i: nat, j: nat, inv: int, lo: nat, n: nat, p: int)
    requires System(A, n, p) && i < n && j < n && i != j && lo <= i && IsInverse(inv, A[i][i], p)
    ensures var B := ClearEntry(A, i, j, inv, lo, n, p);
      && System(B, n, p) && B[j][i] == 0
      && (forall r :: 0 <= r < n && r != j ==> B[r] == A[r])
      && (forall c :: 0 <= c < n && (c < lo || A[i][c] == 0) ==> B[j][c] == A[j][c])
  {
    var ratio := p - (A[j][i] * inv) % p;
    RatioClears(A[j][i], A[i][i], inv, p);
    AddRowReduced(A[j], A[i], ratio, lo, n, p);
    forall c | 0 <= c < n && (c < lo || A[i][c] == 0)
      ensures AddRow(A[j], A[i], ratio, lo, n + 1, p)[c] == A[j][c]
    {
      AddRowKeeps(A[j], A[i], ratio, lo, n, p, c);
    }
  }

  /** The row step keeps kernels of prefixes that hold row i whenever they hold row j. */
  lemma ClearEntryKernel(A0: seq<Row>, A: seq<Row>, i: nat, j: nat, inv: int, lo: nat, k: nat, n: nat, p: int)
    requires System(A0, n, p) && System(A, n, p) && i < n && j < n && i != j && k <= n && lo <= i
    requires (j < k ==> i < k) && forall c :: 0 <= c < lo ==> A[i][c] == 0
    requires SameKernel(A0, A, k, n, p)
    ensures System(ClearEntry(A, i, j, inv, lo, n, p), n, p)
    ensures SameKernel(A0, ClearEntry(A, i, j, inv, lo, n, p), k, n, p)
  {
    hide AddRow, SameKernel;
    var ratio := p - (A[j][i] * inv) % p;
    AddRowZero(A[j], A[i], ratio, lo, n, p);
    RowStepKeepsKernel(A, j, i, ratio, k, n, p);
    SameKernelTrans(A0, A, ClearEntry(A, i, j, inv, lo, n, p), k, n, p);
  }

  lemma ForwardStep(A0: seq<Row>, A: seq<Row>, i: nat, j: nat, inv: int, n: nat, p: int)
    requires Forward(A0, A, i, j, n, p) && i < j < n && IsInverse(inv, A[i][i], p)
    ensures Forward(A0, ClearEntry(A, i, j, inv, 0, n, p), i, j + 1, n, p)
    ensures ClearEntry(A, i, j, inv, 0, n, p)[i] == A[i]
  {
    hide ClearEntry, SameKernel, IsInverse;
    var B := ClearEntry(A, i, j, inv, 0, n, p);
    ClearEntryShape(A, i, j, inv, 0, n, p);
    forall k | 0 <= k <= n
      ensures SameKernel(A0, B, k, n, p)
    {
      ClearEntryKernel(A0, A, i, j, inv, 0, k, n, p);
    }
    forall c | 0 <= c < i
      ensures ColumnDone(B, c, n, p)
    {
      assert ColumnDone(A, c, n, p);
    }
  }

  lemma ForwardNext(A0: seq<Row>, A: seq<Row>, i: nat, j: nat, n: nat, p: int)
    requires Forward(A0, A, i, j, n, p) && i + 1 < n && (A[i][i] == 0 || j == n)
    ensures Forward(A0, A, i + 1, i + 2, n, p)
  {
    hide SameKernel;
    assert ColumnDone(A, i, n, p);
  }

  lemma ForwardStart(A0: seq<Row>, n: nat, p: int)
    requires n >= 1 && System(A0, n, p)
    ensures Forward(A0, A0, 0, 1, n, p)
  {
  }

  /** Phase one tests the regularity of the input, and triangulates a regular one. */
  lemma ForwardDone(A0: seq<Row>, A: seq<Row>, n: nat, p: int)
    requires Prime(p) && n >= 1 && Forward(A0, A, n - 1, n, n, p)
    ensures System(A, n, p) && (Regular(A0, n, p) <==> forall c :: 0 <= c < n ==> A[c][c] != 0)
    ensures Regular(A0, n, p) ==> Backward(A0, A, 1, 0, n, p)
  {
    assert ColumnDone(A, n - 1, n, p);
    PivotsAreRegularity(A, n, p);
    SameKernelSameRegularity(A0, A, n, p);
    if Regular(A0, n, p) {
      assert SameKernel(A0, A, n, n, p);
      hide Regular, SameKernel;
      forall r, c | 0 <= c < r < n
        ensures A[r][c] == 0
      {
        assert ColumnDone(A, c, n, p);
      }
    }
  }

  // ----- phase two

  /** Columns before i are cleared above the diagonal, column i in the rows before j. */
  ghost predicate Backward(A0: seq<Row>, A: seq<Row>, i: nat, j: nat, n: nat, p: int) {
    && System(A0, n, p) && System(A, n, p)
    && SameKernel(A0, A, n, n, p)
    && UpperTriangular(A, n, n, p)
    && (forall r :: 0 <= r < n ==> A[r][r] != 0)
    && (forall r, c :: 0 <= r < c < i && c < n ==> A[r][c] == 0)
    && (i < n ==> forall r :: 0 <= r < j && r < i ==> A[r][i] == 0)
  }

  lemma BackwardStep(A0: seq<Row>, A: seq<Row>, i: nat, j: nat, inv: int, n: nat, p: int)
    requires Backward(A0, A, i, j, n, p) && j < i < n && IsInverse(inv, A[i][i], p)
    ensures Backward(A0, ClearEntry(A, i, j, inv, i, n, p), i, j + 1, n, p)
  {
    hide ClearEntry, SameKernel, IsInverse;
    ClearEntryShape(A, i, j, inv, i, n, p);
    ClearEntryKernel(A0, A, i, j, inv, i, n, n, p);
  }

  lemma BackwardNext(A0: seq<Row>, A: seq<Row>, i: nat, n: nat, p: int)
    requires Backward(A0, A, i, i, n, p) && i < n
    ensures Backward(A0, A, i + 1, 0, n, p)
  {
    hide SameKernel;
  }

  /** The pivots, which phase two leaves alone. */
  ghost predicate SameDiagonal(A: seq<Row>, B: seq<Row>, n: nat, p: int) {
    System(A, n, p) && System(B, n, p) && forall r :: 0 <= r < n ==> A[r][r] == B[r][r]
  }

  lemma StepKeepsDiagonal(A1: seq<Row>, A: seq<Row>, i: nat, j: nat, inv: int, n: nat, p: int)
    requires SameDiagonal(A1, A, n, p) && j < i < n
    ensures SameDiagonal(A1, ClearEntry(A, i, j, inv, i, n, p), n, p)
  {
    var ratio := p - (A[j][i] * inv) % p;
    AddRowReduced(A[j], A[i], ratio, i, n, p);
    AddRowKeeps(A[j], A[i], ratio, i, n, p, j);
    hide AddRow;
  }

  // ----- phase three

  /** Off the diagonal all is zero; the first i pivots are one, the others nonzero. */
  ghost predicate Scaled(A0: seq<Row>, A: seq<Row>, i: nat, n: nat, p: int) {
    && System(A0, n, p) && System(A, n, p)
    && SameKernel(A0, A, n, n, p)
    && (forall r, c :: 0 <= r < n && 0 <= c < n && r != c ==> A[r][c] == 0)
    && (forall r :: 0 <= r < i && r < n ==> A[r][r] == 1)
    && (forall r :: i <= r < n ==> A[r][r] != 0)
  }

  lemma ScaledStart(A0: seq<Row>, A: seq<Row>, n: nat, p: int)
    requires Backward(A0, A, n, 0, n, p)
    ensures Scaled(A0, A, 0, n, p)
  {
    hide SameKernel;
  }

  lemma ScaleRowShape(A: seq<Row>, i: nat, inv: int, n: nat, p: int)
    requires p >= 2 && System(A, n, p) && i < n && IsInverse(inv, A[i][i], p)
    ensures var B := A[i := ScaleRow(A[i], i, inv, p)];
      && System(B, n, p) && B[i][i] == 1
      && (forall r :: 0 <= r < n && r != i ==> B[r] == A[r])
      && (forall c :: 0 <= c < n && c != i ==> B[i][c] == A[i][c])
  {
    SmallMod(1, p);
  }

  lemma ScaleStep(A0: seq<Row>, A: seq<Row>, i: nat, inv: int, n: nat, p: int)
    requires p >= 2 && Scaled(A0, A, i, n, p) && i < n && IsInverse(inv, A[i][i], p)
    ensures Scaled(A0, A[i := ScaleRow(A[i], i, inv, p)], i + 1, n, p)
  {
    hide ScaleRow, SameKernel, IsInverse;
    ScaleRowShape(A, i, inv, n, p);
    ScaleKeepsKernel(A, i, inv, n, p);
    SameKernelTrans(A0, A, A[i := ScaleRow(A[i], i, inv, p)], n, n, p);
  }

  /** Nothing turns a zero pivot into a nonzero one, and rows from i on are as they were. */
  ghost predicate ZeroPivotsStay(A1: seq<Row>, A: seq<Row>, i: nat, n: nat, p: int) {
    && System(A1, n, p) && System(A, n, p)
    && (forall r :: 0 <= r < n && A1[r][r] == 0 ==> A[r][r] == 0)
    && (forall r :: i <= r < n ==> A[r] == A1[r])
  }

  lemma ScaleKeepsZeros(A1: seq<Row>, A: seq<Row>, i: nat, inv: int, n: nat, p: int)
    requires ZeroPivotsStay(A1, A, i, n, p) && i < n && A[i][i] != 0
    ensures ZeroPivotsStay(A1, A[i := ScaleRow(A[i], i, inv, p)], i + 1, n, p)
  {
    assert ReducedRow(ScaleRow(A[i], i, inv, p), n, p);
    hide ScaleRow;
  }

  /** At the end of a regular run the right-hand side is the solution. */
  lemma Solved(A0: seq<Row>, A: seq<Row>, n: nat, p: int)
    requires Prime(p) && Scaled(A0, A, n, n, p)
    ensures IsIdentity(A, n, p)
    ensures forall x :: |x| == n ==>
              (Solves(A0, x, n, p) <==> forall r :: 0 <= r < n ==> Cong(x[r], A[r][n], p))
  {
    assert IsIdentity(A, n, p);
    forall x | |x| == n
      ensures Solves(A0, x, n, p) <==> forall r :: 0 <= r < n ==> Cong(x[r], A[r][n], p)
    {
      SolvesIsKernel(A0, x, n, p);
      SolvesIsKernel(A, x, n, p);
      IdentitySolution(A, x, n, p);
      hide Solves, Annihilates;
    }
  }

  /** What the three phases together did, from what each of them kept. */
  lemma Outcome(A0: seq<Row>, A1: seq<Row>, A2: seq<Row>, A3: seq<Row>, n: nat, p: int)
    requires Prime(p) && n >= 1 && Forward(A0, A1, n - 1, n, n, p)
    requires SameDiagonal(A1, A2, n, p) && ZeroPivotsStay(A2, A3, n, n, p)
    requires Regular(A0, n, p) ==> Scaled(A0, A3, n, n, p)
    ensures System(A3, n, p) && (IsIdentity(A3, n, p) <==> Regular(A0, n, p))
    ensures Regular(A0, n, p) ==> forall x :: |x| == n ==>
              (Solves(A0, x, n, p) <==> forall r :: 0 <= r < n ==> Cong(x[r], A3[r][n], p))
  {
    ForwardDone(A0, A1, n, p);
    if Regular(A0, n, p) {
      Solved(A0, A3, n, p);
    } else {
      hide Forward, Regular, SameKernel;
      var c :| 0 <= c < n && A1[c][c] == 0;
      assert A2[c][c] == 0;
      assert A3[c][c] == 0;
    }
  }

  // ----- the loops

  /** Clears entry (j, i) with the inverse of the pivot (i, i). */
  method ClearRow(b: array<int>, M: array<int>, n: nat, p: int, j: nat, i: nat, lo: nat, ghost A: seq<Row>)
    returns (ghost inverse: int)
    requires Prime(p) && Holds(M, b, n, A) && System(A, n, p) && i < n && j < n && i != j && lo <= i
    requires A[i][i] != 0
    modifies b, M
    ensures IsInverse(inverse, A[i][i], p) && Holds(M, b, n, ClearEntry(A, i, j, inverse, lo, n, p))
  {
    var pivot := Entry(b, M, n, p, i, i, A);
    var entry := Entry(b, M, n, p, j, i, A);
    var inv := ModInverse(pivot, p);
    var ratio := p - (entry * inv) % p;
    AddMultipleOfRow(b, M, n, p, j, i, ratio, lo, A);
    inverse := inv;
  }

  /** Phase one: for each pivot in turn, the entries below it are cleared. */
  method ForwardPhase(b: array<int>, M: array<int>, n: nat, p: int, ghost A0: seq<Row>)
    returns (ghost A: seq<Row>)
    requires n >= 1 && Prime(p) && System(A0, n, p) && Holds(M, b, n, A0)
    modifies b, M
    ensures Holds(M, b, n, A) && Forward(A0, A, n - 1, n, n, p)
  {
    A := A0;
    ForwardStart(A0, n, p);
    hide *;
    for i := 0 to n - 1
      invariant Holds(M, b, n, A) && Forward(A0, A, i, i + 1, n, p)
    {
      ForwardShape(A0, A, i, i + 1, n, p);
      var pivot := Entry(b, M, n, p, i, i, A);
      if pivot != 0 {
        for j := i + 1 to n
          invariant Holds(M, b, n, A) && Forward(A0, A, i, j, n, p)
          invariant |A| == n && |A[i]| == n + 1 && A[i][i] != 0
        {
          ForwardShape(A0, A, i, j, n, p);
          ghost var inv := ClearRow(b, M, n, p, j, i, 0, A);
          ForwardStep(A0, A, i, j, inv, n, p);
          A := ClearEntry(A, i, j, inv, 0, n, p);
        }
        ForwardNext(A0, A, i, n, n, p);
      } else {
        ForwardNext(A0, A, i, i + 1, n, p);
      }
    }
  }

  lemma ForwardShape(A0: seq<Row>, A: seq<Row>, i: nat, j: nat, n: nat, p: int)
    requires Forward(A0, A, i, j, n, p)
    ensures p > 0 && System(A, n, p) && forall r :: 0 <= r < n ==> |A[r]| == n + 1
  {
  }

  /** Phase two: the entries above the diagonal go, from the left. */
  method BackwardPhase(b: array<int>, M: array<int>, n: nat, p: int, ghost A0: seq<Row>, ghost A1: seq<Row>)
    returns (ghost A: seq<Row>)
    requires n >= 1 && Prime(p) && System(A1, n, p) && Holds(M, b, n, A1)
    modifies b, M
    ensures Holds(M, b, n, A) && SameDiagonal(A1, A, n, p)
    ensures Backward(A0, A1, 1, 0, n, p) ==> Backward(A0, A, n, 0, n, p)
  {
    hide *;
    A := A1;
    ghost var regular := Backward(A0, A1, 1, 0, n, p);
    DiagonalItself(A1, n, p);
    for i := 1 to n
      invariant Holds(M, b, n, A) && SameDiagonal(A1, A, n, p)
      invariant regular ==> Backward(A0, A, i, 0, n, p)
    {
      DiagonalShape(A1, A, n, p);
      var pivot := Entry(b, M, n, p, i, i, A);
      if regular {
        BackwardPivot(A0, A, i, 0, n, p);
      }
      if pivot != 0 {
        for j := 0 to i
          invariant Holds(M, b, n, A) && SameDiagonal(A1, A, n, p)
          invariant |A1| == n && |A1[i]| == n + 1 && A1[i][i] != 0
          invariant regular ==> Backward(A0, A, i, j, n, p)
        {
          DiagonalShape(A1, A, n, p);
          var entry := Entry(b, M, n, p, j, i, A);
          if entry != 0 {
            ghost var inv := ClearRow(b, M, n, p, j, i, i, A);
            if regular {
              BackwardStep(A0, A, i, j, inv, n, p);
            }
            StepKeepsDiagonal(A1, A, i, j, inv, n, p);
            A := ClearEntry(A, i, j, inv, i, n, p);
          } else if regular {
            BackwardSkip(A0, A, i, j, n, p);
          }
        }
      }
      if regular {
        BackwardNext(A0, A, i, n, p);
      }
    }
  }

  lemma DiagonalItself(A: seq<Row>, n: nat, p: int)
    requires System(A, n, p)
    ensures SameDiagonal(A, A, n, p)
  {
  }

  lemma DiagonalShape(A1: seq<Row>, A: seq<Row>, n: nat, p: int)
    requires SameDiagonal(A1, A, n, p)
    ensures p > 0 && System(A, n, p) && |A1| == n
    ensures forall r :: 0 <= r < n ==> |A[r]| == |A1[r]| == n + 1 && A1[r][r] == A[r][r]
  {
  }

  lemma BackwardSkip(A0: seq<Row>, A: seq<Row>, i: nat, j: nat, n: nat, p: int)
    requires Backward(A0, A, i, j, n, p) && j < i < n && A[j][i] == 0
    ensures Backward(A0, A, i, j + 1, n, p)
  {
    hide SameKernel;
  }

  lemma BackwardPivot(A0: seq<Row>, A: seq<Row>, i: nat, j: nat, n: nat, p: int)
    requires Backward(A0, A, i, j, n, p) && i < n
    ensures A[i][i] != 0
  {
    hide SameKernel;
  }

  /** Phase three: every nonzero pivot becomes one. */
  method DividePhase(b: array<int>, M: array<int>, n: nat, p: int, ghost A0: seq<Row>, ghost A2: seq<Row>)
    returns (ghost A: seq<Row>)
    requires n >= 1 && Prime(p) && System(A2, n, p) && Holds(M, b, n, A2)
    modifies b, M
    ensures Holds(M, b, n, A) && ZeroPivotsStay(A2, A, n, n, p)
    ensures Backward(A0, A2, n, 0, n, p) ==> Scaled(A0, A, n, n, p)
  {
    A := A2;
    ghost var regular := Backward(A0, A2, n, 0, n, p);
    if regular {
      ScaledStart(A0, A2, n, p);
    }
    assert p >= 2 && ZeroPivotsStay(A2, A, 0, n, p);
    hide *;
    for i := 0 to n
      invariant Holds(M, b, n, A) && ZeroPivotsStay(A2, A, i, n, p)
      invariant regular ==> Scaled(A0, A, i, n, p)
    {
      PivotShape(A2, A, i, n, p);
      var pivot := Entry(b, M, n, p, i, i, A);
      if regular {
        ScaledPivot(A0, A, i, n, p);
      }
      if pivot != 0 {
        var inv := ModInverse(pivot, p);
        DivideRow(b, M, n, p, i, inv, A);
        if regular {
          ScaleStep(A0, A, i, inv, n, p);
        }
        ScaleKeepsZeros(A2, A, i, inv, n, p);
        A := A[i := ScaleRow(A[i], i, inv, p)];
      } else {
        PivotSkip(A2, A, i, n, p);
      }
    }
  }

  lemma PivotShape(A2: seq<Row>, A: seq<Row>, i: nat, n: nat, p: int)
    requires ZeroPivotsStay(A2, A, i, n, p)
    ensures p > 0 && System(A, n, p) && |A| == n
    ensures forall r :: 0 <= r < n ==> |A[r]| == n + 1
  {
  }

  lemma PivotSkip(A2: seq<Row>, A: seq<Row>, i: nat, n: nat, p: int)
    requires ZeroPivotsStay(A2, A, i, n, p) && i < n
    ensures ZeroPivotsStay(A2, A, i + 1, n, p)
  {
  }

  lemma ScaledPivot(A0: seq<Row>, A: seq<Row>, i: nat, n: nat, p: int)
    requires Scaled(A0, A, i, n, p) && i < n
    ensures A[i][i] != 0
  {
    hide SameKernel;
  }

  /** Scales the pivot and the right-hand side of row i. */
  method DivideRow(b: array<int>, M: array<int>, n: nat, p: int, i: nat, inv: int, ghost A: seq<Row>)
    requires Holds(M, b, n, A) && i < n && p > 0
    modifies b, M
    ensures |A| == n && |A[i]| == n + 1 && Holds(M, b, n, A[i := ScaleRow(A[i], i, inv, p)])
  {
    ghost var m0, b0 := M[..], b[..];
    ghost var v, w := (A[i][i] * inv) % p, (A[i][n] * inv) % p;
    Cell(m0, b0, n, i, i);
    UpdateCell(m0, b0, n, i, i, v);
    UpdateSide(m0[n * i + i := v], b0, n, i, w);
    M[n * i + i] := (M[n * i + i] * inv) % p;
    assert M[..] == m0[n * i + i := v];
    b[i] := (b[i] * inv) % p;
    assert b[..] == b0[i := w];
  }

  /**
   Modulo a prime, on a reduced system: the matrix ends as the identity exactly when every
   leading block of the input is nonsingular, and then b ends as the one solution.
   */
  method RowReduce(b: array<int>, M: array<int>, n: nat, p: int)
    requires n >= 1 && M != b && M.Length == n * n && b.Length == n && Prime(p)
    requires System(Augmented(M[..], b[..], n), n, p)
    modifies b, M
    ensures System(Augmented(M[..], b[..], n), n, p)
    ensures IsIdentity(Augmented(M[..], b[..], n), n, p)
            <==> Regular(old(Augmented(M[..], b[..], n)), n, p)
    ensures Regular(old(Augmented(M[..], b[..], n)), n, p) ==>
              forall x :: |x| == n ==> (Solves(old(Augmented(M[..], b[..], n)), x, n, p)
                                        <==> forall r :: 0 <= r < n ==> Cong(x[r], b[r], p))
  {
    ghost var A0 := Augmented(M[..], b[..], n);
    ghost var A1 := ForwardPhase(b, M, n, p, A0);
    ForwardDone(A0, A1, n, p);
    ghost var A2 := BackwardPhase(b, M, n, p, A0, A1);
    DiagonalShape(A1, A2, n, p);
    ghost var A3 := DividePhase(b, M, n, p, A0, A2);
    hide Forward, Backward, Scaled, SameDiagonal, ZeroPivotsStay, Prime, System, IsIdentity, Regular, Solves, RowOf;
    Outcome(A0, A1, A2, A3, n, p);
    assert A3 == Augmented(M[..], b[..], n);
  }
}
