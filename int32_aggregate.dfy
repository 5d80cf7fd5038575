/**
 * `expected_result` as the integer instantiation accumulates it: in a 32-bit `int`.
 * Signed overflow is undefined in C++; the model takes the two's-complement wrap-around
 * that common targets produce. The row term `b*y[i] + a*y_i` is taken exactly: for
 * entries below 10 and at most 1024 columns it stays far inside the 32-bit range.
 */
module Int32Aggregate {
  import opened TransposeMode
  import opened GemvSpec

  const Modulus: int := 0x1_0000_0000
  const MinInt: int := -0x8000_0000
  const MaxInt: int := 0x7fff_ffff

  /** Two's-complement reduction to 32 bits: in range and congruent to `v`. */
  function Wrap(v: int): (r: int)
    ensures MinInt <= r <= MaxInt
    ensures (v - r) % Modulus == 0
  {
    (v - MinInt) % Modulus + MinInt
  }

  /** A value already in range is its own reduction. */
  lemma WrapInRange(v: int)
    requires MinInt <= v <= MaxInt
    ensures Wrap(v) == v
  {
  }

  /** Adding a multiple of the modulus does not change the reduction. */
  lemma WrapShift(v: int, k: int)
    ensures Wrap(v + k * Modulus) == Wrap(v)
  {
    var q := (v - MinInt) / Modulus;
    var q' := (v + k * Modulus - MinInt) / Modulus;
    assert v - MinInt == q * Modulus + (v - MinInt) % Modulus;
    assert v + k * Modulus - MinInt == q' * Modulus + (v + k * Modulus - MinInt) % Modulus;
    DivModUnique(v + k * Modulus - MinInt, q + k, (v - MinInt) % Modulus, q', (v + k * Modulus - MinInt) % Modulus);
  }

  /** Quotient and remainder by the modulus are unique. */
  lemma DivModUnique(u: int, q1: int, r1: int, q2: int, r2: int)
    requires 0 <= r1 < Modulus && 0 <= r2 < Modulus
    requires u == q1 * Modulus + r1 && u == q2 * Modulus + r2
    ensures r1 == r2
  {
    assert (q1 - q2) * Modulus == r2 - r1;
  }

  /** Reducing the summands before a wrapped sum gives the reduction of the exact sum. */
  lemma WrapSum(u: int, v: int)
    ensures Wrap(Wrap(u) + Wrap(v)) == Wrap(u + v)
  {
    var ku := (u - Wrap(u)) / Modulus;
    var kv := (v - Wrap(v)) / Modulus;
    assert u == Wrap(u) + ku * Modulus;
    assert v == Wrap(v) + kv * Modulus;
    assert u + v == Wrap(u) + Wrap(v) + (ku + kv) * Modulus;
    WrapShift(Wrap(u) + Wrap(v), ku + kv);
  }

  /** Line 93 as written for `int`: each square and each `+=` wraps to 32 bits. */
  function ExpectedResultInt32(p: Operands, a: int, b: int, k: nat): (r: int)
    requires p.Valid() && k <= |p.y|
    ensures MinInt <= r <= MaxInt
  {
    if k == 0 then 0
    else
      var t := b * p.y[k - 1] + a * RowSum(p, k - 1, |p.x|);
      Wrap(ExpectedResultInt32(p, a, b, k - 1) + Wrap(t * t))
  }

  /**
   * The 32-bit accumulation is the exact aggregate reduced to 32 bits: it agrees with
   * a `dot(y, y)` that wraps the same way, but not with the exact squared norm.
   */
  lemma {:induction false} Int32IsWrappedExact(p: Operands, a: int, b: int, k: nat)
    requires p.Valid() && k <= |p.y|
    ensures ExpectedResultInt32(p, a, b, k) == Wrap(ExpectedResult(p, a, b, k))
  {
    if k == 0 {
      WrapInRange(0);
    } else {
      Int32IsWrappedExact(p, a, b, k - 1);
      var t := b * p.y[k - 1] + a * RowSum(p, k - 1, |p.x|);
      var prev := ExpectedResult(p, a, b, k - 1);
      calc {
        ExpectedResultInt32(p, a, b, k);
        Wrap(Wrap(prev) + Wrap(t * t));
        { WrapSum(prev, t * t); }
        Wrap(prev + t * t);
      }
    }
  }

  /** Every entry of `A`, `x` and `y` lies in `[0, 10)`, the range `fill_random` is given. */
  predicate FilledBelowTen(p: Operands)
  {
    (forall r, c :: 0 <= r < |p.A| && 0 <= c < |p.A[r]| ==> 0 <= p.A[r][c] < 10) &&
    (forall j :: 0 <= j < |p.x| ==> 0 <= p.x[j] < 10) &&
    (forall i :: 0 <= i < |p.y| ==> 0 <= p.y[i] < 10)
  }

  /** With entries below 10 each term of a row sum lies in `[0, 81]`, so the sum of `k` terms in `[0, 81k]`. */
  lemma {:induction false} RowSumBound(p: Operands, i: nat, k: nat)
    requires p.Valid() && FilledBelowTen(p) && i < |p.y| && k <= |p.x|
    ensures 0 <= RowSum(p, i, k) <= 81 * k
  {
    if k > 0 {
      RowSumBound(p, i, k - 1);
      EntryBelowTen(p, i, k - 1);
      DigitProduct(Entry(p.mode, p.A, i, k - 1), p.x[k - 1]);
    }
  }

  /** Every entry `op(A)[i,j]` is one of `A`'s entries, so it lies in `[0, 10)`. */
  lemma EntryBelowTen(p: Operands, i: nat, j: nat)
    requires p.Valid() && FilledBelowTen(p) && i < |p.y| && j < |p.x|
    ensures 0 <= Entry(p.mode, p.A, i, j) < 10
  {
    if p.mode == NoTranspose {
      assert 0 <= p.A[i][j] < 10;
    } else {
      assert 0 <= p.A[j][i] < 10;
    }
  }

  /** The product of two digits is at most 81. */
  lemma DigitProduct(e: int, v: int)
    requires 0 <= e < 10 && 0 <= v < 10
    ensures 0 <= e * v <= 81
  {
    assert e * v <= 9 * v;
  }

  /**
   * The row term `b*y[i] + a*y_i` of line 93 never overflows in the tested scenarios
   * (entries below 10, at most 1024 columns): only its square and the sum do.
   */
  lemma RowTermInRange(p: Operands, i: nat)
    requires p.Valid() && FilledBelowTen(p) && i < |p.y| && |p.x| <= 1024
    ensures 0 <= 5 * p.y[i] + 3 * RowSum(p, i, |p.x|) <= 248877 <= MaxInt
  {
    RowSumBound(p, i, |p.x|);
  }

  /** A length-`k` sequence of nines, the largest value `fill_random` gives for range 10. */
  function Nines(k: nat): (s: seq<int>)
    ensures |s| == k && forall i :: 0 <= i < k ==> s[i] == 9
  {
    seq(k, _ => 9)
  }

  /** The scenario with `rows` rows, `M = 1024` and every entry of `A`, `x` and `y` equal to 9. */
  function NinesScenario(rows: nat): (p: Operands)
    ensures p.Valid() && |p.y| == rows && |p.x| == 1024
  {
    Operands(NoTranspose, seq(rows, _ => Nines(1024)), Nines(1024), Nines(rows))
  }

  /** In the all-nines scenario every term of every row sum is 81. */
  lemma {:induction false} NinesRowSum(rows: nat, i: nat, k: nat)
    requires i < rows && k <= 1024
    ensures RowSum(NinesScenario(rows), i, k) == 81 * k
  {
    if k > 0 {
      NinesRowSum(rows, i, k - 1);
    }
  }

  /** In the all-nines scenario every row adds `248877^2` to `expected_result`. */
  lemma {:induction false} NinesAggregate(rows: nat, k: nat)
    requires k <= rows
    ensures ExpectedResult(NinesScenario(rows), 3, 5, k) == k * 61939761129
  {
    if k > 0 {
      NinesAggregate(rows, k - 1);
      NinesRowSum(rows, k - 1, 1024);
      assert 5 * 9 + 3 * RowSum(NinesScenario(rows), k - 1, 1024) == 248877;
    }
  }

  /**
   * The overflow, in the tested shape `(13, 1024)` with every entry 9: row 0 alone
   * brings the exact aggregate to `248877^2`, beyond `INT_MAX`, and the 32-bit
   * accumulation ends that row on a different value.
   */
  lemma Int32Overflows()
    ensures ExpectedResult(NinesScenario(13), 3, 5, 1) == 61939761129
    ensures ExpectedResult(NinesScenario(13), 3, 5, 1) > MaxInt
    ensures ExpectedResultInt32(NinesScenario(13), 3, 5, 1) == 1810218985
    ensures ExpectedResult(NinesScenario(13), 3, 5, 13) == 805216894677
  {
    NinesAggregate(13, 1);
    NinesAggregate(13, 13);
    NinesRowSum(13, 0, 1024);
    var t := 5 * 9 + 3 * RowSum(NinesScenario(13), 0, 1024);
    assert t == 248877;
    assert t * t == 61939761129;
    WrapInRange(0);
    assert Wrap(61939761129) == 1810218985;
    WrapInRange(1810218985);
  }
}
