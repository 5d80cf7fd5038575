/**
 * The mathematics the test checks: `y := alpha*op(A)*x + beta*y`, the row sums the
 * oracle accumulates, the squared-norm aggregate `expected_result`, and `dot(y, y)`.
 */
module GemvSpec {
  import opened TransposeMode

  /** The logical operands of one GEMV: `op(A)` is `|y| x |x|`. */
  datatype Operands = Operands(mode: Trans, A: seq<seq<int>>, x: seq<int>, y: seq<int>)
  {
    predicate Valid()
    {
      Shaped(mode, A, |y|, |x|)
    }
  }

  /** `sum_{j < k} op(A)[i,j] * x[j]`. */
  function RowSum(p: Operands, i: nat, k: nat): (r: int)
    requires p.Valid() && i < |p.y| && k <= |p.x|
    ensures (forall j :: 0 <= j < k ==> p.x[j] == 0) ==> r == 0
  {
    if k == 0 then 0 else RowSum(p, i, k - 1) + Entry(p.mode, p.A, i, k - 1) * p.x[k - 1]
  }

  /** The vector `alpha*op(A)*x + beta*y`. */
  function GemvResult(alpha: int, p: Operands, beta: int): seq<int>
    requires p.Valid()
  {
    seq(|p.y|, i requires 0 <= i < |p.y| => beta * p.y[i] + alpha * RowSum(p, i, |p.x|))
  }

  /** `expected_result` after `k` rows: `sum_{i < k} (b*y[i] + a*y_i)^2`. */
  function ExpectedResult(p: Operands, a: int, b: int, k: nat): (r: int)
    requires p.Valid() && k <= |p.y|
    ensures r >= 0
  {
    if k == 0 then 0
    else
      var t := b * p.y[k - 1] + a * RowSum(p, k - 1, |p.x|);
      ExpectedResult(p, a, b, k - 1) + t * t
  }

  /** One more row of `expected_result`, given the row's `y[i]` and `y_i`. */
  function AddRow(ghost p: Operands, a: int, b: int, ghost k: nat, acc: int, yk: int, rowSum: int): (r: int)
    requires p.Valid() && k < |p.y|
    requires acc == ExpectedResult(p, a, b, k) && yk == p.y[k] && rowSum == RowSum(p, k, |p.x|)
    ensures r == ExpectedResult(p, a, b, k + 1)
  {
    acc + (b * yk + a * rowSum) * (b * yk + a * rowSum)
  }

  /** `KokkosBlas::dot` on integers: `sum_i u[i] * v[i]`. */
  function Dot(u: seq<int>, v: seq<int>): (r: int)
    requires |u| == |v|
    ensures u == v ==> r >= 0
  {
    if |u| == 0 then 0 else Dot(u[..|u| - 1], v[..|v| - 1]) + u[|u| - 1] * v[|v| - 1]
  }

  /** Each prefix of `expected_result` is the squared norm of that prefix of the GEMV result. */
  lemma {:induction false} ExpectedIsDotPrefix(p: Operands, a: int, b: int, k: nat)
    requires p.Valid() && k <= |p.y|
    ensures var r := GemvResult(a, p, b); ExpectedResult(p, a, b, k) == Dot(r[..k], r[..k])
  {
    var r := GemvResult(a, p, b);
    if k > 0 {
      ExpectedIsDotPrefix(p, a, b, k - 1);
      assert r[..k][..k - 1] == r[..k - 1];
    }
  }

  /**
   * The aggregate the oracle computes equals `dot(y, y)` of the vector the update
   * `y := b*y + a*op(A)*x` produces, exactly, for integer scalars.
   */
  lemma ExpectedIsDot(p: Operands, a: int, b: int)
    requires p.Valid()
    ensures var r := GemvResult(a, p, b); ExpectedResult(p, a, b, |p.y|) == Dot(r, r)
    ensures ExpectedResult(p, a, b, |p.y|) >= 0
  {
    var r := GemvResult(a, p, b);
    ExpectedIsDotPrefix(p, a, b, |p.y|);
    assert r[..|p.y|] == r;
  }

  /**
   * Degenerate shapes: with no rows the update is a no-op and the aggregate stays 0;
   * with no columns the update is `y := beta*y`.
   */
  lemma DegenerateShapes(alpha: int, p: Operands, beta: int)
    requires p.Valid()
    ensures |p.y| == 0 ==> GemvResult(alpha, p, beta) == p.y && ExpectedResult(p, alpha, beta, |p.y|) == 0
    ensures |p.x| == 0 ==> forall i :: 0 <= i < |p.y| ==> GemvResult(alpha, p, beta)[i] == beta * p.y[i]
  {
  }

  /** Row sums agree when the two modes read the same entries. */
  lemma {:induction false} RowSumSameEntries(p: Operands, q: Operands, i: nat, k: nat)
    requires p.Valid() && q.Valid() && p.x == q.x && |p.y| == |q.y| && i < |p.y| && k <= |p.x|
    requires forall j :: 0 <= j < k ==> Entry(p.mode, p.A, i, j) == Entry(q.mode, q.A, i, j)
    ensures RowSum(p, i, k) == RowSum(q, i, k)
  {
    if k > 0 {
      RowSumSameEntries(p, q, i, k - 1);
    }
  }

  /**
   * For integer scalars 'T' and 'C' produce the same update and the same aggregate, and
   * both are the 'N' update on the transposed matrix.
   */
  lemma TransposeModesAgree(alpha: int, p: Operands, beta: int)
    requires p.Valid() && p.mode == Transpose
    ensures p.(mode := ConjTranspose).Valid()
    ensures Operands(NoTranspose, Transposed(p.A, |p.x|, |p.y|), p.x, p.y).Valid()
    ensures GemvResult(alpha, p.(mode := ConjTranspose), beta) == GemvResult(alpha, p, beta)
    ensures GemvResult(alpha, Operands(NoTranspose, Transposed(p.A, |p.x|, |p.y|), p.x, p.y), beta)
         == GemvResult(alpha, p, beta)
    ensures ExpectedResult(p.(mode := ConjTranspose), alpha, beta, |p.y|) == ExpectedResult(p, alpha, beta, |p.y|)
  {
    var c := p.(mode := ConjTranspose);
    var t := Operands(NoTranspose, Transposed(p.A, |p.x|, |p.y|), p.x, p.y);
    forall i | 0 <= i < |p.y|
      ensures RowSum(c, i, |p.x|) == RowSum(p, i, |p.x|)
      ensures RowSum(t, i, |p.x|) == RowSum(p, i, |p.x|)
    {
      forall j | 0 <= j < |p.x|
        ensures Entry(c.mode, c.A, i, j) == Entry(p.mode, p.A, i, j)
        ensures Entry(t.mode, t.A, i, j) == Entry(p.mode, p.A, i, j)
      {
        TransposedEntries(p.A, |p.y|, |p.x|, i, j);
      }
      RowSumSameEntries(c, p, i, |p.x|);
      RowSumSameEntries(t, p, i, |p.x|);
    }
    ExpectedIsDot(p, alpha, beta);
    ExpectedIsDot(c, alpha, beta);
  }
}
