/**
 * The serial GEMV unit test for the integer instantiation: the kernel under test, the
 * reference oracle with its nested loop, the snapshot and restore of `y`, and the test
 * body that runs the three call variants against the oracle's aggregate.
 */
module SerialGemv {
  import opened Results
  import opened TransposeMode
  import opened StridedView
  import opened GemvSpec

  /** The test's `a`, the factor of `op(A)*x`. */
  const Alpha: int := 3
  /** The test's `b`, the factor of `y`. */
  const Beta: int := 5

  /**
   * The serial GEMV kernel: `y := beta*y + alpha*op(A)*x` in place on `y`'s block.
   * Only column 0 of `y`'s block is written; `A` and `x` are only read.
   */
  method Gemv(trans: Trans, alpha: int, A: seq<seq<int>>, x: ColumnView, beta: int, y: ColumnView)
    requires x.Valid() && y.Valid() && x.block != y.block
    requires Shaped(trans, A, y.len, x.len)
    modifies y.block
    ensures y.Elements() == GemvResult(alpha, Operands(trans, A, old(x.Elements()), old(y.Elements())), beta)
    ensures y.Spare() == old(y.Spare())
  {
    ghost var p := Operands(trans, A, x.Elements(), y.Elements());
    var i := 0;
    while i < y.len
      invariant 0 <= i <= y.len
      invariant forall k :: 0 <= k < i ==> y.Elements()[k] == GemvResult(alpha, p, beta)[k]
      invariant forall k :: i <= k < y.len ==> y.Elements()[k] == p.y[k]
      invariant y.Spare() == old(y.Spare())
      invariant x.Elements() == p.x
    {
      var t := 0;
      var j := 0;
      while j < x.len
        invariant 0 <= j <= x.len
        invariant t == RowSum(p, i, j)
      {
        t := t + Entry(trans, A, i, j) * x.block[x.Slot(j)];
        j := j + 1;
      }
      ghost var before := y.block[..];
      var slot := y.Slot(i);
      y.block[slot] := beta * y.block[slot] + alpha * t;
      ColumnWrite(before, y.layout, y.len, i, y.block[slot]);
      assert y.block[..] == before[slot := y.block[slot]];
      assert y.Elements()[i] == GemvResult(alpha, p, beta)[i];
      i := i + 1;
    }
    assert y.Elements() == GemvResult(alpha, p, beta);
  }

  /**
   * The reference oracle: for each row a nested loop accumulates `y_i`, reading
   * `op(A)[i,j]` by branching on the mode letter, and `expected_result` sums the squares
   * `(b*y[i] + a*y_i)^2`.
   */
  method Oracle(mode: char, A: seq<seq<int>>, x: ColumnView, y: ColumnView, a: int, b: int)
    returns (expected: int)
    requires x.Valid() && y.Valid()
    requires ParseMode(mode).Ok?
    requires IsMatrix(A, ShapeOfA(mode, y.len, x.len).0, ShapeOfA(mode, y.len, x.len).1)
    ensures Shaped(ParseMode(mode).value, A, y.len, x.len)
    ensures expected == ExpectedResult(Operands(ParseMode(mode).value, A, x.Elements(), y.Elements()), a, b, y.len)
  {
    ShapeFollowsMode(mode, A, y.len, x.len);
    ghost var p := Operands(ParseMode(mode).value, A, x.Elements(), y.Elements());
    expected := 0;
    var i := 0;
    while i < y.len
      invariant 0 <= i <= y.len
      invariant expected == ExpectedResult(p, a, b, i)
    {
      var yi := OracleRow(mode, A, x, y, i);
      y.ElementAt(i);
      expected := AddRow(p, a, b, i, expected, y.block[y.Slot(i)], yi);
      i := i + 1;
    }
  }

  /** The oracle's inner loop: `y_i = sum_j op(A)[i,j] * x[j]` for row `i`. */
  method OracleRow(mode: char, A: seq<seq<int>>, x: ColumnView, y: ColumnView, i: nat)
    returns (yi: int)
    requires x.Valid() && y.Valid() && i < y.len
    requires ParseMode(mode).Ok? && Shaped(ParseMode(mode).value, A, y.len, x.len)
    ensures yi == RowSum(Operands(ParseMode(mode).value, A, x.Elements(), y.Elements()), i, x.len)
  {
    ghost var p := Operands(ParseMode(mode).value, A, x.Elements(), y.Elements());
    yi := 0;
    var j := 0;
    while j < x.len
      invariant 0 <= j <= x.len
      invariant yi == RowSum(p, i, j)
    {
      x.ElementAt(j);
      yi := yi + SelectEntry(mode, A, i, j) * x.block[x.Slot(j)];
      j := j + 1;
    }
  }

  /** `Kokkos::deep_copy` between two blocks of the same shape. */
  method DeepCopy(dst: array<int>, src: array<int>)
    requires dst.Length == src.Length && dst != src
    modifies dst
    ensures dst[..] == src[..]
  {
    forall k | 0 <= k < dst.Length {
      dst[k] := src[k];
    }
  }

  /** What one gemv call left behind: `y`, the untouched column of its block, and `dot(y, y)`. */
  datatype Run = Run(y: seq<int>, spare: seq<int>, dot: int)

  /** The oracle's aggregate and the three call variants' outcomes. */
  datatype Report = Report(expected: int, nonconstNonconst: Run, constNonconst: Run, constConst: Run)

  /** A run started from `y` as filled and ended with the GEMV result, matching the aggregate. */
  predicate RunAsExpected(run: Run, p: Operands, spare: seq<int>, expected: int)
    requires p.Valid()
  {
    run.y == GemvResult(Alpha, p, Beta) && run.spare == spare && run.dot == expected
  }

  /** Calls the kernel on `y` and records what the test then inspects. */
  method RunGemv(trans: Trans, A: seq<seq<int>>, x: ColumnView, y: ColumnView) returns (run: Run)
    requires x.Valid() && y.Valid() && x.block != y.block
    requires Shaped(trans, A, y.len, x.len)
    modifies y.block
    ensures run.y == y.Elements() && run.spare == y.Spare() && run.dot == Dot(run.y, run.y)
    ensures run.y == GemvResult(Alpha, Operands(trans, A, old(x.Elements()), old(y.Elements())), Beta)
    ensures run.spare == old(y.Spare())
  {
    Gemv(trans, Alpha, A, x, Beta, y);
    run := Run(y.Elements(), y.Spare(), Dot(y.Elements(), y.Elements()));
  }

  /**
   * `impl_test_serial_gemv` on integers. The fills stand for the random contents of the
   * blocks `A` (`Nt x Mt`), `x` (`M x 2`) and `y` (`N x 2`). A mode letter other than
   * 'N', 'T' or 'C' fails before the oracle or any gemv call runs. Otherwise each of the
   * three gemv variants starts from the restored `y`, leaves the GEMV update in column 0,
   * leaves column 1 alone, and its `dot(y, y)` equals the oracle's `expected_result`.
   */
  method ImplTestSerialGemv(mode: string, n: nat, m: nat, xLayout: VectorLayout, yLayout: VectorLayout,
                            aFill: seq<seq<int>>, xFill: seq<int>, yFill: seq<int>)
    returns (r: Result<Report, ModeError>)
    requires IsMatrix(aFill, ShapeOfA(FirstLetter(mode), n, m).0, ShapeOfA(FirstLetter(mode), n, m).1)
    requires |xFill| == 2 * m && |yFill| == 2 * n
    ensures r.Err? <==> ParseMode(FirstLetter(mode)).Err?
    ensures r.Err? ==> r.error == IncorrectModeLetter(FirstLetter(mode))
    ensures r.Ok? ==>
      var p := Operands(ParseMode(FirstLetter(mode)).value, aFill,
                        Column(xFill, BlockLayoutFor(xLayout), m, 0),
                        Column(yFill, BlockLayoutFor(yLayout), n, 0));
      var spare := Column(yFill, BlockLayoutFor(yLayout), n, 1);
      p.Valid() &&
      r.value.expected == ExpectedResult(p, Alpha, Beta, n) &&
      RunAsExpected(r.value.nonconstNonconst, p, spare, r.value.expected) &&
      RunAsExpected(r.value.constNonconst, p, spare, r.value.expected) &&
      RunAsExpected(r.value.constConst, p, spare, r.value.expected)
  {
    var c := FirstLetter(mode);
    var blockX := new int[2 * m](k requires 0 <= k < 2 * m => xFill[k]);
    var blockY := new int[2 * n](k requires 0 <= k < 2 * n => yFill[k]);
    var orgY := new int[2 * n];
    var x := ColumnView(blockX, BlockLayoutFor(xLayout), m);
    var y := ColumnView(blockY, BlockLayoutFor(yLayout), n);
    DeepCopy(orgY, blockY);

    var parsed := ParseMode(c);
    if parsed.Err? {
      return Err(parsed.error);
    }
    var trans := parsed.value;
    var expected := Oracle(c, aFill, x, y, Alpha, Beta);
    ghost var p := Operands(trans, aFill, x.Elements(), y.Elements());
    assert blockX[..] == xFill && blockY[..] == yFill;
    ExpectedIsDot(p, Alpha, Beta);

    var nonconstNonconst := RunGemv(trans, aFill, x, y);
    DeepCopy(blockY, orgY);
    assert blockY[..] == yFill;
    var constNonconst := RunGemv(trans, aFill, x, y);
    DeepCopy(blockY, orgY);
    assert blockY[..] == yFill;
    var constConst := RunGemv(trans, aFill, x, y);
    r := Ok(Report(expected, nonconstNonconst, constNonconst, constConst));
  }
}
