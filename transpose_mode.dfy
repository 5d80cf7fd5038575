/** Result type shared by the model: an operation either yields a value or fails with an error. */
module Results {
  datatype Result<+T, +E> = Ok(value: T) | Err(error: E)
}

/**
 * The transpose mode of GEMV and what it does to the matrix: which letters are
 * accepted, which shape `A` is allocated with, and which entry `op(A)[i,j]` reads.
 * Scalars are the integer instantiation of the test.
 */
module TransposeMode {
  import opened Results

  /** `op(A)` is `A`, its transpose, or its conjugate transpose. */
  datatype Trans = NoTranspose | Transpose | ConjTranspose

  /** The test throws "incorrect matrix mode letter !" for any other first letter. */
  datatype ModeError = IncorrectModeLetter(letter: char)

  /** The external notation of each mode. */
  function Letter(m: Trans): char
  {
    match m
    case NoTranspose => 'N'
    case Transpose => 'T'
    case ConjTranspose => 'C'
  }

  /** `mode[0]` of a C string: an empty string reads its terminating NUL. */
  function FirstLetter(mode: string): (c: char)
    ensures ParseMode(c).Ok? ==> |mode| > 0 && c == mode[0]
  {
    if |mode| == 0 then '\0' else mode[0]
  }

  /** Mode validation: exactly the letters 'N', 'T' and 'C' are accepted, and each names its mode. */
  function ParseMode(c: char): (r: Result<Trans, ModeError>)
    ensures r.Ok? <==> (c == 'N' || c == 'T' || c == 'C')
    ensures r.Ok? ==> Letter(r.value) == c
    ensures r.Err? ==> r.error == IncorrectModeLetter(c)
  {
    if c == 'N' then Ok(NoTranspose)
    else if c == 'T' then Ok(Transpose)
    else if c == 'C' then Ok(ConjTranspose)
    else Err(IncorrectModeLetter(c))
  }

  /** Parsing a mode's own letter gives the mode back. */
  lemma ParseLetter(m: Trans)
    ensures ParseMode(Letter(m)) == Ok(m)
  {
  }

  /**
   * The shape `(Nt, Mt)` the test allocates `A` with, chosen on the raw letter before
   * it is validated: `N x M` for 'N', `M x N` for every other letter.
   */
  function ShapeOfA(c: char, n: nat, m: nat): (shape: (nat, nat))
    ensures multiset{shape.0, shape.1} == multiset{n, m}
    ensures shape == (n, m) <==> (c == 'N' || n == m)
  {
    if c == 'N' then (n, m) else (m, n)
  }

  /** `A` is a `rows x cols` matrix. */
  predicate IsMatrix(A: seq<seq<int>>, rows: nat, cols: nat)
  {
    |A| == rows && forall r :: 0 <= r < |A| ==> |A[r]| == cols
  }

  /** The shape `A` must have so that `op(A)` is `n x m`. */
  predicate Shaped(mode: Trans, A: seq<seq<int>>, n: nat, m: nat)
  {
    var shape := ShapeOfA(Letter(mode), n, m);
    IsMatrix(A, shape.0, shape.1)
  }

  /** The entry of `A` that `op(A)[i,j]` reads exists. */
  predicate EntryDefined(mode: Trans, A: seq<seq<int>>, i: nat, j: nat)
  {
    if mode == NoTranspose then i < |A| && j < |A[i]| else j < |A| && i < |A[j]|
  }

  /**
   * Shapes follow the mode: once the letter is accepted, a matrix allocated with
   * `ShapeOfA` is shaped for that mode, and every entry `op(A)[i,j]` with `i < n`,
   * `j < m` is inside it.
   */
  lemma ShapeFollowsMode(c: char, A: seq<seq<int>>, n: nat, m: nat)
    requires ParseMode(c).Ok?
    requires IsMatrix(A, ShapeOfA(c, n, m).0, ShapeOfA(c, n, m).1)
    ensures Shaped(ParseMode(c).value, A, n, m)
    ensures forall i: nat, j: nat :: i < n && j < m ==> EntryDefined(ParseMode(c).value, A, i, j)
  {
  }

  /** `ArithTraits<int>::conj`: an integer is its own conjugate. */
  function Conj(v: int): int
  {
    v
  }

  /** `op(A)[i,j]`: `A(i,j)`, `A(j,i)` or `conj(A(j,i))` according to the mode. */
  function Entry(mode: Trans, A: seq<seq<int>>, i: nat, j: nat): (r: int)
    requires EntryDefined(mode, A, i, j)
    ensures mode == NoTranspose ==> r == A[i][j]
    ensures mode != NoTranspose ==> r == A[j][i]
  {
    match mode
    case NoTranspose => A[i][j]
    case Transpose => A[j][i]
    case ConjTranspose => Conj(A[j][i])
  }

  /**
   * The oracle's choice of `op(A)[i,j]` on the raw letter: `conj(A(j,i))` for 'C',
   * `A(j,i)` for 'T', `A(i,j)` otherwise. For an accepted letter it is the mode's entry.
   */
  function SelectEntry(c: char, A: seq<seq<int>>, i: nat, j: nat): (r: int)
    requires ParseMode(c).Ok? && EntryDefined(ParseMode(c).value, A, i, j)
    ensures r == Entry(ParseMode(c).value, A, i, j)
  {
    if c == 'C' then Conj(A[j][i]) else if c == 'T' then A[j][i] else A[i][j]
  }

  /** The transpose of a `rows x cols` matrix, built independently of `Entry`. */
  function Transposed(A: seq<seq<int>>, rows: nat, cols: nat): (t: seq<seq<int>>)
    requires IsMatrix(A, rows, cols)
    ensures IsMatrix(t, cols, rows)
  {
    seq(cols, j requires 0 <= j < cols => seq(rows, i requires 0 <= i < rows => A[i][j]))
  }

  /**
   * For integer scalars the conjugate transpose and the transpose read the same value,
   * and both are the plain entry of the transposed matrix.
   */
  lemma TransposedEntries(A: seq<seq<int>>, n: nat, m: nat, i: nat, j: nat)
    requires Shaped(Transpose, A, n, m) && i < n && j < m
    ensures Shaped(ConjTranspose, A, n, m)
    ensures Shaped(NoTranspose, Transposed(A, m, n), n, m)
    ensures Entry(ConjTranspose, A, i, j) == Entry(Transpose, A, i, j)
    ensures Entry(Transpose, A, i, j) == Entry(NoTranspose, Transposed(A, m, n), i, j)
  {
  }
}
