/**
 * Strided vectors. The test allocates `x` and `y` as `n x 2` blocks and uses column 0
 * of each block as the vector, so a vector element may sit at a non-unit stride.
 */
module StridedView {

  /** Physical layout of an `n x 2` block: column-major (`LayoutLeft`) or row-major (`LayoutRight`). */
  datatype BlockLayout = LayoutLeft | LayoutRight

  /** The layout of the 1-D view type the test is instantiated with. */
  datatype VectorLayout = VectorLeft | VectorRight | VectorStride

  /** The block is row-major when the vector type is `LayoutStride` and column-major otherwise. */
  function BlockLayoutFor(v: VectorLayout): (r: BlockLayout)
    ensures r == LayoutRight <==> v == VectorStride
  {
    if v == VectorStride then LayoutRight else LayoutLeft
  }

  /** Position of element `(i, col)` of an `n x 2` block in its storage. */
  function Offset(layout: BlockLayout, n: nat, i: nat, col: nat): (r: nat)
    requires i < n && col < 2
    ensures r < 2 * n
    ensures layout == LayoutRight ==> r % 2 == col
    ensures layout == LayoutLeft ==> (r < n <==> col == 0)
  {
    match layout
    case LayoutRight => 2 * i + col
    case LayoutLeft => if col == 0 then i else n + i
  }

  /** Distance between consecutive elements of a column. */
  function Stride(layout: BlockLayout): nat
  {
    if layout == LayoutRight then 2 else 1
  }

  /**
   * Column 0 starts at the front of the block and steps by the layout's stride: logical
   * element `i` sits at `2*i` for a `LayoutStride` vector and at `i` otherwise. Every
   * element lies inside the `2n` storage slots.
   */
  lemma ColumnZeroAddressing(v: VectorLayout, n: nat, i: nat)
    requires i < n
    ensures Offset(BlockLayoutFor(v), n, i, 0) == Stride(BlockLayoutFor(v)) * i
    ensures Stride(BlockLayoutFor(v)) == if v == VectorStride then 2 else 1
    ensures Offset(BlockLayoutFor(v), n, i, 1) < 2 * n
  {
  }

  /** Distinct block elements occupy distinct storage slots, whatever the layout. */
  lemma OffsetInjective(layout: BlockLayout, n: nat, i: nat, c: nat, k: nat, d: nat)
    requires i < n && c < 2 && k < n && d < 2
    ensures Offset(layout, n, i, c) == Offset(layout, n, k, d) <==> i == k && c == d
  {
  }

  /** Column `col` of the block stored in `s`. */
  function Column(s: seq<int>, layout: BlockLayout, n: nat, col: nat): (r: seq<int>)
    requires |s| == 2 * n && col < 2
    ensures |r| == n
  {
    seq(n, i requires 0 <= i < n => s[Offset(layout, n, i, col)])
  }

  /**
   * Writing logical element `i` of column 0 changes exactly that element of the column
   * and never touches column 1 of the block.
   */
  lemma ColumnWrite(s: seq<int>, layout: BlockLayout, n: nat, i: nat, v: int)
    requires |s| == 2 * n && i < n
    ensures Column(s[Offset(layout, n, i, 0) := v], layout, n, 0) == Column(s, layout, n, 0)[i := v]
    ensures Column(s[Offset(layout, n, i, 0) := v], layout, n, 1) == Column(s, layout, n, 1)
  {
    var t := s[Offset(layout, n, i, 0) := v];
    forall k | 0 <= k < n
      ensures Column(t, layout, n, 0)[k] == Column(s, layout, n, 0)[i := v][k]
      ensures Column(t, layout, n, 1)[k] == Column(s, layout, n, 1)[k]
    {
      OffsetInjective(layout, n, i, 0, k, 0);
      OffsetInjective(layout, n, i, 0, k, 1);
    }
  }

  /** A vector view: column 0 of an `len x 2` block held in `block`. */
  datatype ColumnView = ColumnView(block: array<int>, layout: BlockLayout, len: nat)
  {
    predicate Valid()
    {
      block.Length == 2 * len
    }

    /** Storage slot of logical element `i`. */
    function Slot(i: nat): nat
      requires i < len
    {
      Offset(layout, len, i, 0)
    }

    /** The logical vector the view shows. */
    function Elements(): (r: seq<int>)
      requires Valid()
      reads block
      ensures |r| == len
    {
      Column(block[..], layout, len, 0)
    }

    /** Logical element `i` is read from its storage slot. */
    lemma ElementAt(i: nat)
      requires Valid() && i < len
      ensures Elements()[i] == block[Slot(i)]
    {
    }

    /** The other column of the block, which the view never shows. */
    function Spare(): (r: seq<int>)
      requires Valid()
      reads block
      ensures |r| == len
    {
      Column(block[..], layout, len, 1)
    }
  }
}
