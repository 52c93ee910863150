/**
 * The shared helpers of the fits: `preprocess` (shape check, raveling and
 * the paired sort by x) and the shape helpers `replace_axis`, `axis_slice`
 * and `transpose_last`.
 */
module Util {
  import opened Wrappers
  import opened Numerics

  // ---------------------------------------------------------------------
  // Sorting samples by x, carrying y along

  /** A sample point (x, y). */
  type Sample = (real, real)

  /** Every x is at most every later x. */
  predicate Ascending(x: seq<real>)
  {
    forall i, j :: 0 <= i < j < |x| ==> x[i] <= x[j]
  }

  predicate SortedByX(s: seq<Sample>)
  {
    forall i, j :: 0 <= i < j < |s| ==> s[i].0 <= s[j].0
  }

  function Zip(x: seq<real>, y: seq<real>): (s: seq<Sample>)
    requires |x| == |y|
    ensures |s| == |x|
    ensures forall i :: 0 <= i < |x| ==> s[i] == (x[i], y[i])
  {
    seq(|x|, i requires 0 <= i < |x| => (x[i], y[i]))
  }

  function Xs(s: seq<Sample>): (x: seq<real>)
    ensures |x| == |s| && forall i :: 0 <= i < |s| ==> x[i] == s[i].0
  {
    seq(|s|, i requires 0 <= i < |s| => s[i].0)
  }

  function Ys(s: seq<Sample>): (y: seq<real>)
    ensures |y| == |s| && forall i :: 0 <= i < |s| ==> y[i] == s[i].1
  {
    seq(|s|, i requires 0 <= i < |s| => s[i].1)
  }

  /** Places p before the first sample whose x is not smaller. */
  function Insert(p: Sample, s: seq<Sample>): (r: seq<Sample>)
    requires SortedByX(s)
    ensures |r| == |s| + 1
    ensures multiset(r) == multiset(s) + multiset{p}
    ensures SortedByX(r)
    decreases |s|
  {
    if |s| == 0 || p.0 <= s[0].0 then
      [p] + s
    else
      var rest := Insert(p, s[1..]);
      assert s == [s[0]] + s[1..];
      forall q | q in rest ensures s[0].0 <= q.0 {
        assert q in multiset(rest);
        assert q == p || q in multiset(s[1..]);
      }
      [s[0]] + rest
  }

  /** The samples reordered so that x ascends: `ind = argsort(x)` applied to both. */
  function SortSamples(s: seq<Sample>): (r: seq<Sample>)
    ensures |r| == |s|
    ensures multiset(r) == multiset(s)
    ensures SortedByX(r)
  {
    if |s| == 0 then []
    else
      assert s == [s[0]] + s[1..];
      Insert(s[0], SortSamples(s[1..]))
  }

  /**
   * `ind = argsort(x); x = x[ind]; y = y[ind]`: x in ascending order, with
   * every (x, y) pair kept together.
   */
  function SortByX(x: seq<real>, y: seq<real>): (xy: (seq<real>, seq<real>))
    requires |x| == |y|
    ensures |xy.0| == |xy.1| == |x|
    ensures Ascending(xy.0)
    ensures multiset(Zip(xy.0, xy.1)) == multiset(Zip(x, y))
  {
    var s := SortSamples(Zip(x, y));
    assert Zip(Xs(s), Ys(s)) == s;
    AscendingXs(s);
    (Xs(s), Ys(s))
  }

  lemma {:induction false} AscendingXs(s: seq<Sample>)
    requires SortedByX(s)
    ensures Ascending(Xs(s))
  {
    var x := Xs(s);
    forall i, j | 0 <= i < j < |x| ensures x[i] <= x[j] {
      assert s[i].0 <= s[j].0;
    }
  }

  // ---------------------------------------------------------------------
  // preprocess

  /** The number of entries of an array of this shape. */
  function Size(shape: seq<nat>): nat
  {
    if |shape| == 0 then 1 else shape[0] * Size(shape[1..])
  }

  /** An array: its shape and its entries in row-major order. */
  datatype NdArray = NdArray(shape: seq<nat>, data: seq<real>)
  {
    predicate Valid()
    {
      |data| == Size(shape)
    }

    /** `ravel()`: the same entries as a 1-D array. */
    function Ravel(): (r: NdArray)
      ensures r.shape == [|data|] && r.data == data && r.Valid()
    {
      assert Size([|data|]) == |data| * Size([]);
      NdArray([|data|], data)
    }
  }

  /**
   * `preprocess(x, y, axis, sorted)`: returns `(x, y, axis)`. With no axis
   * both arrays are raveled and the axis becomes 0; differing shapes raise
   * ValueError; unless `sorted`, both arrays are reordered by `argsort(x)`.
   */
  function Preprocess(x: NdArray, y: NdArray, axis: Option<int>, sorted: bool): (r: Result<(NdArray, NdArray, int), Failure>)
    requires x.Valid() && y.Valid()
    requires sorted || axis.None? || |x.shape| == 1 || x.shape != y.shape
    ensures r.Err? ==> r.error == ValueError || r.error == AxisError
    ensures (r.Err? && r.error == ValueError) <==>
      (if axis.None? then |x.data| != |y.data| else x.shape != y.shape)
    ensures (r.Err? && r.error == AxisError) <==>
      (axis.Some? && x.shape == y.shape && !sorted && !(-1 <= axis.value < 1))
    ensures r.Ok? && axis.None? ==>
      r.value.0.shape == r.value.1.shape == [|x.data|] && r.value.2 == 0
    ensures r.Ok? && axis.Some? ==>
      r.value.0.shape == r.value.1.shape == x.shape && r.value.2 == axis.value
    ensures r.Ok? && sorted ==> r.value.0.data == x.data && r.value.1.data == y.data
    ensures r.Ok? && !sorted ==>
      && Ascending(r.value.0.data)
      && |r.value.0.data| == |r.value.1.data| == |x.data| == |y.data|
      && multiset(Zip(r.value.0.data, r.value.1.data)) == multiset(Zip(x.data, y.data))
  {
    var (x1, y1, ax) := if axis.None? then (x.Ravel(), y.Ravel(), 0) else (x, y, axis.value);
    if x1.shape != y1.shape then Err(ValueError)
    else if sorted then Ok((x1, y1, ax))
    else if !(-1 <= ax < 1) then Err(AxisError)
    else
      var (xs, ys) := SortByX(x1.data, y1.data);
      Ok((NdArray(x1.shape, xs), NdArray(y1.shape, ys), ax))
  }

  // ---------------------------------------------------------------------
  // Shape helpers

  /** `normalize_axis_index(axis, ndim)`: a negative axis counts from the end. */
  function NormalizeAxis(axis: int, ndim: nat): (r: Result<nat, Failure>)
    ensures r.Ok? <==> 0 <= axis + ndim && axis < ndim
    ensures r.Err? ==> r.error == AxisError
    ensures r.Ok? ==> r.value < ndim && (r.value == axis || r.value == axis + ndim)
  {
    if 0 <= axis + ndim && axis < 0 then Ok(axis + ndim)
    else if 0 <= axis < ndim then Ok(axis)
    else Err(AxisError)
  }

  /** `replace_axis`: the shape with the entry at `axis` set to `size`. */
  function ReplaceAxis(shape: seq<nat>, axis: int, size: nat): (r: Result<seq<nat>, Failure>)
    ensures r.Ok? <==> 0 <= axis + |shape| && axis < |shape|
    ensures r.Err? ==> r.error == AxisError
    ensures r.Ok? ==>
      var k := NormalizeAxis(axis, |shape|).value;
      && |r.value| == |shape|
      && r.value[k] == size
      && forall i :: 0 <= i < |shape| && i != k ==> r.value[i] == shape[i]
  {
    match NormalizeAxis(axis, |shape|)
    case Err(e) => Err(e)
    case Ok(k) => Ok(shape[..k] + [size] + shape[k + 1..])
  }

  /** Replacing an axis and then putting the old size back restores the shape. */
  lemma {:induction false} ReplaceAxisRestore(shape: seq<nat>, axis: int, size: nat)
    requires 0 <= axis + |shape| && axis < |shape|
    ensures var k := NormalizeAxis(axis, |shape|).value;
      ReplaceAxis(ReplaceAxis(shape, axis, size).value, axis, shape[k]) == Ok(shape)
  {
    var k := NormalizeAxis(axis, |shape|).value;
    var t := ReplaceAxis(shape, axis, size).value;
    var u := ReplaceAxis(t, axis, shape[k]).value;
    assert u == shape;
  }

  /** One entry of an index tuple: `slice(None)`, the caller's index, or `Ellipsis`. */
  datatype IndexItem<T> = Full | At(index: T) | Rest

  /** `axis_slice`: `axis` full slices, then `index`, then Ellipsis. */
  function AxisSlice<T>(ndim: nat, axis: int, index: T): (r: Result<seq<IndexItem<T>>, Failure>)
    ensures r.Ok? <==> 0 <= axis + ndim && axis < ndim
    ensures r.Err? ==> r.error == AxisError
    ensures r.Ok? ==>
      var k := NormalizeAxis(axis, ndim).value;
      && |r.value| == k + 2
      && (forall i :: 0 <= i < k ==> r.value[i] == Full)
      && r.value[k] == At(index)
      && r.value[k + 1] == Rest
  {
    match NormalizeAxis(axis, ndim)
    case Err(e) => Err(e)
    case Ok(k) => Ok(seq(k, _ => Full) + [At(index), Rest])
  }

  /**
   * The shape numpy's basic indexing gives an array of shape `shape` under an
   * index tuple: a full slice keeps its axis, an integer in range drops it, a
   * trailing Ellipsis keeps all remaining axes. None stands for IndexError
   * and for index tuples outside these forms.
   */
  function IndexedShape(shape: seq<nat>, items: seq<IndexItem<int>>): Option<seq<nat>>
    decreases |items|
  {
    if |items| == 0 then Some(shape)
    else match items[0]
      case Rest => if |items| == 1 then Some(shape) else None
      case Full =>
        if |shape| == 0 then None
        else (match IndexedShape(shape[1..], items[1..])
          case None => None
          case Some(t) => Some([shape[0]] + t))
      case At(i) =>
        if |shape| == 0 || !(0 <= i + shape[0] && i < shape[0]) then None
        else IndexedShape(shape[1..], items[1..])
  }

  lemma {:induction false} SelectAt(shape: seq<nat>, k: nat, i: int)
    requires k < |shape| && 0 <= i + shape[k] && i < shape[k]
    ensures IndexedShape(shape, seq(k, _ => Full) + [At(i), Rest]) == Some(shape[..k] + shape[k + 1..])
  {
    var items := seq(k, _ => Full) + [At(i), Rest];
    if k == 0 {
      assert items[1..] == [Rest];
      assert shape[..0] + shape[1..] == shape[1..];
    } else {
      assert items[1..] == seq(k - 1, _ => Full) + [At(i), Rest];
      SelectAt(shape[1..], k - 1, i);
      assert [shape[0]] + (shape[1..][..k - 1] + shape[1..][k..]) == shape[..k] + shape[k + 1..];
    }
  }

  /** Indexing with `axis_slice(arr, axis, i)` for an integer i in range drops exactly that axis. */
  lemma {:induction false} AxisSliceSelects(shape: seq<nat>, axis: int, i: int)
    requires 0 <= axis + |shape| && axis < |shape|
    requires var k := NormalizeAxis(axis, |shape|).value; 0 <= i + shape[k] && i < shape[k]
    ensures var k := NormalizeAxis(axis, |shape|).value;
      IndexedShape(shape, AxisSlice(|shape|, axis, i).value) == Some(shape[..k] + shape[k + 1..])
  {
    var k := NormalizeAxis(axis, |shape|).value;
    SelectAt(shape, k, i);
  }

  /**
   * A numpy array as a strided view of a buffer: the shape, the step in the
   * buffer for each axis, and the position of element (0, ..., 0).
   */
  datatype View = View(shape: seq<nat>, strides: seq<int>, offset: int)
  {
    predicate Valid()
    {
      |shape| == |strides|
    }

    /** The indices that address an element of this view. */
    predicate InBounds(idx: seq<int>)
    {
      |idx| == |shape| && forall k :: 0 <= k < |idx| ==> 0 <= idx[k] < shape[k]
    }

    /** Where the element at `idx` lives in the buffer. */
    function Locate(idx: seq<int>): int
      requires Valid() && |idx| == |shape|
    {
      offset + Position(idx, strides)
    }
  }

  /** The sum of `idx[k] * strides[k]`. */
  function Position(idx: seq<int>, strides: seq<int>): int
    requires |idx| == |strides|
  {
    if |idx| == 0 then 0
    else Position(idx[..|idx| - 1], strides[..|idx| - 1]) + idx[|idx| - 1] * strides[|idx| - 1]
  }

  /** The sequence with its last two entries exchanged. */
  function SwapLast<T>(s: seq<T>): (r: seq<T>)
    requires |s| >= 2
    ensures |r| == |s| && r[..|s| - 2] == s[..|s| - 2]
    ensures r[|s| - 2] == s[|s| - 1] && r[|s| - 1] == s[|s| - 2]
  {
    s[..|s| - 2] + [s[|s| - 1], s[|s| - 2]]
  }

  /** `transpose_last`: swaps the last two axes of a view with two or more; others pass through. */
  function TransposeLast(v: View): (r: View)
    requires v.Valid()
    ensures r.Valid() && r.offset == v.offset
    ensures |v.shape| >= 2 ==> r.shape == SwapLast(v.shape) && r.strides == SwapLast(v.strides)
    ensures |v.shape| < 2 ==> r == v
  {
    if |v.shape| >= 2 then View(SwapLast(v.shape), SwapLast(v.strides), v.offset) else v
  }

  lemma {:induction false} SwapLastTwice<T>(s: seq<T>)
    requires |s| >= 2
    ensures SwapLast(SwapLast(s)) == s
  {
    var r := SwapLast(SwapLast(s));
    assert r[..|s| - 2] == s[..|s| - 2];
    assert r == r[..|s| - 2] + [r[|s| - 2], r[|s| - 1]];
    assert s == s[..|s| - 2] + [s[|s| - 2], s[|s| - 1]];
  }

  /** Transposing the last two axes twice gives back the same view. */
  lemma {:induction false} TransposeLastTwice(v: View)
    requires v.Valid()
    ensures TransposeLast(TransposeLast(v)) == v
  {
    if |v.shape| >= 2 {
      SwapLastTwice(v.shape);
      SwapLastTwice(v.strides);
    }
  }

  lemma {:induction false} PositionSwapLast(idx: seq<int>, strides: seq<int>)
    requires |idx| == |strides| >= 2
    ensures Position(SwapLast(idx), SwapLast(strides)) == Position(idx, strides)
  {
    var n := |idx|;
    var i2, s2 := SwapLast(idx), SwapLast(strides);
    assert i2[..n - 1][..n - 2] == idx[..n - 1][..n - 2];
    assert s2[..n - 1][..n - 2] == strides[..n - 1][..n - 2];
  }

  /**
   * Element `(..., i, j)` of the transposed view is element `(..., j, i)` of
   * the original: the same place in the same buffer.
   */
  lemma {:induction false} TransposeLastElement(v: View, idx: seq<int>)
    requires v.Valid() && |v.shape| >= 2 && TransposeLast(v).InBounds(idx)
    ensures v.InBounds(SwapLast(idx))
    ensures TransposeLast(v).Locate(idx) == v.Locate(SwapLast(idx))
  {
    var n := |idx|;
    var j := SwapLast(idx);
    forall k | 0 <= k < n ensures 0 <= j[k] < v.shape[k] {
      if k < n - 2 {
        assert j[k] == j[..n - 2][k] && v.shape[k] == v.shape[..n - 2][k];
        assert idx[k] == idx[..n - 2][k] && SwapLast(v.shape)[k] == SwapLast(v.shape)[..n - 2][k];
      }
    }
    SwapLastTwice(idx);
    SwapLastTwice(v.strides);
    PositionSwapLast(j, v.strides);
  }
}
