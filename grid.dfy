/**
 * GridSample: the nearest-grid-point search shared (as four copies) by the GFS
 * scripts, over n-dimensional arrays of reals stored flat in row-major order,
 * the way numpy lays them out.
 */
module Grid {
  import opened Common

  /** Number of elements of an array of the given shape (1 for a 0-d scalar). */
  function Size(shape: seq<nat>): nat
  {
    if shape == [] then 1 else shape[0] * Size(shape[1..])
  }

  datatype RawArray = RawArray(shape: seq<nat>, data: seq<real>)

  /** A numpy array: a shape and its elements in row-major order. */
  type NdArray = a: RawArray | |a.data| == Size(a.shape) witness RawArray([], [0.0])

  /** `shape` with every axis of length one removed, as np.squeeze does. */
  function DropUnitAxes(shape: seq<nat>): (r: seq<nat>)
    ensures Size(r) == Size(shape)
    ensures forall k :: 0 <= k < |r| ==> r[k] != 1
    ensures |r| <= |shape|
  {
    if shape == [] then []
    else if shape[0] == 1 then DropUnitAxes(shape[1..])
    else
      var rest := DropUnitAxes(shape[1..]);
      assert ([shape[0]] + rest)[1..] == rest;
      [shape[0]] + rest
  }

  /** The axes np.squeeze keeps are exactly the non-unit axes, in their order. */
  lemma {:induction false} DropUnitAxesKeepsOrder(shape: seq<nat>)
    ensures DropUnitAxes(shape) == Filter(shape, d => d != 1)
  {
    if shape != [] {
      DropUnitAxesKeepsOrder(shape[1..]);
      assert shape == [shape[0]] + shape[1..];
      FilterConcat([shape[0]], shape[1..], d => d != 1);
      assert [shape[0]][..0] == [];
      assert Filter([shape[0]], d => d != 1) == if shape[0] != 1 then [shape[0]] else [];
    }
  }

  /** np.squeeze: the same elements, in the same order, without unit axes. */
  function Squeeze(a: NdArray): (r: NdArray)
    ensures r.data == a.data
    ensures r.shape == Filter(a.shape, d => d != 1)
    ensures Size(r.shape) == Size(a.shape)
    ensures forall k :: 0 <= k < |r.shape| ==> r.shape[k] != 1
  {
    DropUnitAxesKeepsOrder(a.shape);
    RawArray(DropUnitAxes(a.shape), a.data)
  }

  predicate InBounds(shape: seq<nat>, idx: seq<nat>)
  {
    |idx| == |shape| && forall k :: 0 <= k < |idx| ==> idx[k] < shape[k]
  }

  /** Row-major position of the element at `idx`. */
  function Offset(shape: seq<nat>, idx: seq<nat>): (r: nat)
    requires InBounds(shape, idx)
    ensures r < Size(shape)
  {
    if shape == [] then 0
    else
      var inner := Offset(shape[1..], idx[1..]);
      MulStep(idx[0], shape[0], Size(shape[1..]), inner);
      idx[0] * Size(shape[1..]) + inner
  }

  lemma MulStep(i: nat, n: nat, m: nat, inner: nat)
    requires i < n && inner < m
    ensures i * m + inner < n * m
  {
    assert (i + 1) * m <= n * m;
  }

  lemma SizeLowRank(shape: seq<nat>)
    ensures |shape| == 1 ==> Size(shape) == shape[0]
    ensures |shape| == 2 ==> Size(shape) == shape[0] * shape[1]
  {
    if |shape| == 2 {
      assert Size(shape[1..]) == shape[1] by {
        assert shape[1..][1..] == [];
      }
    } else if |shape| == 1 {
      assert shape[1..] == [];
    }
  }

  lemma OffsetRankOne(shape: seq<nat>, idx: seq<nat>)
    requires InBounds(shape, idx) && |idx| == 1
    ensures Offset(shape, idx) == idx[0]
  {
    assert shape[1..] == [];
    SizeLowRank(shape[1..]);
  }

  lemma OffsetRankTwo(shape: seq<nat>, idx: seq<nat>)
    requires InBounds(shape, idx) && |idx| == 2
    ensures Offset(shape, idx) == idx[0] * shape[1] + idx[1]
  {
    OffsetRankOne(shape[1..], idx[1..]);
    SizeLowRank(shape[1..]);
  }

  lemma OffsetRankThree(shape: seq<nat>, idx: seq<nat>)
    requires InBounds(shape, idx) && |idx| == 3
    ensures Offset(shape, idx) == (idx[0] * shape[1] + idx[1]) * shape[2] + idx[2]
  {
    OffsetRankTwo(shape[1..], idx[1..]);
    SizeLowRank(shape[1..]);
    RowMajorRegroup(idx[0], idx[1], idx[2], shape[1], shape[2]);
  }

  /** arr[0, i, j] of a 3-D array is the element at row-major position i * cols + j. */
  lemma OffsetFirstSlice(shape: seq<nat>, i: nat, j: nat)
    requires |shape| == 3 && 0 < shape[0] && i < shape[1] && j < shape[2]
    ensures InBounds(shape, [0, i, j])
    ensures Offset(shape, [0, i, j]) == i * shape[2] + j
  {
    var idx := [0, i, j];
    assert forall k :: 0 <= k < 3 ==> idx[k] < shape[k];
    OffsetRankThree(shape, idx);
  }

  lemma RowMajorRegroup(i: int, j: int, k: int, n: int, m: int)
    ensures i * (n * m) + (j * m + k) == (i * n + j) * m + k
  {
    assert i * (n * m) == (i * n) * m;
  }

  /**
   * `a[idx]` converted to one number. None when numpy raises IndexError (an index
   * out of range or more indices than axes) and when fewer indices than axes
   * select a sub-array, which the callers' float() or max() refuses.
   */
  function Element(a: NdArray, idx: seq<nat>): (r: Option<real>)
    ensures r.Some? <==> InBounds(a.shape, idx)
    ensures r.Some? ==> r.value == a.data[Offset(a.shape, idx)]
  {
    if InBounds(a.shape, idx) then Some(a.data[Offset(a.shape, idx)]) else None
  }

  /** arr[lat_idx, lon_idx] converted to one number: only a 2-D array with the cell in range gives one. */
  function ValueAtCell(arr: NdArray, cell: Cell): (r: Option<real>)
    ensures r.Some? <==> |arr.shape| == 2 && cell.latIdx < arr.shape[0] && cell.lonIdx < arr.shape[1]
    ensures r.Some? ==> cell.latIdx * arr.shape[1] + cell.lonIdx < |arr.data| &&
                        r.value == arr.data[cell.latIdx * arr.shape[1] + cell.lonIdx]
  {
    var idx := [cell.latIdx, cell.lonIdx];
    if |arr.shape| == 2 && cell.latIdx < arr.shape[0] && cell.lonIdx < arr.shape[1] then
      assert InBounds(arr.shape, idx);
      OffsetRankTwo(arr.shape, idx);
      Element(arr, idx)
    else
      assert !InBounds(arr.shape, idx);
      Element(arr, idx)
  }

  /** What `arr[lat_idx, lon_idx]` gives in numpy, before any conversion. */
  datatype Indexed =
    | Scalar(value: real)          // a 2-D array: one element
    | SubArray(elems: seq<real>)   // a higher-rank array: the block over the remaining axes
    | IndexError                   // fewer than two axes, or an index out of range

  lemma MulMonotone(a: nat, b: nat, c: nat)
    requires a <= b
    ensures a * c <= b * c
  {
  }

  lemma MulAssociative(a: nat, b: nat, c: nat)
    ensures (a * b) * c == a * (b * c)
  {
  }

  lemma SubArrayFits(i: nat, j: nat, n0: nat, n1: nat, s: nat)
    requires i < n0 && j < n1
    ensures (i * n1 + j) * s + s <= n0 * (n1 * s)
  {
    MulStep(i, n0, n1, j);
    var o := i * n1 + j;
    MulMonotone(o + 1, n0 * n1, s);
    MulAssociative(n0, n1, s);
    assert (o + 1) * s == o * s + s;
  }

  /** The block over the trailing axes at an in-range cell lies inside the data. */
  lemma BlockFits(arr: NdArray, cell: Cell)
    requires |arr.shape| > 2 && cell.latIdx < arr.shape[0] && cell.lonIdx < arr.shape[1]
    ensures (cell.latIdx * arr.shape[1] + cell.lonIdx) * Size(arr.shape[2..]) + Size(arr.shape[2..]) <= |arr.data|
  {
    var block := Size(arr.shape[2..]);
    assert arr.shape[1..][1..] == arr.shape[2..];
    assert Size(arr.shape[1..]) == arr.shape[1] * block;
    assert |arr.data| == arr.shape[0] * (arr.shape[1] * block);
    SubArrayFits(cell.latIdx, cell.lonIdx, arr.shape[0], arr.shape[1], block);
  }

  /**
   * arr[lat_idx, lon_idx] without conversion: one element of a 2-D array, the
   * row-major block of the trailing axes of a higher-rank array, IndexError
   * when an index is out of range or the array has fewer than two axes.
   */
  function IndexCell(arr: NdArray, cell: Cell): (r: Indexed)
    ensures |arr.shape| == 2 ==>
              (r.Scalar? <==> ValueAtCell(arr, cell).Some?) && !r.SubArray? &&
              (r.Scalar? ==> r.value == ValueAtCell(arr, cell).value)
    ensures |arr.shape| < 2 ==> r == IndexError
    ensures |arr.shape| > 2 ==>
              !r.Scalar? && (r.SubArray? <==> cell.latIdx < arr.shape[0] && cell.lonIdx < arr.shape[1])
    ensures r.SubArray? ==>
              var block := Size(arr.shape[2..]);
              var start := (cell.latIdx * arr.shape[1] + cell.lonIdx) * block;
              |r.elems| == block && start + block <= |arr.data| && r.elems == arr.data[start..start + block]
  {
    if |arr.shape| == 2 then
      match ValueAtCell(arr, cell)
      case Some(v) => Scalar(v)
      case None => IndexError
    else if |arr.shape| > 2 && cell.latIdx < arr.shape[0] && cell.lonIdx < arr.shape[1] then
      var block := Size(arr.shape[2..]);
      var start := (cell.latIdx * arr.shape[1] + cell.lonIdx) * block;
      BlockFits(arr, cell);
      SubArray(arr.data[start..start + block])
    else IndexError
  }

  /**
   * The indexed value where Python can use it as one number (float(), a
   * comparison, max()): a scalar, or a sub-array holding exactly one element.
   */
  function AsNumber(x: Indexed): (r: Option<real>)
    ensures r.Some? <==> x.Scalar? || (x.SubArray? && |x.elems| == 1)
    ensures x.SubArray? && |x.elems| == 1 ==> r == Some(x.elems[0])
    ensures x.Scalar? ==> r == Some(x.value)
  {
    match x
    case Scalar(v) => Some(v)
    case SubArray(elems) => if |elems| == 1 then Some(elems[0]) else None
    case IndexError => None
  }

  /** np.where(lons > 180, lons - 360, lons), for one value. */
  function NormalizeLongitude(x: real): (r: real)
    ensures x > 180.0 ==> r == x - 360.0
    ensures x <= 180.0 ==> r == x
  {
    if x > 180.0 then x - 360.0 else x
  }

  lemma {:induction false} NormalizeLongitudeRange(x: real)
    requires 0.0 <= x < 360.0
    ensures -180.0 < NormalizeLongitude(x) <= 180.0
    ensures NormalizeLongitude(x) == x <==> x <= 180.0
  {
  }

  /** The longitude array with every value above 180 moved down by 360. */
  function NormalizeLongitudes(a: NdArray): (r: NdArray)
    ensures r.shape == a.shape && |r.data| == |a.data|
    ensures forall k :: 0 <= k < |a.data| ==>
              (a.data[k] > 180.0 ==> r.data[k] == a.data[k] - 360.0) &&
              (a.data[k] <= 180.0 ==> r.data[k] == a.data[k])
  {
    RawArray(a.shape, seq(|a.data|, k requires 0 <= k < |a.data| => NormalizeLongitude(a.data[k])))
  }

  /** `k` is the first position of a least element of `d`, as np.argmin returns it. */
  ghost predicate IsFirstMin(d: seq<real>, k: nat)
  {
    k < |d| &&
    (forall j :: 0 <= j < |d| ==> d[k] <= d[j]) &&
    (forall j :: 0 <= j < k ==> d[k] < d[j])
  }

  /** np.argmin on a non-empty array (numpy raises on an empty one). */
  function ArgMin(d: seq<real>): (k: nat)
    requires |d| > 0
    ensures IsFirstMin(d, k)
  {
    if |d| == 1 then 0
    else
      var k := ArgMin(d[..|d| - 1]);
      if d[|d| - 1] < d[k] then |d| - 1 else k
  }

  /** np.abs(a - x), elementwise. */
  function AbsDiffs(a: seq<real>, x: real): (r: seq<real>)
    ensures |r| == |a| && forall i :: 0 <= i < |a| ==> r[i] == Abs(a[i] - x)
  {
    seq(|a|, i requires 0 <= i < |a| => Abs(a[i] - x))
  }

  lemma PositiveSquare(y: real)
    requires y > 0.0
    ensures y * y > 0.0
  {
  }

  /** A square is never negative. */
  lemma Square(x: real)
    ensures x * x >= 0.0
  {
    if x < 0.0 {
      PositiveSquare(-x);
      assert x * x == (-x) * (-x);
    } else if x > 0.0 {
      PositiveSquare(x);
    }
  }

  /**
   * Squared degree-space distance between two points. The source takes the
   * square root; sqrt is monotone, so the first minimum is at the same place.
   */
  function SquaredDistance(lat1: real, lon1: real, lat2: real, lon2: real): (r: real)
    ensures r >= 0.0
    ensures lat1 == lat2 && lon1 == lon2 ==> r == 0.0
  {
    var dLat, dLon := lat1 - lat2, lon1 - lon2;
    Square(dLat);
    Square(dLon);
    dLat * dLat + dLon * dLon
  }

  /** (lats - lat)**2 + (lons - lon)**2 over a mesh, in row-major order. */
  function SquaredDistances(lats: seq<real>, lons: seq<real>, lat: real, lon: real): (r: seq<real>)
    requires |lats| == |lons|
    ensures |r| == |lats|
    ensures forall k :: 0 <= k < |r| ==> r[k] == SquaredDistance(lats[k], lons[k], lat, lon)
  {
    seq(|lats|, k requires 0 <= k < |lats| => SquaredDistance(lats[k], lons[k], lat, lon))
  }

  /** The (lat_idx, lon_idx) pair the scripts index a field with. */
  datatype Cell = Cell(latIdx: nat, lonIdx: nat)

  /** np.unravel_index(k, (rows, cols)) for a row-major array. */
  function UnravelIndex(k: nat, rows: nat, cols: nat): (c: Cell)
    requires k < rows * cols
    ensures c.latIdx < rows && c.lonIdx < cols && c.latIdx * cols + c.lonIdx == k
  {
    Cell(k / cols, k % cols)
  }

  /** Both axes 1-D: each axis gets its own first argmin of the absolute difference. */
  function NearestOnAxes(lats: seq<real>, lons: seq<real>, lat: real, lon: real): (r: Result<Cell>)
    ensures r.Ok? <==> |lats| > 0 && |lons| > 0
    ensures r.Err? ==> r.error == EmptyGrid
    ensures r.Ok? ==> IsFirstMin(AbsDiffs(lats, lat), r.value.latIdx)
    ensures r.Ok? ==> IsFirstMin(AbsDiffs(lons, lon), r.value.lonIdx)
  {
    if |lats| == 0 || |lons| == 0 then Err(EmptyGrid)
    else Ok(Cell(ArgMin(AbsDiffs(lats, lat)), ArgMin(AbsDiffs(lons, lon))))
  }

  /**
   * Both arrays 2-D: np.unravel_index(np.argmin(d), d.shape), the row-major
   * first cell of least distance.
   */
  function NearestOnMesh(lats: NdArray, lons: NdArray, lat: real, lon: real): (r: Result<Cell>)
    requires |lats.shape| == 2 && |lons.shape| == 2
    ensures r.Ok? <==> lats.shape == lons.shape && |lats.data| > 0
    ensures r.Err? ==> r.error == GridShapeMismatch || r.error == EmptyGrid
    ensures r.Ok? ==> r.value.latIdx < lats.shape[0] && r.value.lonIdx < lats.shape[1]
    ensures r.Ok? ==>
              IsFirstMin(SquaredDistances(lats.data, lons.data, lat, lon),
                         r.value.latIdx * lats.shape[1] + r.value.lonIdx)
  {
    if lats.shape != lons.shape then Err(GridShapeMismatch)
    else if |lats.data| == 0 then Err(EmptyGrid)
    else
      SizeLowRank(lats.shape);
      var k := ArgMin(SquaredDistances(lats.data, lons.data, lat, lon));
      Ok(UnravelIndex(k, lats.shape[0], lats.shape[1]))
  }

  /**
   * The nearest-grid-point selection of get_snow_depth_at_location,
   * get_var_at_location and get_precip_type: `lats` and `rawLons` are
   * ds['latitude'].values and ds['longitude'].values, the longitudes not yet
   * normalised.
   */
  function NearestCell(lats: NdArray, rawLons: NdArray, lat: real, lon: real): (r: Result<Cell>)
    ensures !((|lats.shape| == 2 && |rawLons.shape| == 2) || (|lats.shape| == 1 && |rawLons.shape| == 1)) ==>
              r == Err(UnexpectedGridDims)
    ensures |lats.shape| == 1 && |rawLons.shape| == 1 ==>
              r == NearestOnAxes(lats.data, NormalizeLongitudes(rawLons).data, lat, lon)
    ensures |lats.shape| == 2 && |rawLons.shape| == 2 ==>
              r == NearestOnMesh(lats, NormalizeLongitudes(rawLons), lat, lon)
  {
    var lons := NormalizeLongitudes(rawLons);
    if |lats.shape| == 2 && |lons.shape| == 2 then NearestOnMesh(lats, lons, lat, lon)
    else if |lats.shape| == 1 && |lons.shape| == 1 then NearestOnAxes(lats.data, lons.data, lat, lon)
    else Err(UnexpectedGridDims)
  }
}
