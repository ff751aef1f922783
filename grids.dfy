/** Rectangular arrays standing in for the numpy arrays of the ear dataset:
    two-dimensional grids (an image, one decoded mask) and the
    `[height, width, instance count]` boolean mask volume. */
module Grids {

  /** A `height x width` array; `rows[i][j]` is the element at row i, column j. */
  datatype Grid<T> = Grid(height: nat, width: nat, rows: seq<seq<T>>)
  {
    predicate Valid() {
      |rows| == height && forall i :: 0 <= i < height ==> |rows[i]| == width
    }
  }

  /** A `height x width x count` boolean array; `bits[i][j][k]` says whether
      instance k covers pixel (i, j). */
  datatype Volume = Volume(height: nat, width: nat, count: nat, bits: seq<seq<seq<bool>>>)
  {
    predicate Valid() {
      |bits| == height &&
      (forall i :: 0 <= i < height ==> |bits[i]| == width) &&
      forall i, j :: 0 <= i < height && 0 <= j < width ==> |bits[i][j]| == count
    }
  }

  /** Two valid grids of one shape that agree element by element are equal. */
  lemma GridExt<T>(a: Grid<T>, b: Grid<T>)
    requires a.Valid() && b.Valid() && a.height == b.height && a.width == b.width
    requires forall i, j :: 0 <= i < a.height && 0 <= j < a.width ==> a.rows[i][j] == b.rows[i][j]
    ensures a == b
  {
    forall i | 0 <= i < a.height ensures a.rows[i] == b.rows[i] {
      assert forall j :: 0 <= j < a.width ==> a.rows[i][j] == b.rows[i][j];
    }
  }

  /** Whether some instance of the volume covers pixel (i, j). */
  predicate Covered(v: Volume, i: nat, j: nat)
    requires v.Valid() && i < v.height && j < v.width
  {
    exists k :: 0 <= k < v.count && v.bits[i][j][k]
  }

  /** The number of true entries, as numpy's `sum` counts a boolean vector. */
  function CountTrue(bits: seq<bool>): (n: nat)
    ensures n <= |bits|
    ensures n == multiset(bits)[true]
    ensures n >= 1 <==> true in bits
  {
    if bits == [] then 0
    else
      assert bits == [bits[0]] + bits[1..];
      (if bits[0] then 1 else 0) + CountTrue(bits[1..])
  }

  /** `astype(bool)` on a decoded mask image: non-zero pixels become true. */
  function ToBool(g: Grid<int>): (r: Grid<bool>)
    requires g.Valid()
    ensures r.Valid() && r.height == g.height && r.width == g.width
    ensures forall i, j :: 0 <= i < r.height && 0 <= j < r.width ==> (r.rows[i][j] <==> g.rows[i][j] != 0)
  {
    Grid(g.height, g.width,
         seq(g.height, i requires 0 <= i < g.height =>
           seq(g.width, j requires 0 <= j < g.width => g.rows[i][j] != 0)))
  }

  datatype StackError = EmptyStack | ShapeMismatch

  datatype StackResult = Stacked(volume: Volume) | NotStacked(error: StackError)

  /** Whether every layer has the shape of the first one. */
  predicate SameShape(layers: seq<Grid<bool>>)
    requires |layers| > 0
  {
    forall k :: 0 <= k < |layers| ==>
      layers[k].height == layers[0].height && layers[k].width == layers[0].width
  }

  /** `np.stack(layers, axis=-1)`: puts the layers side by side along a new
      last axis. An empty list, or layers of different shapes, are refused. */
  function StackLayers(layers: seq<Grid<bool>>): (r: StackResult)
    requires forall k :: 0 <= k < |layers| ==> layers[k].Valid()
    ensures r == NotStacked(EmptyStack) <==> |layers| == 0
    ensures r == NotStacked(ShapeMismatch) <==> |layers| > 0 && !SameShape(layers)
    ensures r.Stacked? ==>
      var v := r.volume;
      SameShape(layers) && v.Valid() && v.count == |layers| &&
      v.height == layers[0].height && v.width == layers[0].width &&
      (forall k :: 0 <= k < v.count ==> layers[k].Valid() && layers[k].height == v.height && layers[k].width == v.width) &&
      forall i, j, k :: 0 <= i < v.height && 0 <= j < v.width && 0 <= k < v.count ==>
        v.bits[i][j][k] == layers[k].rows[i][j]
  {
    if |layers| == 0 then NotStacked(EmptyStack)
    else if !SameShape(layers) then NotStacked(ShapeMismatch)
    else
      var h, w, n := layers[0].height, layers[0].width, |layers|;
      assert forall k :: 0 <= k < n ==> layers[k].height == h && layers[k].width == w;
      assert forall k :: 0 <= k < n ==> layers[k].Valid();
      Stacked(Volume(h, w, n,
        seq(h, i requires 0 <= i < h =>
          seq(w, j requires 0 <= j < w =>
            seq(n, k requires 0 <= k < n => layers[k].rows[i][j])))))
  }

  /** Instance k of a volume as a two-dimensional grid (`v[:, :, k]`). */
  function Layer(v: Volume, k: nat): (g: Grid<bool>)
    requires v.Valid() && k < v.count
    ensures g.Valid() && g.height == v.height && g.width == v.width
    ensures forall i, j :: 0 <= i < g.height && 0 <= j < g.width ==> g.rows[i][j] == v.bits[i][j][k]
  {
    Grid(v.height, v.width,
         seq(v.height, i requires 0 <= i < v.height =>
           seq(v.width, j requires 0 <= j < v.width => v.bits[i][j][k])))
  }

  /** Taking instance k back out of a stack gives the k-th layer that was
      stacked. */
  lemma StackThenLayer(layers: seq<Grid<bool>>, k: nat)
    requires forall q :: 0 <= q < |layers| ==> layers[q].Valid()
    requires StackLayers(layers).Stacked? && k < |layers|
    ensures Layer(StackLayers(layers).volume, k) == layers[k]
  {
    var v := StackLayers(layers).volume;
    GridExt(Layer(v, k), layers[k]);
  }

  /** Stacking the layers of a volume rebuilds the volume. */
  lemma {:induction false} LayersThenStack(v: Volume)
    requires v.Valid() && v.count > 0
    ensures StackLayers(seq(v.count, k requires 0 <= k < v.count => Layer(v, k))) == Stacked(v)
  {
    var layers := seq(v.count, k requires 0 <= k < v.count => Layer(v, k));
    var r := StackLayers(layers);
    assert SameShape(layers);
    var u := r.volume;
    forall i | 0 <= i < v.height ensures u.bits[i] == v.bits[i] {
      forall j | 0 <= j < v.width ensures u.bits[i][j] == v.bits[i][j] {
        assert forall k :: 0 <= k < v.count ==> u.bits[i][j][k] == layers[k].rows[i][j];
      }
    }
  }
}
