/** The color-splash effect (`color_splash` in samples/ears/ears.py): pixels
    covered by at least one detected instance keep their color, all others
    take the gray version of the image. The gray image is an input here; how
    it is computed from the color one is not modelled. */
module Splash {
  import opened Grids

  /** `np.sum(mask, -1, keepdims=True) >= 1`: one boolean per pixel, set
      where at least one instance covers it. */
  function AnyInstance(mask: Volume): (fg: Grid<bool>)
    requires mask.Valid()
    ensures fg.Valid() && fg.height == mask.height && fg.width == mask.width
    ensures forall i, j :: 0 <= i < fg.height && 0 <= j < fg.width ==>
              (fg.rows[i][j] <==> Covered(mask, i, j))
  {
    Grid(mask.height, mask.width,
         seq(mask.height, i requires 0 <= i < mask.height =>
           seq(mask.width, j requires 0 <= j < mask.width => CountTrue(mask.bits[i][j]) >= 1)))
  }

  /** `np.where(cond, a, b)` on grids of one shape. */
  function Where<P>(cond: Grid<bool>, a: Grid<P>, b: Grid<P>): (r: Grid<P>)
    requires cond.Valid() && a.Valid() && b.Valid()
    requires a.height == cond.height && a.width == cond.width
    requires b.height == cond.height && b.width == cond.width
    ensures r.Valid() && r.height == cond.height && r.width == cond.width
    ensures forall i, j :: 0 <= i < r.height && 0 <= j < r.width ==>
              r.rows[i][j] == if cond.rows[i][j] then a.rows[i][j] else b.rows[i][j]
  {
    Grid(cond.height, cond.width,
         seq(cond.height, i requires 0 <= i < cond.height =>
           seq(cond.width, j requires 0 <= j < cond.width =>
             if cond.rows[i][j] then a.rows[i][j] else b.rows[i][j])))
  }

  /** The image, the gray image and the mask volume share height and width. */
  predicate Compatible<P>(image: Grid<P>, mask: Volume, gray: Grid<P>) {
    image.Valid() && gray.Valid() && mask.Valid() &&
    gray.height == image.height && gray.width == image.width &&
    mask.height == image.height && mask.width == image.width
  }

  /** `color_splash(image, mask)` with the gray copy of `image` given: the
      result has the image's shape, and each pixel is the image's pixel where
      some instance covers it and the gray pixel elsewhere. */
  function ColorSplash<P>(image: Grid<P>, mask: Volume, gray: Grid<P>): (splash: Grid<P>)
    requires Compatible(image, mask, gray)
    ensures splash.Valid() && splash.height == image.height && splash.width == image.width
    ensures forall i, j :: 0 <= i < splash.height && 0 <= j < splash.width ==>
              splash.rows[i][j] == if Covered(mask, i, j) then image.rows[i][j] else gray.rows[i][j]
  {
    if mask.count > 0 then
      Where(AnyInstance(mask), image, gray)
    else
      gray
  }

  /** Where no instance covers any pixel, in particular with zero instances,
      the result is the gray image. */
  lemma SplashUncoveredIsGray<P>(image: Grid<P>, mask: Volume, gray: Grid<P>)
    requires Compatible(image, mask, gray)
    requires forall i, j :: 0 <= i < mask.height && 0 <= j < mask.width ==> !Covered(mask, i, j)
    ensures ColorSplash(image, mask, gray) == gray
  {
    GridExt(ColorSplash(image, mask, gray), gray);
  }

  /** With zero instances the result is the gray image. */
  lemma SplashWithoutInstances<P>(image: Grid<P>, mask: Volume, gray: Grid<P>)
    requires Compatible(image, mask, gray) && mask.count == 0
    ensures ColorSplash(image, mask, gray) == gray
  {
  }

  /** An instance that covers every pixel keeps the whole original image. */
  lemma SplashFullInstanceIsImage<P>(image: Grid<P>, mask: Volume, gray: Grid<P>, k: nat)
    requires Compatible(image, mask, gray) && k < mask.count
    requires forall i, j :: 0 <= i < mask.height && 0 <= j < mask.width ==> mask.bits[i][j][k]
    ensures ColorSplash(image, mask, gray) == image
  {
    var splash := ColorSplash(image, mask, gray);
    forall i, j | 0 <= i < image.height && 0 <= j < image.width
      ensures splash.rows[i][j] == image.rows[i][j]
    {
      assert mask.bits[i][j][k];
    }
    GridExt(splash, image);
  }

  /** The result depends on the masks only through which pixels are covered. */
  lemma SplashDependsOnCoverageOnly<P>(image: Grid<P>, mask1: Volume, mask2: Volume, gray: Grid<P>)
    requires Compatible(image, mask1, gray) && Compatible(image, mask2, gray)
    requires forall i, j :: 0 <= i < image.height && 0 <= j < image.width ==>
               (Covered(mask1, i, j) <==> Covered(mask2, i, j))
    ensures ColorSplash(image, mask1, gray) == ColorSplash(image, mask2, gray)
  {
    GridExt(ColorSplash(image, mask1, gray), ColorSplash(image, mask2, gray));
  }

  /** `perm` lists every instance index below `n` once. */
  predicate IsPermutation(perm: seq<nat>, n: nat) {
    |perm| == n &&
    (forall k :: 0 <= k < n ==> perm[k] < n) &&
    forall q :: 0 <= q < n ==> q in perm
  }

  /** The volume with its instances listed in the order `perm`. */
  function Reorder(mask: Volume, perm: seq<nat>): (r: Volume)
    requires mask.Valid() && IsPermutation(perm, mask.count)
    ensures r.Valid() && r.height == mask.height && r.width == mask.width && r.count == mask.count
    ensures forall i, j, k :: 0 <= i < r.height && 0 <= j < r.width && 0 <= k < r.count ==>
              r.bits[i][j][k] == mask.bits[i][j][perm[k]]
  {
    Volume(mask.height, mask.width, mask.count,
      seq(mask.height, i requires 0 <= i < mask.height =>
        seq(mask.width, j requires 0 <= j < mask.width =>
          seq(mask.count, k requires 0 <= k < mask.count => mask.bits[i][j][perm[k]]))))
  }

  /** Reordering the instances leaves the result unchanged. */
  lemma SplashIgnoresInstanceOrder<P>(image: Grid<P>, mask: Volume, perm: seq<nat>, gray: Grid<P>)
    requires Compatible(image, mask, gray) && IsPermutation(perm, mask.count)
    ensures ColorSplash(image, Reorder(mask, perm), gray) == ColorSplash(image, mask, gray)
  {
    var moved := Reorder(mask, perm);
    forall i, j | 0 <= i < image.height && 0 <= j < image.width
      ensures Covered(moved, i, j) <==> Covered(mask, i, j)
    {
      if Covered(moved, i, j) {
        var k :| 0 <= k < moved.count && moved.bits[i][j][k];
        assert mask.bits[i][j][perm[k]];
      }
      if Covered(mask, i, j) {
        var q :| 0 <= q < mask.count && mask.bits[i][j][q];
        assert q in perm;
        var k :| 0 <= k < |perm| && perm[k] == q;
        assert moved.bits[i][j][k];
      }
    }
    SplashDependsOnCoverageOnly(image, moved, mask, gray);
  }

  /** Splashing a stack of instance layers: a pixel keeps its color exactly
      when one of the layers is set there. */
  lemma SplashOfStack<P>(image: Grid<P>, layers: seq<Grid<bool>>, gray: Grid<P>, i: nat, j: nat)
    requires forall k :: 0 <= k < |layers| ==> layers[k].Valid()
    requires StackLayers(layers).Stacked?
    requires Compatible(image, StackLayers(layers).volume, gray)
    requires i < image.height && j < image.width
    ensures ColorSplash(image, StackLayers(layers).volume, gray).rows[i][j] ==
            if exists k :: 0 <= k < |layers| && layers[k].rows[i][j] then image.rows[i][j] else gray.rows[i][j]
  {
    var v := StackLayers(layers).volume;
    if exists k :: 0 <= k < |layers| && layers[k].rows[i][j] {
      var k :| 0 <= k < |layers| && layers[k].rows[i][j];
      assert v.bits[i][j][k];
    }
  }

  /** A 2x2 all-red image whose single instance covers the top row: the top
      row stays red and the bottom row takes the gray pixels. */
  lemma SplashTopRowExample()
    ensures var red, gray := [255, 0, 0], [76, 76, 76];
            ColorSplash(Grid(2, 2, [[red, red], [red, red]]),
                        Volume(2, 2, 1, [[[true], [true]], [[false], [false]]]),
                        Grid(2, 2, [[gray, gray], [gray, gray]]))
            == Grid(2, 2, [[red, red], [gray, gray]])
  {
    var red, gray := [255, 0, 0], [76, 76, 76];
    var image := Grid(2, 2, [[red, red], [red, red]]);
    var mask := Volume(2, 2, 1, [[[true], [true]], [[false], [false]]]);
    var grayImage := Grid(2, 2, [[gray, gray], [gray, gray]]);
    assert mask.bits[0][0][0] && mask.bits[0][1][0];
    assert Covered(mask, 0, 0) && Covered(mask, 0, 1);
    assert !Covered(mask, 1, 0) && !Covered(mask, 1, 1);
    GridExt(ColorSplash(image, mask, grayImage), Grid(2, 2, [[red, red], [gray, gray]]));
  }
}
