/** Per-cell cost-surface arithmetic of beratools/tools/common.py: the canopy
    map (`dyn_np_cc_map`), the smoothing after the distance transform
    (`dyn_smooth_cost`), the blend before `exp`/`power` (`dyn_np_cost_raster`)
    and `remove_nan_from_array`. Rasters are their cells in row-major order;
    a cell value `None` is NaN. The distance transform and the focal
    statistics are inputs. */
module CostSurface {
  import opened Wrappers
  import opened Seqs

  // dyn_np_cc_map

  /** A cell of a masked height raster: its data (None for NaN) and mask bit. */
  datatype HeightCell = HeightCell(h: Option<real>, masked: bool)

  /** A cell of the masked canopy raster. */
  datatype CanopyCell = CanopyCell(data: real, masked: bool)

  /** `numpy.ma.where(in_chm >= threshold, 1.0, 0.0)` at one cell. A masked
      cell's condition is filled with False, so its data is 0.0; a NaN height
      compares False. */
  function CanopyOf(c: HeightCell, threshold: real): (r: CanopyCell)
    ensures r.masked == c.masked
    ensures r.data == 1.0 <==> !c.masked && c.h.Some? && c.h.value >= threshold
    ensures r.data == 0.0 || r.data == 1.0
  {
    var cond := !c.masked && c.h.Some? && c.h.value >= threshold;
    CanopyCell(if cond then 1.0 else 0.0, c.masked)
  }

  function CanopyMap(chm: seq<HeightCell>, threshold: real): (r: seq<CanopyCell>)
    ensures |r| == |chm|
    ensures forall i :: 0 <= i < |r| ==> r[i] == CanopyOf(chm[i], threshold)
  {
    seq(|chm|, i requires 0 <= i < |chm| => CanopyOf(chm[i], threshold))
  }

  // dyn_smooth_cost (after the distance transform)

  /** The smoothing cost of one cell from its distance to the nearest masked
      cell (`None` where the cell is masked): `max(0, maxd - d) / maxd`.
      With `maxd == 0` the division gives NaN (0 / 0) for every cell. */
  function SmoothCell(d: Option<real>, maxLineDist: real): (r: Option<real>)
    ensures d.None? || maxLineDist == 0.0 <==> r.None?
  {
    match d
    case None => None
    case Some(dist) =>
      var s1 := maxLineDist - dist;
      var s1c := if s1 <= 0.0 then 0.0 else s1;
      if maxLineDist == 0.0 then None else Some(s1c / maxLineDist)
  }

  /** With a positive maximum distance the smoothing cost of an unmasked cell
      lies in [0, 1]: 1 at distance 0, 0 from `maxd` on. */
  lemma SmoothCellRange(d: real, maxLineDist: real)
    requires d >= 0.0 && maxLineDist > 0.0
    ensures var r := SmoothCell(Some(d), maxLineDist);
      && r.Some? && 0.0 <= r.value <= 1.0
      && (d == 0.0 ==> r.value == 1.0)
      && (d >= maxLineDist ==> r.value == 0.0)
  {
    var s1c := if maxLineDist - d <= 0.0 then 0.0 else maxLineDist - d;
    assert 0.0 <= s1c <= maxLineDist;
    DivBounds(s1c, maxLineDist);
  }

  lemma DivBounds(a: real, b: real)
    requires b > 0.0 && 0.0 <= a <= b
    ensures 0.0 <= a / b <= 1.0
    ensures a == b ==> a / b == 1.0
  {
    var q := a / b;
    assert q * b == a;
    SignOfFactor(q, b);
    assert (1.0 - q) * b == b - q * b;
    SignOfFactor(1.0 - q, b);
  }

  lemma DivMono(a: real, a': real, b: real)
    requires b > 0.0 && a <= a'
    ensures a / b <= a' / b
  {
    var q, q' := a / b, a' / b;
    assert q * b == a && q' * b == a';
    assert (q' - q) * b == a' - a;
    SignOfFactor(q' - q, b);
  }

  /** Farther from the mask is never costlier to smooth: the smoothing cost
      does not increase with distance. */
  lemma SmoothCellMonotone(d: real, d': real, maxLineDist: real)
    requires d <= d' && maxLineDist > 0.0
    ensures SmoothCell(Some(d'), maxLineDist).value <= SmoothCell(Some(d), maxLineDist).value
  {
    var a := if maxLineDist - d <= 0.0 then 0.0 else maxLineDist - d;
    var a' := if maxLineDist - d' <= 0.0 then 0.0 else maxLineDist - d';
    DivMono(a', a, maxLineDist);
  }

  function SmoothCost(dist: seq<Option<real>>, maxLineDist: real): (r: seq<Option<real>>)
    ensures |r| == |dist|
    ensures forall i :: 0 <= i < |r| ==> r[i] == SmoothCell(dist[i], maxLineDist)
  {
    seq(|dist|, i requires 0 <= i < |dist| => SmoothCell(dist[i], maxLineDist))
  }

  // dyn_np_cost_raster (up to dM)

  /** `(mean - std) / (mean + std)`, or 0 where the denominator is 0 (the
      `where=` of `np.divide` leaves the zero `out`). NaN propagates. */
  function Ratio(mean: Option<real>, std: Option<real>): (r: Option<real>)
    ensures mean.Some? && std.Some? <==> r.Some?
    ensures mean.Some? && std.Some? && mean.value + std.value == 0.0 ==> r == Some(0.0)
  {
    if mean.None? || std.None? then None
    else
      var b := mean.value + std.value;
      if b != 0.0 then Some((mean.value - std.value) / b) else Some(0.0)
  }

  /** `bM`: `(1 + ratio) / 2`, or 0 where `mean + std <= 0`. */
  function Base(mean: Option<real>, std: Option<real>): (r: Option<real>)
    ensures mean.Some? && std.Some? <==> r.Some?
    ensures mean.Some? && std.Some? && mean.value + std.value <= 0.0 ==> r == Some(0.0)
  {
    var aM := match Ratio(mean, std) case None => None case Some(x) => Some((1.0 + x) / 2.0);
    if mean.Some? && std.Some? && mean.value + std.value <= 0.0 then Some(0.0) else aM
  }

  /** `dM` at one cell: the base term and the smoothing cost blended by the
      avoidance weight, forced to 1 on canopy cells. */
  function Blend(canopy: real, mean: Option<real>, std: Option<real>, smooth: Option<real>, avoidance: real): (r: Option<real>)
    ensures canopy == 1.0 ==> r == Some(1.0)
    ensures canopy != 1.0 ==> (r.Some? <==> mean.Some? && std.Some? && smooth.Some?)
  {
    var b := Base(mean, std);
    if canopy == 1.0 then Some(1.0)
    else if b.Some? && smooth.Some? then Some(b.value * (1.0 - avoidance) + smooth.value * avoidance)
    else None
  }

  lemma RatioRange(mean: real, std: real)
    requires mean >= 0.0 && std >= 0.0
    ensures -1.0 <= Ratio(Some(mean), Some(std)).value <= 1.0
  {
    var b := mean + std;
    if b != 0.0 {
      var q := (mean - std) / b;
      assert q * b == mean - std;
      assert (1.0 - q) * b == b - q * b;
      SignOfFactor(1.0 - q, b);
      assert (1.0 + q) * b == b + q * b;
      SignOfFactor(1.0 + q, b);
    }
  }

  /** With non-negative statistics, a smoothing cost and an avoidance weight
      in [0, 1], the blend lies in [0, 1]. */
  lemma BlendRange(canopy: real, mean: real, std: real, smooth: real, avoidance: real)
    requires mean >= 0.0 && std >= 0.0
    requires 0.0 <= smooth <= 1.0 && 0.0 <= avoidance <= 1.0
    ensures var r := Blend(canopy, Some(mean), Some(std), Some(smooth), avoidance);
      r.Some? && 0.0 <= r.value <= 1.0
  {
    RatioRange(mean, std);
    var x := Ratio(Some(mean), Some(std)).value;
    var b := Base(Some(mean), Some(std)).value;
    assert b == 0.0 || b == (1.0 + x) / 2.0;
    assert 0.0 <= b <= 1.0;
    Convex(b, smooth, avoidance);
  }

  lemma Convex(x: real, y: real, w: real)
    requires 0.0 <= x <= 1.0 && 0.0 <= y <= 1.0 && 0.0 <= w <= 1.0
    ensures 0.0 <= x * (1.0 - w) + y * w
    ensures x * (1.0 - w) + y * w <= 1.0
  {
    var u := 1.0 - w;
    NonNeg(x, u);
    AtMost(x, u);
    NonNeg(y, w);
    AtMost(y, w);
    var p := x * u;
    var q := y * w;
    assert 0.0 <= p <= u;
    assert 0.0 <= q <= w;
    assert p + q <= u + w;
    assert u + w == 1.0;
  }

  lemma NonNeg(a: real, b: real)
    requires a >= 0.0 && b >= 0.0
    ensures a * b >= 0.0
  {
  }

  lemma AtMost(x: real, w: real)
    requires 0.0 <= x <= 1.0 && w >= 0.0
    ensures x * w <= w
  {
    NonNeg(1.0 - x, w);
    assert (1.0 - x) * w == w - x * w;
  }

  /** The blend of a whole raster, cell by cell. */
  function CostBlend(canopy: seq<CanopyCell>, mean: seq<Option<real>>, std: seq<Option<real>>,
                     smooth: seq<Option<real>>, avoidance: real): (r: seq<Option<real>>)
    requires |mean| == |canopy| && |std| == |canopy| && |smooth| == |canopy|
    ensures |r| == |canopy|
    ensures forall i :: 0 <= i < |r| ==> r[i] == Blend(canopy[i].data, mean[i], std[i], smooth[i], avoidance)
  {
    seq(|canopy|, i requires 0 <= i < |canopy| => Blend(canopy[i].data, mean[i], std[i], smooth[i], avoidance))
  }

  /** Composed with the canopy map: a cell at or above the height threshold
      (and unmasked) has blend 1; a masked cell, whose canopy data is 0, gets
      the blended value of its statistics, NaN when they are NaN. */
  lemma CanopyForcesOne(chm: seq<HeightCell>, threshold: real, mean: seq<Option<real>>, std: seq<Option<real>>,
                        smooth: seq<Option<real>>, avoidance: real, i: nat)
    requires |mean| == |chm| && |std| == |chm| && |smooth| == |chm| && i < |chm|
    ensures var r := CostBlend(CanopyMap(chm, threshold), mean, std, smooth, avoidance);
      && (!chm[i].masked && chm[i].h.Some? && chm[i].h.value >= threshold ==> r[i] == Some(1.0))
      && (chm[i].masked ==> (r[i].Some? <==> mean[i].Some? && std[i].Some? && smooth[i].Some?))
  {
  }

  // remove_nan_from_array

  /** Every NaN cell replaced by the no-data cost. */
  function RemoveNan(cells: seq<Option<real>>, nodataCost: real): (r: seq<Option<real>>)
    ensures |r| == |cells|
    ensures forall i :: 0 <= i < |r| ==> r[i].Some?
    ensures forall i :: 0 <= i < |r| ==> (cells[i].Some? ==> r[i] == cells[i]) && (cells[i].None? ==> r[i] == Some(nodataCost))
  {
    seq(|cells|, i requires 0 <= i < |cells| => if cells[i].None? then Some(nodataCost) else cells[i])
  }

  /** Replacing NaN cells a second time changes nothing. */
  lemma RemoveNanIdempotent(cells: seq<Option<real>>, nodataCost: real, other: real)
    ensures RemoveNan(RemoveNan(cells, nodataCost), other) == RemoveNan(cells, nodataCost)
  {
  }

  /** `remove_nan_from_array`: the `nditer` loop writing each NaN cell in place. */
  method RemoveNanFromArray(matrix: array<Option<real>>, nodataCost: real)
    modifies matrix
    ensures matrix[..] == RemoveNan(old(matrix[..]), nodataCost)
  {
    var i := 0;
    while i < matrix.Length
      invariant 0 <= i <= matrix.Length
      invariant matrix[..i] == RemoveNan(old(matrix[..]), nodataCost)[..i]
      invariant matrix[i..] == old(matrix[..])[i..]
    {
      if matrix[i].None? {
        matrix[i] := Some(nodataCost);
      }
      i := i + 1;
    }
  }
}
