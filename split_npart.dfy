/** Splitting a line into parts of a given length (`split_line_nPart` in
    beratools/tools/common.py): the split distances are the multiples of the
    segment length strictly inside the line, and the line is split at the
    points interpolated at those distances. Lines are along-line vertex
    positions as in `CutLine`; the segmentized line is the input. */
module SplitNPart {
  import opened Seqs
  import opened CutLine

  /** How many more passes `Arange` makes. */
  function Steps(start: real, total: real, step: real): int
    requires step > 0.0
  {
    if start < total then ((total - start) / step).Floor + 1 else 0
  }

  lemma StepsDrop(start: real, total: real, step: real)
    requires step > 0.0 && start < total
    ensures 0 <= Steps(start + step, total, step) < Steps(start, total, step)
  {
    FloorDrop(total - start, step);
    assert total - (start + step) == (total - start) - step;
    if start + step < total {
      assert (total - start - step) / step >= 0.0;
    }
  }

  /** `numpy.arange(start, total, step)` over exact reals: `start`, then each
      value `step` past the one before, as long as it stays below `total`. */
  function Arange(start: real, total: real, step: real): (ds: seq<real>)
    requires step > 0.0
    ensures |ds| == 0 <==> start >= total
    ensures |ds| > 0 ==> ds[0] == start && Last(ds) < total <= Last(ds) + step
    ensures forall i, j :: 0 <= i < |ds| && j == i + 1 < |ds| ==> ds[j] == ds[i] + step
    ensures Increasing(ds)
    decreases Steps(start, total, step)
  {
    if start < total then
      StepsDrop(start, total, step);
      var rest := Arange(start + step, total, step);
      var ds := [start] + rest;
      assert forall i :: 0 < i < |ds| ==> ds[i] == rest[i - 1];
      ds
    else []
  }

  /** The index of the first vertex at position `d` or beyond it. */
  function FirstFrom(p: seq<real>, d: real, i: nat): (k: nat)
    requires i <= |p|
    ensures i <= k <= |p| && (k < |p| ==> p[k] >= d)
    ensures forall j :: i <= j < k ==> p[j] < d
    decreases |p| - i
  {
    if i == |p| || p[i] >= d then i else FirstFrom(p, d, i + 1)
  }

  /** The index of the first vertex strictly beyond position `d`. */
  function FirstBeyond(p: seq<real>, d: real, i: nat): (k: nat)
    requires i <= |p|
    ensures i <= k <= |p| && (k < |p| ==> p[k] > d)
    ensures forall j :: i <= j < k ==> p[j] <= d
    decreases |p| - i
  {
    if i == |p| || p[i] > d then i else FirstBeyond(p, d, i + 1)
  }

  /** The part before a split point at `d`: the vertices short of `d`, then
      the split point. */
  function Before(p: seq<real>, d: real): seq<real>
  {
    p[..FirstFrom(p, d, 0)] + [d]
  }

  /** The line after a split point at `d`: the split point, then the vertices
      past it (a vertex at `d` is the split point itself). */
  function After(p: seq<real>, d: real): seq<real>
  {
    [d] + p[FirstBeyond(p, d, 0)..]
  }

  lemma SplitPointParts(p: seq<real>, d: real)
    requires Increasing(p) && |p| > 0 && p[0] < d < Last(p)
    ensures Increasing(Before(p, d)) && |Before(p, d)| >= 2 && Before(p, d)[0] == p[0]
    ensures Increasing(After(p, d)) && |After(p, d)| >= 2 && Last(After(p, d)) == Last(p)
  {
    var k := FirstFrom(p, d, 0);
    assert k > 0;
    var j := FirstBeyond(p, d, 0);
    assert j < |p|;
  }

  /** shapely's `split` of a line at points strictly inside it, in order
      along the line: each part runs from one split point (or the start) to
      the next (or the end), keeping the vertices in between. */
  function SplitAt(p: seq<real>, cuts: seq<real>): (parts: seq<seq<real>>)
    requires Increasing(p) && |p| > 0 && Increasing(cuts)
    requires forall k :: 0 <= k < |cuts| ==> p[0] < cuts[k] < Last(p)
    ensures |parts| == |cuts| + 1
    decreases |cuts|
  {
    if cuts == [] then [p]
    else
      SplitPointParts(p, cuts[0]);
      [Before(p, cuts[0])] + SplitAt(After(p, cuts[0]), cuts[1..])
  }

  /** The value `split_line_nPart` returns: the segmentized line itself when
      there is no split distance, else the collection of split parts. */
  datatype Split = Single(line: seq<real>) | Parts(parts: seq<seq<real>>)

  /** The split points: the split distances measured from the line's start. */
  function SplitPoints(line: seq<real>, segLength: real): (pts: seq<real>)
    requires Increasing(line) && |line| > 0 && segLength > 0.0
    ensures Increasing(pts)
    ensures forall k :: 0 <= k < |pts| ==> line[0] < pts[k] < Last(line)
  {
    var ds := Arange(segLength, Len(line), segLength);
    seq(|ds|, k requires 0 <= k < |ds| => line[0] + ds[k])
  }

  function SplitLineNPart(line: seq<real>, segLength: real): (r: Split)
    requires Increasing(line) && segLength > 0.0
    ensures r.Single? <==> Len(line) <= segLength
    ensures r.Single? ==> r.line == line
  {
    if |line| > 0 && |SplitPoints(line, segLength)| > 0 then
      Parts(SplitAt(line, SplitPoints(line, segLength)))
    else Single(line)
  }

  /** Part k of a split runs from the split point before it (or the line's
      start) to the split point after it (or the line's end). */
  lemma {:induction false} SplitAtBounds(p: seq<real>, cuts: seq<real>)
    requires Increasing(p) && |p| > 0 && Increasing(cuts)
    requires forall k :: 0 <= k < |cuts| ==> p[0] < cuts[k] < Last(p)
    ensures var parts := SplitAt(p, cuts);
      forall k :: 0 <= k < |parts| ==>
        && |parts[k]| > 0
        && parts[k][0] == (if k == 0 then p[0] else cuts[k - 1])
        && Last(parts[k]) == (if k == |cuts| then Last(p) else cuts[k])
    decreases |cuts|
  {
    if cuts != [] {
      var d := cuts[0];
      SplitPointParts(p, d);
      var a := After(p, d);
      SplitAtBounds(a, cuts[1..]);
      var parts := SplitAt(p, cuts);
      var tail := SplitAt(a, cuts[1..]);
      assert parts == [Before(p, d)] + tail;
      forall k | 0 <= k < |parts|
        ensures |parts[k]| > 0
        ensures parts[k][0] == (if k == 0 then p[0] else cuts[k - 1])
        ensures Last(parts[k]) == (if k == |cuts| then Last(p) else cuts[k])
      {
        if k > 0 {
          assert parts[k] == tail[k - 1];
          assert k - 1 > 0 ==> cuts[1..][k - 2] == cuts[k - 1];
          assert k - 1 < |cuts| - 1 ==> cuts[1..][k - 1] == cuts[k];
        }
      }
    }
  }

  /** The split parts cover the line: they chain from its first vertex to its last. */
  lemma {:induction false} SplitAtChains(p: seq<real>, cuts: seq<real>)
    requires Increasing(p) && |p| > 0 && Increasing(cuts)
    requires forall k :: 0 <= k < |cuts| ==> p[0] < cuts[k] < Last(p)
    ensures ChainsFromTo(SplitAt(p, cuts), p[0], Last(p))
    decreases |cuts|
  {
    if cuts == [] {
      assert SplitAt(p, cuts)[1..] == [];
    } else {
      var d := cuts[0];
      SplitPointParts(p, d);
      SplitAtChains(After(p, d), cuts[1..]);
      assert SplitAt(p, cuts)[1..] == SplitAt(After(p, d), cuts[1..]);
    }
  }

  /** Consecutive split points are `segLength` apart, the first is
      `segLength` from the line's start and the last lies within `segLength`
      of its end. */
  lemma SplitPointGaps(line: seq<real>, segLength: real)
    requires Increasing(line) && |line| > 0 && segLength > 0.0
    ensures var pts := SplitPoints(line, segLength);
      && (|pts| > 0 ==> pts[0] - line[0] == segLength && Last(line) - Last(pts) <= segLength)
      && forall i, j :: 0 <= i < |pts| && j == i + 1 < |pts| ==> pts[j] - pts[i] == segLength
  {
    var ds := Arange(segLength, Len(line), segLength);
    var pts := SplitPoints(line, segLength);
    forall i, j | 0 <= i < |pts| && j == i + 1 < |pts|
      ensures pts[j] - pts[i] == segLength
    {
      assert ds[j] == ds[i] + segLength;
    }
  }

  /** Split points evenly `step` apart, the first `step` past the start and
      the last within `step` of the end, give parts of length `step` but for
      the last, which is no longer. */
  lemma SplitAtLengths(p: seq<real>, cuts: seq<real>, step: real)
    requires Increasing(p) && |p| > 0 && Increasing(cuts) && |cuts| > 0
    requires forall k :: 0 <= k < |cuts| ==> p[0] < cuts[k] < Last(p)
    requires cuts[0] - p[0] == step && Last(p) - Last(cuts) <= step
    requires forall i, j :: 0 <= i < |cuts| && j == i + 1 < |cuts| ==> cuts[j] - cuts[i] == step
    ensures var parts := SplitAt(p, cuts);
      && (forall k :: 0 <= k < |parts| - 1 ==> Len(parts[k]) == step)
      && Len(Last(parts)) <= step
  {
    var parts := SplitAt(p, cuts);
    SplitAtBounds(p, cuts);
    forall k | 0 <= k < |parts| - 1
      ensures Len(parts[k]) == step
    {
      if k > 0 {
        assert cuts[k] - cuts[k - 1] == step;
      }
    }
    var n := |parts| - 1;
    assert parts[n][0] == cuts[n - 1] && Last(parts[n]) == Last(p);
  }

  /** `split_line_nPart` on a line longer than the segment length gives one
      part more than there are multiples of the segment length inside the line;
      the parts chain from the line's start to its end, every part before the
      last is exactly `segLength` long and the last is no longer. */
  lemma SplitLineNPartParts(line: seq<real>, segLength: real)
    requires Increasing(line) && segLength > 0.0 && Len(line) > segLength
    ensures var r := SplitLineNPart(line, segLength);
      && r.Parts?
      && |r.parts| == |Arange(segLength, Len(line), segLength)| + 1
      && ChainsFromTo(r.parts, line[0], Last(line))
      && (forall k :: 0 <= k < |r.parts| - 1 ==> Len(r.parts[k]) == segLength)
      && Len(Last(r.parts)) <= segLength
  {
    var pts := SplitPoints(line, segLength);
    SplitAtChains(line, pts);
    SplitPointGaps(line, segLength);
    SplitAtLengths(line, pts, segLength);
  }
}
