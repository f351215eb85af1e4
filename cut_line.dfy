/** Length-based line cutting (`cut_line_by_length` in beratools/tools/common.py).

    A polyline is given by the along-line positions of its vertices, a strictly
    increasing sequence of reals; a piece keeps the positions it covers, so the
    along-line distance of a vertex within its piece is `p[i] - p[0]`, which is
    what shapely's `project` returns for a simple line. The line handed to the
    loop is the one shapely's `segmentize` produced; segmentize itself belongs
    to the geometry kernel and is not part of this model. */
module CutLine {
  import opened Wrappers
  import opened Seqs

  /** The tolerance with which a vertex counts as lying at the cut distance. */
  const EPS: real := 0.000000001

  /** The default `merge_threshold` of `cut_line_by_length`. */
  const DefaultMergeThreshold: real := 0.5

  predicate Increasing(p: seq<real>) {
    forall i, j :: 0 <= i < j < |p| ==> p[i] < p[j]
  }

  function Abs(x: real): real {
    if x < 0.0 then -x else x
  }

  /** shapely's `length` of a polyline. */
  function Len(p: seq<real>): real {
    if |p| == 0 then 0.0 else p[|p| - 1] - p[0]
  }

  /** `ps` is a chain of pieces leading from position `from` to position `to`:
      each piece starts where the previous one ends (the joint vertex repeated). */
  predicate ChainsFromTo(ps: seq<seq<real>>, from: real, to: real) {
    if ps == [] then from == to
    else |ps[0]| > 0 && ps[0][0] == from && ChainsFromTo(ps[1..], Last(ps[0]), to)
  }

  /** Every piece is a proper polyline whose length is within EPS of `length`. */
  predicate AllNear(ps: seq<seq<real>>, length: real) {
    ps == [] || (|ps[0]| >= 2 && Increasing(ps[0]) && Abs(Len(ps[0]) - length) < EPS && AllNear(ps[1..], length))
  }

  /** The test the inner loop makes at vertex i: its distance along the line is
      within EPS of `length`, or beyond `length`. */
  predicate IsCutVertex(p: seq<real>, length: real, i: nat)
    requires i < |p|
  {
    Abs(p[i] - p[0] - length) < EPS || p[i] - p[0] > length
  }

  /** The first vertex at or after `i` that passes the inner loop's test. */
  function CutIndexFrom(p: seq<real>, length: real, i: nat): (k: nat)
    requires i < |p| && IsCutVertex(p, length, |p| - 1)
    ensures i <= k < |p| && IsCutVertex(p, length, k)
    ensures forall j :: i <= j < k ==> !IsCutVertex(p, length, j)
    decreases |p| - i
  {
    if IsCutVertex(p, length, i) then i else CutIndexFrom(p, length, i + 1)
  }

  /** One pass of the outer loop: the piece it appends, the line it continues
      with, and whether the cut point was interpolated (`end_pt` set). */
  datatype Step = Step(piece: seq<real>, rest: seq<real>, interpolated: bool)

  function CutStep(p: seq<real>, length: real): (s: Step)
    requires Increasing(p) && length >= EPS && Len(p) > length
    ensures Increasing(s.piece) && Increasing(s.rest) && |s.piece| >= 2 && |s.rest| >= 1
    ensures s.piece[0] == p[0] && Last(s.piece) == s.rest[0] && Last(s.rest) == Last(p)
    ensures Abs(Len(s.piece) - length) < EPS
    ensures s.interpolated ==> Len(s.piece) == length && |s.rest| >= 2
    ensures Len(s.rest) == Len(p) - Len(s.piece)
    ensures |s.rest| <= |p| && (!s.interpolated ==> |s.rest| < |p|)
  {
    var i := CutIndexFrom(p, length, 0);
    if Abs(p[i] - p[0] - length) < EPS then
      Step(p[..i + 1], p[i..], false)
    else
      assert i > 0 && !IsCutVertex(p, length, i - 1);
      var e := p[0] + length;
      Step(p[..i] + [e], [e] + p[i..], true)
  }

  lemma FloorMono(a: real, b: real, l: real)
    requires l > 0.0 && b <= a
    ensures (b / l).Floor <= (a / l).Floor
  {
    assert b / l <= a / l;
  }

  lemma DivUnique(x: real, y: real, l: real)
    requires l != 0.0 && y * l == x
    ensures x / l == y
  {
  }

  lemma FloorDrop(a: real, l: real)
    requires l > 0.0
    ensures ((a - l) / l).Floor == (a / l).Floor - 1
  {
    var q := a / l;
    assert (q - 1.0) * l == a - l;
    DivUnique(a - l, q - 1.0, l);
  }

  /** Each pass makes progress: fewer whole multiples of `length` remain, or as
      many and fewer vertices (a cut snapped to a vertex). */
  lemma StepShrinks(p: seq<real>, length: real)
    requires Increasing(p) && length >= EPS && Len(p) > length
    ensures var s := CutStep(p, length);
      var m, m' := (Len(p) / length).Floor, (Len(s.rest) / length).Floor;
      0 <= m' && (m' < m || (m' == m && |s.rest| < |p|))
  {
    var s := CutStep(p, length);
    FloorMono(Len(p), Len(s.rest), length);
    FloorMono(Len(s.rest), 0.0, length);
    if s.interpolated { FloorDrop(Len(p), length); }
  }

  /** The outcome of the whole while loop: the pieces appended inside it, the
      line left when it stops, and whether its last pass interpolated. */
  datatype Cut = Cut(pieces: seq<seq<real>>, rest: seq<real>, interpolated: bool)

  function Pieces(p: seq<real>, length: real): (c: Cut)
    requires Increasing(p) && length >= EPS
    ensures |p| > 0 ==> |c.rest| >= 1
    decreases (Len(p) / length).Floor, |p|
  {
    if Len(p) <= length then Cut([], p, false)
    else
      var s := CutStep(p, length);
      StepShrinks(p, length);
      var c := Pieces(s.rest, length);
      Cut([s.piece] + c.pieces, c.rest, if c.pieces == [] then s.interpolated else c.interpolated)
  }

  /** The merge step after the loop: a last piece strictly shorter than the
      threshold is appended to the one before it, the joint vertex repeated. */
  function MergeShortTail(lines: seq<seq<real>>, threshold: real): (r: seq<seq<real>>)
    ensures |lines| >= 2 && Len(Last(lines)) < threshold ==>
              |r| == |lines| - 1 && r[..|r| - 1] == lines[..|lines| - 2] &&
              Last(r) == lines[|lines| - 2] + Last(lines)
    ensures !(|lines| >= 2 && Len(Last(lines)) < threshold) ==> r == lines
  {
    if |lines| > 1 && Len(lines[|lines| - 1]) < threshold then
      lines[..|lines| - 2] + [lines[|lines| - 2] + lines[|lines| - 1]]
    else lines
  }

  /** `cut_line_by_length` as written: the leftover line is appended only when
      the last cut was interpolated. */
  function CutByLength(line: seq<real>, length: real, mergeThreshold: real): (r: seq<seq<real>>)
    requires Increasing(line) && length >= EPS
    ensures Len(line) <= length ==> r == []
  {
    if line == [] then []
    else
      var c := Pieces(line, length);
      MergeShortTail(if c.interpolated then c.pieces + [c.rest] else c.pieces, mergeThreshold)
  }

  /** The line the loop leaves is a suffix of the cut line in extent: it ends
      at the line's last vertex and is no longer than `length`; it is the whole
      line when nothing was cut, and has a proper segment whenever the
      last cut was interpolated. */
  lemma {:induction false} PiecesRest(p: seq<real>, length: real)
    requires Increasing(p) && length >= EPS && |p| > 0
    ensures var c := Pieces(p, length);
      && Last(c.rest) == Last(p) && Increasing(c.rest) && Len(c.rest) <= length
      && (c.pieces == [] ==> c.rest == p && !c.interpolated)
      && (c.interpolated ==> |c.rest| >= 2)
    decreases (Len(p) / length).Floor, |p|
  {
    if Len(p) > length {
      var s := CutStep(p, length);
      StepShrinks(p, length);
      PiecesRest(s.rest, length);
      PiecesUnfold(p, length);
    }
  }

  /** What the loop computes: the pieces form a chain from the line's first
      vertex to the first vertex of the line left over, and each is within EPS
      of `length`. */
  lemma {:induction false} PiecesChain(p: seq<real>, length: real)
    requires Increasing(p) && length >= EPS && |p| > 0
    ensures ChainsFromTo(Pieces(p, length).pieces, p[0], Pieces(p, length).rest[0])
    ensures AllNear(Pieces(p, length).pieces, length)
    decreases (Len(p) / length).Floor, |p|
  {
    if Len(p) > length {
      var s := CutStep(p, length);
      StepShrinks(p, length);
      PiecesChain(s.rest, length);
      var c := Pieces(s.rest, length);
      var ps := [s.piece] + c.pieces;
      assert Pieces(p, length).pieces == ps;
      assert ps[1..] == c.pieces;
    }
  }

  /** When the last pass interpolated its cut, the last piece is exactly `length` long. */
  lemma {:induction false} InterpolatedLastPiece(p: seq<real>, length: real)
    requires Increasing(p) && length >= EPS && Pieces(p, length).interpolated
    ensures Len(Last(Pieces(p, length).pieces)) == length
    decreases (Len(p) / length).Floor, |p|
  {
    var s := CutStep(p, length);
    StepShrinks(p, length);
    var c := Pieces(s.rest, length);
    PiecesUnfold(p, length);
    if c.pieces != [] {
      InterpolatedLastPiece(s.rest, length);
    }
  }

  lemma {:induction false} ChainAppend(xs: seq<seq<real>>, y: seq<real>, from: real)
    requires |y| > 0 && ChainsFromTo(xs, from, y[0])
    ensures ChainsFromTo(xs + [y], from, Last(y))
  {
    if xs == [] {
      assert ([] + [y])[1..] == [];
    } else {
      ChainAppend(xs[1..], y, Last(xs[0]));
      assert (xs + [y])[1..] == xs[1..] + [y];
    }
  }

  lemma {:induction false} ChainDropLast(xs: seq<seq<real>>, from: real, to: real)
    requires xs != [] && ChainsFromTo(xs, from, to)
    ensures |Last(xs)| > 0 && Last(Last(xs)) == to
    ensures ChainsFromTo(xs[..|xs| - 1], from, Last(xs)[0])
  {
    if |xs| > 1 {
      ChainDropLast(xs[1..], Last(xs[0]), to);
      assert xs[1..][..|xs| - 2] == xs[..|xs| - 1][1..];
    }
  }

  /** Merging the short tail keeps the chain between the same two positions. */
  lemma MergeKeepsChain(lines: seq<seq<real>>, threshold: real, from: real, to: real)
    requires ChainsFromTo(lines, from, to)
    ensures ChainsFromTo(MergeShortTail(lines, threshold), from, to)
    ensures |MergeShortTail(lines, threshold)| >= 1 <==> |lines| >= 1
  {
    var n := |lines|;
    if n >= 2 && Len(Last(lines)) < threshold {
      ChainDropLast(lines, from, to);
      var init := lines[..n - 1];
      ChainDropLast(init, from, Last(lines)[0]);
      assert Last(init) == lines[n - 2] && init[..n - 2] == lines[..n - 2];
      ChainAppend(lines[..n - 2], lines[n - 2] + lines[n - 1], from);
    }
  }

  /** As written, the output is a chain from the line's first vertex; it
      reaches the line's last vertex when the last cut was interpolated, and
      otherwise stops at the vertex the last cut snapped to. */
  lemma CutByLengthChain(line: seq<real>, length: real, mergeThreshold: real)
    requires Increasing(line) && length >= EPS && Len(line) > length
    ensures var r := CutByLength(line, length, mergeThreshold);
      var c := Pieces(line, length);
      && r != []
      && (c.interpolated ==> ChainsFromTo(r, line[0], Last(line)))
      && (!c.interpolated ==> ChainsFromTo(r, line[0], c.rest[0]))
  {
    PiecesChain(line, length);
    PiecesRest(line, length);
    var c := Pieces(line, length);
    var s := CutStep(line, length);
    assert c.pieces == [s.piece] + Pieces(s.rest, length).pieces;
    if c.interpolated {
      ChainAppend(c.pieces, c.rest, line[0]);
      MergeKeepsChain(c.pieces + [c.rest], mergeThreshold, line[0], Last(line));
    } else {
      MergeKeepsChain(c.pieces, mergeThreshold, line[0], c.rest[0]);
    }
  }

  /** One unfolding of `Pieces`. */
  lemma PiecesUnfold(p: seq<real>, length: real)
    requires Increasing(p) && length >= EPS && Len(p) > length
    ensures var s := CutStep(p, length);
      var c := Pieces(s.rest, length);
      && Pieces(p, length).pieces == [s.piece] + c.pieces
      && Pieces(p, length).rest == c.rest
      && Pieces(p, length).interpolated == (if c.pieces == [] then s.interpolated else c.interpolated)
  {
  }

  /** The body of the outer loop: the inner `for` search for the first vertex
      at or beyond `length`, then the snapped or interpolated cut. */
  method CutOnce(coords: seq<real>, length: real) returns (piece: seq<real>, line: seq<real>, endPt: Option<real>)
    requires Increasing(coords) && length >= EPS && Len(coords) > length
    ensures var s := CutStep(coords, length);
      piece == s.piece && line == s.rest && endPt.Some? == s.interpolated
  {
    var i := 0;
    while !IsCutVertex(coords, length, i)
      invariant 0 <= i < |coords|
      invariant forall j :: 0 <= j < i ==> !IsCutVertex(coords, length, j)
      decreases |coords| - i
    {
      i := i + 1;
    }
    assert i == CutIndexFrom(coords, length, 0);
    if Abs(coords[i] - coords[0] - length) < EPS {
      piece := coords[..i + 1];
      line := coords[i..];
      endPt := None;
    } else {
      var e := coords[0] + length;
      endPt := Some(e);
      piece := coords[..i] + [e];
      line := [e] + coords[i..];
    }
  }

  /** What holds at the top of the while loop: the pieces appended so far
      followed by those the loop will still append from `line` are the pieces
      of the whole line, and the loop will end with the same line left over and
      the same `end_pt` state. */
  predicate LoopInvariant(line0: seq<real>, length: real, lines: seq<seq<real>>, line: seq<real>, interpolated: bool)
    requires Increasing(line0) && length >= EPS
  {
    && Increasing(line) && |line| > 0
    && var c, c0 := Pieces(line, length), Pieces(line0, length);
    && lines + c.pieces == c0.pieces
    && c.rest == c0.rest
    && c0.interpolated == (if c.pieces == [] then interpolated else c.interpolated)
  }

  lemma LoopStep(line0: seq<real>, length: real, lines: seq<seq<real>>, line: seq<real>, interpolated: bool)
    requires Increasing(line0) && length >= EPS
    requires LoopInvariant(line0, length, lines, line, interpolated) && Len(line) > length
    ensures var s := CutStep(line, length);
      LoopInvariant(line0, length, lines + [s.piece], s.rest, s.interpolated)
  {
    PiecesUnfold(line, length);
  }

  /** The while loop of `cut_line_by_length`: the pieces appended, the line
      left over, and the last `end_pt`. */
  method CutLoop(line0: seq<real>, length: real) returns (lines: seq<seq<real>>, line: seq<real>, endPt: Option<real>)
    requires Increasing(line0) && length >= EPS && |line0| > 0
    ensures var c := Pieces(line0, length);
      lines == c.pieces && line == c.rest && endPt.Some? == c.interpolated
  {
    line := line0;
    lines := [];
    endPt := None;
    while Len(line) > length
      invariant LoopInvariant(line0, length, lines, line, endPt.Some?)
      decreases (Len(line) / length).Floor, |line|
    {
      StepShrinks(line, length);
      LoopStep(line0, length, lines, line, endPt.Some?);
      var piece;
      piece, line, endPt := CutOnce(line, length);
      lines := lines + [piece];
    }
  }

  /** The merge after the loop, done in place: `lines[-2]` is overwritten
      with the two coordinate lists joined and the last piece popped. */
  method MergeLast(lines0: seq<seq<real>>, mergeThreshold: real) returns (lines: seq<seq<real>>)
    ensures lines == MergeShortTail(lines0, mergeThreshold)
  {
    lines := lines0;
    if |lines| > 1 {
      if Len(lines[|lines| - 1]) < mergeThreshold {
        lines := lines[|lines| - 2 := lines[|lines| - 2] + lines[|lines| - 1]];
        lines := lines[..|lines| - 1];
      }
    }
  }

  /** `cut_line_by_length` on the (already segmentized) line: the loop, the
      `end_pt` append, then the merge. */
  method CutLineByLength(line0: seq<real>, length: real, mergeThreshold: real) returns (lines: seq<seq<real>>)
    requires Increasing(line0) && length >= EPS
    ensures lines == CutByLength(line0, length, mergeThreshold)
  {
    if line0 == [] {
      return [];
    }
    var line, endPt;
    lines, line, endPt := CutLoop(line0, length);
    if endPt.Some? {
      lines := lines + [line];
    }
    lines := MergeLast(lines, mergeThreshold);
  }

  /** A 5-unit line segmentized at 3 (vertices every 2.5) cut into 3-unit
      pieces: the 2-unit tail stays a piece of its own with a merge threshold
      of 1, and also with a threshold of exactly 2 (the test is strict), and
      is joined to the piece before it, the joint vertex repeated, with a
      threshold of 2.5. */
  lemma FiveUnitLineExample(line: seq<real>)
    requires line == [0.0, 2.5, 5.0]
    ensures CutByLength(line, 3.0, 1.0) == [[0.0, 2.5, 3.0], [3.0, 5.0]]
    ensures CutByLength(line, 3.0, 2.0) == [[0.0, 2.5, 3.0], [3.0, 5.0]]
    ensures CutByLength(line, 3.0, 2.5) == [[0.0, 2.5, 3.0, 3.0, 5.0]]
  {
    var rest := [3.0, 5.0];
    assert Pieces(rest, 3.0) == Cut([], rest, false);
    assert line[..2] == [0.0, 2.5] && line[2..] == [5.0];
    InterpolatedPieces(line, 3.0, 2, [0.0, 2.5, 3.0], rest);
    var lines := Pieces(line, 3.0).pieces + [rest];
    assert lines == [[0.0, 2.5, 3.0], [3.0, 5.0]] && Len(rest) == 2.0;
    assert MergeShortTail(lines, 1.0) == lines;
    assert MergeShortTail(lines, 2.0) == lines;
    assert MergeShortTail(lines, 2.5) == [[0.0, 2.5, 3.0] + [3.0, 5.0]];
    assert [0.0, 2.5, 3.0] + [3.0, 5.0] == [0.0, 2.5, 3.0, 3.0, 5.0];
  }

  /** An interpolating pass followed by the cut of what remains. */
  lemma InterpolatedPieces(p: seq<real>, length: real, i: nat, piece: seq<real>, rest: seq<real>)
    requires Increasing(p) && length >= EPS && Len(p) > length && 0 < i < |p|
    requires forall j :: 0 <= j < i ==> p[j] - p[0] <= length - EPS
    requires p[i] - p[0] >= length + EPS
    requires piece == p[..i] + [p[0] + length] && rest == [p[0] + length] + p[i..]
    ensures Increasing(rest)
    ensures var c := Pieces(rest, length);
      Pieces(p, length) == Cut([piece] + c.pieces, c.rest, if c.pieces == [] then true else c.interpolated)
  {
    InterpolatedStep(p, length, i, piece, rest);
    StepShrinks(p, length);
    PiecesUnfold(p, length);
  }

  /** A pass whose first vertex beyond `length` is `i` interpolates. */
  lemma InterpolatedStep(p: seq<real>, length: real, i: nat, piece: seq<real>, rest: seq<real>)
    requires Increasing(p) && length >= EPS && Len(p) > length && 0 < i < |p|
    requires forall j :: 0 <= j < i ==> p[j] - p[0] <= length - EPS
    requires p[i] - p[0] >= length + EPS
    requires piece == p[..i] + [p[0] + length] && rest == [p[0] + length] + p[i..]
    ensures CutStep(p, length) == Step(piece, rest, true)
  {
    assert !IsCutVertex(p, length, 0);
    assert CutIndexFrom(p, length, 0) == i by {
      CutIndexSkips(p, length, 0, i);
    }
  }

  lemma {:induction false} CutIndexSkips(p: seq<real>, length: real, j: nat, i: nat)
    requires j <= i < |p| && IsCutVertex(p, length, |p| - 1) && IsCutVertex(p, length, i)
    requires forall k :: j <= k < i ==> !IsCutVertex(p, length, k)
    ensures CutIndexFrom(p, length, j) == i
    decreases i - j
  {
    if j < i {
      CutIndexSkips(p, length, j + 1, i);
    }
  }

  /** As written, a cut that lands on a vertex ends the output at that vertex:
      a 6-unit line with a vertex at 3, cut into 3-unit pieces, keeps only its
      first half. */
  lemma SnappedCutLosesTail(line: seq<real>)
    requires line == [0.0, 3.0, 6.0]
    ensures CutByLength(line, 3.0, 0.5) == [[0.0, 3.0]]
  {
    SixUnitLinePieces(line);
  }

  /** The 6-unit line snaps at its middle vertex and leaves the second half
      unread. */
  lemma SixUnitLinePieces(line: seq<real>)
    requires line == [0.0, 3.0, 6.0]
    ensures Pieces(line, 3.0) == Cut([[0.0, 3.0]], [3.0, 6.0], false)
  {
    var rest := [3.0, 6.0];
    assert Pieces(rest, 3.0) == Cut([], rest, false);
    assert line[..2] == [0.0, 3.0] && line[1..] == rest;
    SnappedPieces(line, 3.0, 1, [0.0, 3.0], rest);
  }

  /** A pass whose first vertex at or beyond `length` is `i`, lying within
      EPS of it, snaps to that vertex; then what remains is cut. */
  lemma SnappedPieces(p: seq<real>, length: real, i: nat, piece: seq<real>, rest: seq<real>)
    requires Increasing(p) && length >= EPS && Len(p) > length && 0 < i < |p|
    requires forall j :: 0 <= j < i ==> p[j] - p[0] <= length - EPS
    requires Abs(p[i] - p[0] - length) < EPS
    requires piece == p[..i + 1] && rest == p[i..]
    ensures Increasing(rest)
    ensures var c := Pieces(rest, length);
      Pieces(p, length) == Cut([piece] + c.pieces, c.rest, if c.pieces == [] then false else c.interpolated)
  {
    assert !IsCutVertex(p, length, 0);
    assert CutIndexFrom(p, length, 0) == i by {
      CutIndexSkips(p, length, 0, i);
    }
    assert CutStep(p, length) == Step(piece, rest, false);
    StepShrinks(p, length);
    PiecesUnfold(p, length);
  }

  /** The cut as evidently intended: whatever is left after the last cut is
      kept as the last piece whenever it still has a segment, whether that cut
      was interpolated or snapped to a vertex. */
  function CutByLengthIntended(line: seq<real>, length: real, mergeThreshold: real): (r: seq<seq<real>>)
    requires Increasing(line) && length >= EPS
    ensures Len(line) <= length ==> r == []
  {
    if line == [] then []
    else
      var c := Pieces(line, length);
      MergeShortTail(if c.pieces != [] && |c.rest| >= 2 then c.pieces + [c.rest] else c.pieces, mergeThreshold)
  }

  /** The intended cut covers the whole of a line longer than `length`: its
      pieces chain from the first vertex to the last. */
  lemma CutByLengthIntendedCovers(line: seq<real>, length: real, mergeThreshold: real)
    requires Increasing(line) && length >= EPS && Len(line) > length
    ensures var r := CutByLengthIntended(line, length, mergeThreshold);
      r != [] && ChainsFromTo(r, line[0], Last(line))
  {
    PiecesChain(line, length);
    PiecesRest(line, length);
    PiecesUnfold(line, length);
    var c := Pieces(line, length);
    if |c.rest| >= 2 {
      ChainAppend(c.pieces, c.rest, line[0]);
      MergeKeepsChain(c.pieces + [c.rest], mergeThreshold, line[0], Last(line));
    } else {
      MergeKeepsChain(c.pieces, mergeThreshold, line[0], Last(line));
    }
  }

  /** The corrected cut keeps the tail the as-written one drops. */
  lemma SnappedCutKeepsTailIntended(line: seq<real>)
    requires line == [0.0, 3.0, 6.0]
    ensures CutByLengthIntended(line, 3.0, 0.5) == [[0.0, 3.0], [3.0, 6.0]]
  {
    SixUnitLinePieces(line);
    assert Len([3.0, 6.0]) == 3.0;
  }
}
