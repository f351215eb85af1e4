/** The width statistics of beratools/tools/line_footprint_fixed.py: the
    per-line arguments, the sample triples along a line and the widest
    intersection found at each, the percentile widths with their default,
    the per-group maximum, and the fill of missing widths before buffering.
    The geometry kernel (simplification, perpendiculars, intersections,
    lengths, line merging) and numpy's percentile are parameters. */
module FixedWidth {
  import opened Wrappers
  import opened Geo
  import opened Seqs

  /** `FP_FIXED_WIDTH_DEFAULT`. */
  const DefaultWidth: real := 5.0

  // prepare_line_args

  /** A row of the merged line table: its other attributes, its geometry
      and its `BT_GROUP`. */
  datatype LineRow = LineRow(attrs: seq<Value>, geom: Option<Geometry>, group: int)

  /** A footprint polygon and its `BT_GROUP` (unused when the polygon table
      has no such column). */
  datatype PolyRow = PolyRow(group: int, geom: Geometry)

  /** The five arguments handed to `process_single_line`. */
  datatype LineArg = LineArg(row: LineRow, interPoly: seq<PolyRow>, nSamples: int, offset: real, widthPercentile: int)

  /** The polygons of group `g`, in table order: each polygon of the group
      as often as the table has it, and no other. */
  function InGroup(polys: seq<PolyRow>, g: int): (r: seq<PolyRow>)
    ensures forall i :: 0 <= i < |r| ==> r[i].group == g
    ensures forall x {:trigger multiset(r)[x]} :: multiset(r)[x] == if x.group == g then multiset(polys)[x] else 0
    ensures |r| <= |polys|
  {
    if polys == [] then []
    else
      assert polys == [polys[0]] + polys[1..];
      (if polys[0].group == g then [polys[0]] else []) + InGroup(polys[1..], g)
  }

  /** The filter keeps the table order: it distributes over concatenation. */
  lemma {:induction false} InGroupAppend(a: seq<PolyRow>, b: seq<PolyRow>, g: int)
    ensures InGroup(a + b, g) == InGroup(a, g) + InGroup(b, g)
  {
    if a != [] {
      assert (a + b)[0] == a[0];
      assert (a + b)[1..] == a[1..] + b;
      InGroupAppend(a[1..], b, g);
      AppendAssoc(if a[0].group == g then [a[0]] else [], InGroup(a[1..], g), InGroup(b, g));
    } else {
      assert a + b == b;
    }
  }

  /** The candidate polygons of a line: those the spatial index returns,
      narrowed to the line's group when the polygons carry one. */
  function Candidates(line: Geometry, group: int, query: Geometry -> seq<PolyRow>, hasGroup: bool): seq<PolyRow> {
    if hasGroup then InGroup(query(line), group) else query(line)
  }

  /** The arguments of all rows, rows without geometry skipped. */
  function LineArgs(rows: seq<LineRow>, query: Geometry -> seq<PolyRow>, hasGroup: bool,
                    nSamples: int, offset: real, widthPercentile: int): seq<LineArg> {
    if rows == [] then []
    else RowArgs(rows[0], query, hasGroup, nSamples, offset, widthPercentile)
         + LineArgs(rows[1..], query, hasGroup, nSamples, offset, widthPercentile)
  }

  /** The argument list of one row, none for a row without geometry. */
  function RowArgs(row: LineRow, query: Geometry -> seq<PolyRow>, hasGroup: bool,
                   nSamples: int, offset: real, widthPercentile: int): seq<LineArg> {
    if row.geom.None? then []
    else [LineArg(row, Candidates(row.geom.value, row.group, query, hasGroup), nSamples, offset, widthPercentile)]
  }

  lemma LineArgsStep(rows: seq<LineRow>, i: nat, query: Geometry -> seq<PolyRow>, hasGroup: bool,
                     nSamples: int, offset: real, widthPercentile: int)
    requires i < |rows|
    ensures LineArgs(rows[i..], query, hasGroup, nSamples, offset, widthPercentile)
            == RowArgs(rows[i], query, hasGroup, nSamples, offset, widthPercentile)
               + LineArgs(rows[i + 1..], query, hasGroup, nSamples, offset, widthPercentile)
  {
    assert rows[i..][0] == rows[i] && rows[i..][1..] == rows[i + 1..];
  }

  /** The rows that have a geometry, in table order. */
  function WithGeometry(rows: seq<LineRow>): seq<LineRow> {
    if rows == [] then [] else (if rows[0].geom.Some? then [rows[0]] else []) + WithGeometry(rows[1..])
  }

  function ArgRows(args: seq<LineArg>): (r: seq<LineRow>)
    ensures |r| == |args|
    ensures forall i :: 0 <= i < |args| ==> r[i] == args[i].row
  {
    if args == [] then [] else [args[0].row] + ArgRows(args[1..])
  }

  /** What one argument list carries: a row with a geometry, the shared
      parameters, and candidates that are the spatial query's result,
      narrowed to the row's group when the polygons have one. */
  predicate ArgMeaning(a: LineArg, query: Geometry -> seq<PolyRow>, hasGroup: bool,
                       nSamples: int, offset: real, widthPercentile: int) {
    && a.row.geom.Some? && a.nSamples == nSamples && a.offset == offset && a.widthPercentile == widthPercentile
    && (hasGroup ==> forall j :: 0 <= j < |a.interPoly| ==> a.interPoly[j].group == a.row.group)
    && (!hasGroup ==> a.interPoly == query(a.row.geom.value))
  }

  /** One argument list per row with a geometry, in row order; each carries
      the shared parameters, and when the polygons have a group every
      candidate polygon is of the line's group. */
  lemma {:induction false} LineArgsMeaning(rows: seq<LineRow>, query: Geometry -> seq<PolyRow>, hasGroup: bool,
                                           nSamples: int, offset: real, widthPercentile: int)
    ensures var args := LineArgs(rows, query, hasGroup, nSamples, offset, widthPercentile);
      && ArgRows(args) == WithGeometry(rows)
      && forall i :: 0 <= i < |args| ==> ArgMeaning(args[i], query, hasGroup, nSamples, offset, widthPercentile)
  {
    if rows != [] {
      LineArgsMeaning(rows[1..], query, hasGroup, nSamples, offset, widthPercentile);
      var here := RowArgs(rows[0], query, hasGroup, nSamples, offset, widthPercentile);
      var rest := LineArgs(rows[1..], query, hasGroup, nSamples, offset, widthPercentile);
      RowArgsMeaning(rows[0], query, hasGroup, nSamples, offset, widthPercentile);
      ArgRowsAppend(here, rest);
      assert LineArgs(rows, query, hasGroup, nSamples, offset, widthPercentile) == here + rest;
    }
  }

  /** The same for the argument list of one row. */
  lemma RowArgsMeaning(row: LineRow, query: Geometry -> seq<PolyRow>, hasGroup: bool,
                       nSamples: int, offset: real, widthPercentile: int)
    ensures var here := RowArgs(row, query, hasGroup, nSamples, offset, widthPercentile);
      && ArgRows(here) == (if row.geom.Some? then [row] else [])
      && forall i :: 0 <= i < |here| ==> ArgMeaning(here[i], query, hasGroup, nSamples, offset, widthPercentile)
  {
  }

  lemma {:induction false} ArgRowsAppend(a: seq<LineArg>, b: seq<LineArg>)
    ensures ArgRows(a + b) == ArgRows(a) + ArgRows(b)
  {
    if a != [] {
      assert (a + b)[0] == a[0];
      assert (a + b)[1..] == a[1..] + b;
      ArgRowsAppend(a[1..], b);
    } else {
      assert a + b == b;
    }
  }

  /** `prepare_line_args`: the loop over the line table. */
  method PrepareLineArgs(rows: seq<LineRow>, query: Geometry -> seq<PolyRow>, hasGroup: bool,
                         nSamples: int, offset: real, widthPercentile: int) returns (lineArgs: seq<LineArg>)
    ensures lineArgs == LineArgs(rows, query, hasGroup, nSamples, offset, widthPercentile)
  {
    lineArgs := [];
    var i := 0;
    while i < |rows|
      invariant 0 <= i <= |rows|
      invariant lineArgs + LineArgs(rows[i..], query, hasGroup, nSamples, offset, widthPercentile)
                == LineArgs(rows, query, hasGroup, nSamples, offset, widthPercentile)
    {
      var row := rows[i];
      LineArgsStep(rows, i, query, hasGroup, nSamples, offset, widthPercentile);
      var here := [];
      if row.geom.Some? {
        var interPoly := query(row.geom.value);
        if hasGroup {
          interPoly := InGroup(interPoly, row.group);
        }
        here := [LineArg(row, interPoly, nSamples, offset, widthPercentile)];
        RowArgsPresent(row, interPoly, query, hasGroup, nSamples, offset, widthPercentile);
      }
      ghost var rest := LineArgs(rows[i + 1..], query, hasGroup, nSamples, offset, widthPercentile);
      AppendAssoc(lineArgs, here, rest);
      lineArgs := lineArgs + here;
      i := i + 1;
    }
    assert rows[i..] == [];
  }

  /** The argument list the loop builds for a row with a geometry. */
  lemma RowArgsPresent(row: LineRow, interPoly: seq<PolyRow>, query: Geometry -> seq<PolyRow>, hasGroup: bool,
                       nSamples: int, offset: real, widthPercentile: int)
    requires row.geom.Some?
    requires interPoly == if hasGroup then InGroup(query(row.geom.value), row.group) else query(row.geom.value)
    ensures RowArgs(row, query, hasGroup, nSamples, offset, widthPercentile)
            == [LineArg(row, interPoly, nSamples, offset, widthPercentile)]
  {
  }

  /** `BT_GROUP` when the line table lacks it: 1, 2, ..., n in row order. */
  function EnsureGroups(groups: Option<seq<int>>, n: nat): (r: seq<int>)
    ensures groups.None? ==> |r| == n && forall i :: 0 <= i < n ==> r[i] == i + 1
    ensures groups.Some? ==> r == groups.value
  {
    if groups.Some? then groups.value else seq(n, i => i + 1)
  }

  /** The default groups put every row in a group of its own. */
  lemma DefaultGroupsDistinct(n: nat)
    ensures var r := EnsureGroups(None, n);
      forall i, j :: 0 <= i < j < n ==> r[i] != r[j] && r[i] >= 1
  {
  }

  // generate_sample_points and the sample triples

  /** The sample points of a (simplified) line: a LineString's or Point's
      own vertices; for any other geometry `line.coords` raises and the
      merged-line fallback decides (`None` where that raises too). */
  function SamplePoints(line: Geometry, fallback: Geometry -> Option<seq<Pt>>): Option<seq<Pt>> {
    match line
    case LineString(cs) => Some(cs)
    case Point(p) => Some([p])
    case _ => fallback(line)
  }

  /** Three consecutive sample points. */
  datatype Triple = Triple(a: Pt, b: Pt, c: Pt)

  /** `zip(pts[:-2], pts[1:-1], pts[2:])`. */
  function Triples(pts: seq<Pt>): (t: seq<Triple>)
    ensures |t| == if |pts| >= 2 then |pts| - 2 else 0
    ensures forall i :: 0 <= i < |t| ==> t[i] == Triple(pts[i], pts[i + 1], pts[i + 2])
  {
    if |pts| < 3 then [] else [Triple(pts[0], pts[1], pts[2])] + Triples(pts[1..])
  }

  // calculate_average_width

  /** The pieces an intersection result contributes: empty results are
      skipped, a collection gives its LineStrings, a MultiLineString its
      parts, anything else itself. */
  function Pieces(inters: seq<Geometry>): (r: seq<Geometry>)
    ensures forall i :: 0 <= i < |r| ==> !r[i].GeometryCollection? && !r[i].MultiLineString?
  {
    if inters == [] then []
    else
      var g := inters[0];
      var here :=
        if IsEmpty(g) then []
        else if g.GeometryCollection? then LinesOf(g.geoms)
        else if g.MultiLineString? then PartsOf(g.lines)
        else [g];
      here + Pieces(inters[1..])
  }

  function LinesOf(gs: seq<Geometry>): (r: seq<Geometry>)
    ensures forall i :: 0 <= i < |r| ==> r[i].LineString?
  {
    if gs == [] then [] else (if gs[0].LineString? then [gs[0]] else []) + LinesOf(gs[1..])
  }

  function PartsOf(lines: seq<seq<Pt>>): (r: seq<Geometry>)
    ensures |r| == |lines|
    ensures forall i :: 0 <= i < |r| ==> r[i] == LineString(lines[i])
  {
    if lines == [] then [] else [LineString(lines[0])] + PartsOf(lines[1..])
  }

  /** Python's `max(acc, x)` over the pieces' lengths, left to right. */
  function MaxLength(acc: real, items: seq<Geometry>, length: Geometry -> real): real
    decreases |items|
  {
    if items == [] then acc
    else MaxLength(if length(items[0]) > acc then length(items[0]) else acc, items[1..], length)
  }

  /** The fold is the maximum of the start value and every length, and it is
      one of them. */
  lemma {:induction false} MaxLengthMeaning(acc: real, items: seq<Geometry>, length: Geometry -> real)
    ensures MaxLength(acc, items, length) >= acc
    ensures forall i :: 0 <= i < |items| ==> MaxLength(acc, items, length) >= length(items[i])
    ensures MaxLength(acc, items, length) == acc
            || exists i :: 0 <= i < |items| && MaxLength(acc, items, length) == length(items[i])
    decreases |items|
  {
    if items != [] {
      var acc' := if length(items[0]) > acc then length(items[0]) else acc;
      MaxLengthMeaning(acc', items[1..], length);
      var m := MaxLength(acc, items, length);
      assert m == MaxLength(acc', items[1..], length);
      forall i | 0 <= i < |items|
        ensures m >= length(items[i])
      {
        if i > 0 {
          assert items[1..][i - 1] == items[i];
        }
      }
      if m != acc && m != acc' {
        var i :| 0 <= i < |items[1..]| && m == length(items[1..][i]);
        assert m == length(items[i + 1]);
      }
    }
  }

  /** The pieces found at one triple: none where the perpendicular fails,
      and an intersection failure gives none either. */
  function PiecesAt(t: Triple, perp: Triple -> Option<Geometry>, intersect: Geometry -> Option<seq<Geometry>>): seq<Geometry> {
    match perp(t)
    case None => []
    case Some(pl) => Pieces(intersect(pl).GetOr([]))
  }

  /** `widths[i]`: 0 to start with, raised to each piece's length. */
  function WidthAt(t: Triple, perp: Triple -> Option<Geometry>, intersect: Geometry -> Option<seq<Geometry>>,
                   length: Geometry -> real): real {
    MaxLength(0.0, PiecesAt(t, perp, intersect), length)
  }

  /** Each width is the largest of 0 and the lengths of the pieces found at
      its triple, and 0 where the perpendicular or the intersection failed. */
  lemma WidthAtMeaning(t: Triple, perp: Triple -> Option<Geometry>, intersect: Geometry -> Option<seq<Geometry>>,
                       length: Geometry -> real)
    ensures var w, ps := WidthAt(t, perp, intersect, length), PiecesAt(t, perp, intersect);
      && w >= 0.0
      && (forall i :: 0 <= i < |ps| ==> w >= length(ps[i]))
      && (w == 0.0 || exists i :: 0 <= i < |ps| && w == length(ps[i]))
      && (perp(t).None? ==> w == 0.0)
      && (perp(t).Some? && intersect(perp(t).value).None? ==> w == 0.0)
  {
    MaxLengthMeaning(0.0, PiecesAt(t, perp, intersect), length);
  }

  /** The pieces found at each triple, in order. */
  function PiecesSeq(ts: seq<Triple>, perp: Triple -> Option<Geometry>, intersect: Geometry -> Option<seq<Geometry>>): seq<seq<Geometry>> {
    seq(|ts|, k requires 0 <= k < |ts| => PiecesAt(ts[k], perp, intersect))
  }

  /** The concatenation of a sequence of piece lists. */
  function Flatten(ss: seq<seq<Geometry>>): seq<Geometry> {
    if ss == [] then [] else Flatten(ss[..|ss| - 1]) + ss[|ss| - 1]
  }

  lemma FlattenStep(ss: seq<seq<Geometry>>, i: nat)
    requires i < |ss|
    ensures Flatten(ss[..i + 1]) == Flatten(ss[..i]) + ss[i]
  {
    assert ss[..i + 1][..i] == ss[..i];
  }

  /** All the pieces found, triple by triple (`perp_lines`). */
  function AllPieces(ts: seq<Triple>, perp: Triple -> Option<Geometry>, intersect: Geometry -> Option<seq<Geometry>>): seq<Geometry> {
    Flatten(PiecesSeq(ts, perp, intersect))
  }

  /** The loop of `calculate_average_width` over the triples: `widths` is
      written in place, `perpOriginal` gets one entry per triple (`None`
      where the perpendicular failed) and `perpLines` every piece. */
  method CalculateWidths(ts: seq<Triple>, perp: Triple -> Option<Geometry>, intersect: Geometry -> Option<seq<Geometry>>,
                         length: Geometry -> real)
    returns (widths: array<real>, perpLines: seq<Geometry>, perpOriginal: seq<Option<Geometry>>)
    ensures fresh(widths) && widths.Length == |ts|
    ensures forall i :: 0 <= i < |ts| ==> widths[i] == WidthAt(ts[i], perp, intersect, length)
    ensures perpLines == AllPieces(ts, perp, intersect)
    ensures |perpOriginal| == |ts| && forall i :: 0 <= i < |ts| ==> perpOriginal[i] == perp(ts[i])
  {
    widths := new real[|ts|](_ => 0.0);
    perpLines := [];
    perpOriginal := [];
    // Snapshots of the specification, so that the invariants do not apply
    // the kernel functions themselves.
    ghost var ws := seq(|ts|, k requires 0 <= k < |ts| => WidthAt(ts[k], perp, intersect, length));
    ghost var po := seq(|ts|, k requires 0 <= k < |ts| => perp(ts[k]));
    ghost var pc := PiecesSeq(ts, perp, intersect);
    var i := 0;
    while i < |ts|
      invariant 0 <= i <= |ts|
      invariant widths[..i] == ws[..i]
      invariant perpLines == Flatten(pc[..i])
      invariant perpOriginal == po[..i]
    {
      var w, lineList, perpLine := TripleStep(ts[i], perp, intersect, length);
      FlattenStep(pc, i);
      PrefixStep(po, i);
      perpOriginal := perpOriginal + [perpLine];
      perpLines := perpLines + lineList;
      widths[i] := w;
      assert widths[..i + 1] == widths[..i] + [w];
      i := i + 1;
    }
    assert pc[..i] == pc && widths[..] == widths[..i];
  }

  /** One pass of the triple loop: the perpendicular, its pieces, and the
      width raised from its zero start (`np.zeros`) to their lengths. */
  method TripleStep(t: Triple, perp: Triple -> Option<Geometry>, intersect: Geometry -> Option<seq<Geometry>>,
                    length: Geometry -> real)
    returns (w: real, lineList: seq<Geometry>, perpLine: Option<Geometry>)
    ensures w == WidthAt(t, perp, intersect, length)
    ensures lineList == PiecesAt(t, perp, intersect)
    ensures perpLine == perp(t)
  {
    perpLine := perp(t);
    w := 0.0;
    lineList := [];
    if perpLine.Some? {
      var intersections := intersect(perpLine.value).GetOr([]);
      lineList := Pieces(intersections);
      w := RaiseToPieces(w, lineList, length);
    }
  }

  /** The loop `widths[i] = max(widths[i], item.length)` over the pieces
      found at one triple. */
  method RaiseToPieces(start: real, items: seq<Geometry>, length: Geometry -> real) returns (w: real)
    ensures w == MaxLength(start, items, length)
  {
    w := start;
    var j := 0;
    while j < |items|
      invariant 0 <= j <= |items|
      invariant MaxLength(w, items[j..], length) == MaxLength(start, items, length)
    {
      assert items[j..][0] == items[j] && items[j..][1..] == items[j + 1..];
      var len := length(items[j]);
      if len > w {
        w := len;
      }
      j := j + 1;
    }
  }

  // process_single_line

  /** The widths that are not exactly zero (`math.isclose(w, 0.0)` has no
      absolute tolerance), in order. */
  function NonZero(ws: seq<real>): (r: seq<real>)
    ensures forall i :: 0 <= i < |r| ==> r[i] != 0.0
    ensures forall x :: x != 0.0 ==> multiset(r)[x] == multiset(ws)[x]
    ensures |r| <= |ws|
    ensures r == [] <==> forall i :: 0 <= i < |ws| ==> ws[i] == 0.0
  {
    if ws == [] then []
    else
      var t := NonZero(ws[1..]);
      NonZeroStep(ws, t);
      (if ws[0] != 0.0 then [ws[0]] else []) + t
  }

  /** The filtered tail with the head in front when it is not zero. */
  lemma NonZeroStep(ws: seq<real>, t: seq<real>)
    requires ws != []
    requires forall i :: 0 <= i < |t| ==> t[i] != 0.0
    requires forall x :: x != 0.0 ==> multiset(t)[x] == multiset(ws[1..])[x]
    requires |t| <= |ws| - 1
    requires t == [] <==> forall i :: 1 <= i < |ws| ==> ws[i] == 0.0
    ensures var r := (if ws[0] != 0.0 then [ws[0]] else []) + t;
      && (forall i :: 0 <= i < |r| ==> r[i] != 0.0)
      && (forall x :: x != 0.0 ==> multiset(r)[x] == multiset(ws)[x])
      && |r| <= |ws|
      && (r == [] <==> forall i :: 0 <= i < |ws| ==> ws[i] == 0.0)
  {
    assert ws == [ws[0]] + ws[1..];
  }

  /** The zero filter keeps the order of the widths. */
  lemma {:induction false} NonZeroAppend(a: seq<real>, b: seq<real>)
    ensures NonZero(a + b) == NonZero(a) + NonZero(b)
  {
    if a != [] {
      assert (a + b)[0] == a[0];
      assert (a + b)[1..] == a[1..] + b;
      NonZeroAppend(a[1..], b);
      AppendAssoc(if a[0] != 0.0 then [a[0]] else [], NonZero(a[1..]), NonZero(b));
    } else {
      assert a + b == b;
    }
  }

  /** The two quantile widths: the `widthPercentile`-th and the 90th
      percentile of the non-zero widths, 5.0 where there are none or where
      a percentile raises (a raise on the first leaves both at 5.0). */
  function QuantileWidths(ws: seq<real>, widthPercentile: int, percentile: (seq<real>, int) -> Option<real>): (q: (real, real))
    ensures q.0 == DefaultWidth || percentile(NonZero(ws), widthPercentile) == Some(q.0)
    ensures q.1 == DefaultWidth || percentile(NonZero(ws), 90) == Some(q.1)
  {
    var nz := NonZero(ws);
    if nz == [] then (DefaultWidth, DefaultWidth)
    else match percentile(nz, widthPercentile)
      case None => (DefaultWidth, DefaultWidth)
      case Some(q3) => (q3, percentile(nz, 90).GetOr(DefaultWidth))
  }

  /** No non-zero width, or an all-zero width array, means both widths
      are the default; otherwise the percentiles see exactly the non-zero
      widths. */
  lemma QuantileWidthsDefault(ws: seq<real>, widthPercentile: int, percentile: (seq<real>, int) -> Option<real>)
    ensures (forall i :: 0 <= i < |ws| ==> ws[i] == 0.0) ==>
      QuantileWidths(ws, widthPercentile, percentile) == (DefaultWidth, DefaultWidth)
    ensures (exists i :: 0 <= i < |ws| && ws[i] != 0.0) && percentile(NonZero(ws), widthPercentile).Some? ==>
      QuantileWidths(ws, widthPercentile, percentile).0 == percentile(NonZero(ws), widthPercentile).value
  {
  }

  /** A row of the per-line result table. */
  datatype LineAttr = LineAttr(attrs: seq<Value>, group: int, avgWidth: Option<real>, maxWidth: Option<real>,
                               geom: Option<Geometry>, perpLines: seq<Geometry>, perpOriginal: seq<Option<Geometry>>)

  /** The geometry kernel and numpy calls `process_single_line` depends on:
      the spatial-index query returns positions in the table it is asked
      about, and `intersection` intersects one polygon with a perpendicular. */
  datatype Kernel = Kernel(
    simplify: Geometry -> Geometry,
    fallback: Geometry -> Option<seq<Pt>>,
    perp: Triple -> Option<Geometry>,
    query: (seq<PolyRow>, Geometry) -> Option<seq<nat>>,
    intersection: (Geometry, Geometry) -> Geometry,
    length: Geometry -> real,
    percentile: (seq<real>, int) -> Option<real>)

  /** `in_poly.iloc[in_poly.sindex.query(perp_line)].intersection(perp_line)`
      over the line's candidate polygons: the positions the index returns
      pick candidates, whose intersections with the perpendicular are taken
      in that order. A failing query or a position outside the candidates
      raises (`None`). */
  function Intersections(polys: seq<PolyRow>, pl: Geometry, k: Kernel): (r: Option<seq<Geometry>>)
    ensures polys == [] ==> r.None? || r == Some([])
    ensures r.Some? ==> forall j :: 0 <= j < |r.value| ==>
      exists p :: p in polys && r.value[j] == k.intersection(p.geom, pl)
  {
    match k.query(polys, pl)
    case None => None
    case Some(idx) =>
      if forall j :: 0 <= j < |idx| ==> idx[j] < |polys| then
        var xs := seq(|idx|, j requires 0 <= j < |idx| => k.intersection(polys[idx[j]].geom, pl));
        assert |idx| > 0 ==> idx[0] < |polys|;
        assert forall j :: 0 <= j < |xs| ==> var p := polys[idx[j]]; p in polys && xs[j] == k.intersection(p.geom, pl);
        Some(xs)
      else None
  }

  /** The intersection step of the triple loop for one line: against that
      line's own candidate polygons. */
  function CandidateIntersect(arg: LineArg, k: Kernel): Geometry -> Option<seq<Geometry>> {
    pl => Intersections(arg.interPoly, pl, k)
  }

  function Widths(ts: seq<Triple>, perp: Triple -> Option<Geometry>, intersect: Geometry -> Option<seq<Geometry>>,
                  length: Geometry -> real): (w: seq<real>)
    ensures |w| == |ts|
    ensures forall i :: 0 <= i < |ts| ==> w[i] == WidthAt(ts[i], perp, intersect, length)
  {
    seq(|ts|, i requires 0 <= i < |ts| => WidthAt(ts[i], perp, intersect, length))
  }

  /** Each triple's perpendicular (`perp_lines_original`), `None` where it
      failed. */
  function Perps(ts: seq<Triple>, perp: Triple -> Option<Geometry>): (r: seq<Option<Geometry>>)
    ensures |r| == |ts| && forall i :: 0 <= i < |ts| ==> r[i] == perp(ts[i])
  {
    seq(|ts|, i requires 0 <= i < |ts| => perp(ts[i]))
  }

  /** A part shapely's `MultiLineString` accepts: a LineString with
      coordinates. A Point, a polygon or an empty line makes it raise. */
  predicate IsLinePart(g: Geometry) {
    g.LineString? && g.coords != []
  }

  /** A perpendicular `MultiLineString` accepts as a part; a failed one
      (`None`) makes it raise. */
  predicate IsPerpPart(g: Option<Geometry>) {
    g.Some? && IsLinePart(g.value)
  }

  predicate AllLineParts(gs: seq<Geometry>) {
    forall i :: 0 <= i < |gs| ==> IsLinePart(gs[i])
  }

  predicate AllPerpParts(gs: seq<Option<Geometry>>) {
    forall i :: 0 <= i < |gs| ==> IsPerpPart(gs[i])
  }

  /** `process_single_line`: `None` where `calculate_average_width` raises.
      That is a missing geometry, sample points that cannot be read, or one
      of the two `MultiLineString` constructors of its return, which refuse
      a failed perpendicular and a piece that is not a LineString. A row
      that comes back keeps its attributes and group, has both widths, and
      holds only proper line parts. */
  function ProcessSingleLine(arg: LineArg, k: Kernel): (r: Option<LineAttr>)
    ensures arg.row.geom.None? ==> r.None?
    ensures r.Some? ==>
      && r.value.attrs == arg.row.attrs && r.value.group == arg.row.group
      && r.value.avgWidth.Some? && r.value.maxWidth.Some? && r.value.geom.Some?
      && AllLineParts(r.value.perpLines) && AllPerpParts(r.value.perpOriginal)
  {
    if arg.row.geom.None? then None
    else
      var line := k.simplify(arg.row.geom.value);
      match SamplePoints(line, k.fallback)
      case None => None
      case Some(pts) =>
        var ts := Triples(pts);
        var isect := CandidateIntersect(arg, k);
        var perpLines := AllPieces(ts, k.perp, isect);
        var perpOriginal := Perps(ts, k.perp);
        if !AllLineParts(perpLines) || !AllPerpParts(perpOriginal) then None
        else
          var q := QuantileWidths(Widths(ts, k.perp, isect, k.length), arg.widthPercentile, k.percentile);
          Some(LineAttr(arg.row.attrs, arg.row.group, Some(q.0), Some(q.1), Some(line), perpLines, perpOriginal))
  }

  /** A line with fewer than three sample points has no triple, hence no
      perpendicular and no width, and gets the default widths. */
  lemma ShortLineDefaultWidths(arg: LineArg, k: Kernel, pts: seq<Pt>)
    requires arg.row.geom.Some? && SamplePoints(k.simplify(arg.row.geom.value), k.fallback) == Some(pts)
    requires |pts| < 3
    ensures ProcessSingleLine(arg, k).Some?
    ensures ProcessSingleLine(arg, k).value.avgWidth == Some(DefaultWidth)
    ensures ProcessSingleLine(arg, k).value.maxWidth == Some(DefaultWidth)
  {
    var isect := CandidateIntersect(arg, k);
    assert Triples(pts) == [];
    assert AllPieces([], k.perp, isect) == [];
    assert Widths([], k.perp, isect, k.length) == [];
  }

  /** A piece of one triple's list is among all the pieces. */
  lemma {:induction false} FlattenHas(ss: seq<seq<Geometry>>, i: nat, j: nat)
    requires i < |ss| && j < |ss[i]|
    ensures ss[i][j] in Flatten(ss)
    decreases |ss|
  {
    var n := |ss| - 1;
    assert ss[..n + 1] == ss;
    FlattenStep(ss, n);
    if i < n {
      assert ss[..n][i] == ss[i];
      FlattenHas(ss[..n], i, j);
    }
  }

  /** No piece at all when no triple has one. */
  lemma {:induction false} FlattenNone(ss: seq<seq<Geometry>>)
    requires forall i :: 0 <= i < |ss| ==> ss[i] == []
    ensures Flatten(ss) == []
  {
    if ss != [] {
      FlattenNone(ss[..|ss| - 1]);
    }
  }

  /** A failed perpendicular at any triple, or a piece that is not a
      LineString (a Point where a perpendicular only touches a polygon),
      makes the return of `calculate_average_width` raise: the line gets
      no row. */
  lemma BadPartDropsLine(arg: LineArg, k: Kernel, pts: seq<Pt>, i: nat, j: nat)
    requires arg.row.geom.Some? && SamplePoints(k.simplify(arg.row.geom.value), k.fallback) == Some(pts)
    requires i < |Triples(pts)|
    requires var t := Triples(pts)[i]; var ps := PiecesAt(t, k.perp, CandidateIntersect(arg, k));
      !IsPerpPart(k.perp(t)) || (j < |ps| && !IsLinePart(ps[j]))
    ensures ProcessSingleLine(arg, k).None?
  {
    var ts := Triples(pts);
    var isect := CandidateIntersect(arg, k);
    var ps := PiecesAt(ts[i], k.perp, isect);
    if IsPerpPart(k.perp(ts[i])) {
      var pc := PiecesSeq(ts, k.perp, isect);
      assert pc[i] == ps;
      FlattenHas(pc, i, j);
      assert !AllLineParts(AllPieces(ts, k.perp, isect));
    } else {
      assert !AllPerpParts(Perps(ts, k.perp));
    }
  }

  /** A line with no candidate polygon (none of its group, say) finds no
      piece: when it gets a row at all, both widths are the default. */
  lemma NoCandidatesDefaultWidths(arg: LineArg, k: Kernel)
    requires arg.interPoly == []
    ensures var r := ProcessSingleLine(arg, k);
      r.Some? ==> r.value.avgWidth == Some(DefaultWidth) && r.value.maxWidth == Some(DefaultWidth) && r.value.perpLines == []
  {
    if ProcessSingleLine(arg, k).Some? {
      var pts := SamplePoints(k.simplify(arg.row.geom.value), k.fallback).value;
      var ts := Triples(pts);
      var isect := CandidateIntersect(arg, k);
      NoCandidatesNoPieces(arg, k, ts);
      var ws := Widths(ts, k.perp, isect, k.length);
      assert forall i :: 0 <= i < |ws| ==> ws[i] == 0.0;
      QuantileWidthsDefault(ws, arg.widthPercentile, k.percentile);
      FlattenNone(PiecesSeq(ts, k.perp, isect));
    }
  }

  /** Without candidate polygons no triple finds a piece. */
  lemma NoCandidatesNoPieces(arg: LineArg, k: Kernel, ts: seq<Triple>)
    requires arg.interPoly == []
    ensures forall i :: 0 <= i < |ts| ==> PiecesAt(ts[i], k.perp, CandidateIntersect(arg, k)) == []
  {
    var isect := CandidateIntersect(arg, k);
    forall i | 0 <= i < |ts|
      ensures PiecesAt(ts[i], k.perp, isect) == []
    {
      if k.perp(ts[i]).Some? {
        var r := Intersections([], k.perp(ts[i]).value, k);
        assert isect(k.perp(ts[i]).value) == r;
        assert r.GetOr([]) == [];
      }
    }
  }

  // generate_fixed_width_footprint: filling missing widths

  function Count(col: seq<Option<real>>): nat {
    if col == [] then 0 else (if col[0].Some? then 1 else 0) + Count(col[1..])
  }

  function Sum(col: seq<Option<real>>): real {
    if col == [] then 0.0 else (if col[0].Some? then col[0].value else 0.0) + Sum(col[1..])
  }

  /** pandas `Series.mean()`: NaN cells skipped, NaN when nothing is left. */
  function Mean(col: seq<Option<real>>): Option<real> {
    if Count(col) == 0 then None else Some(Sum(col) / Count(col) as real)
  }

  /** `n` copies of `x` added up. */
  function Scale(n: nat, x: real): real {
    if n == 0 then 0.0 else x + Scale(n - 1, x)
  }

  lemma {:induction false} ScaleIsProduct(n: nat, x: real)
    ensures Scale(n, x) == n as real * x
  {
    if n > 0 {
      ScaleIsProduct(n - 1, x);
      assert n as real * x == (n - 1) as real * x + x;
    }
  }

  /** The sum lies between count times a lower and count times an upper
      bound of the values. */
  lemma {:induction false} SumBounds(col: seq<Option<real>>, lo: real, hi: real)
    requires forall i :: 0 <= i < |col| && col[i].Some? ==> lo <= col[i].value <= hi
    ensures Scale(Count(col), lo) <= Sum(col) <= Scale(Count(col), hi)
  {
    if col != [] {
      assert forall i :: 0 <= i < |col[1..]| ==> col[1..][i] == col[i + 1];
      SumBounds(col[1..], lo, hi);
    }
  }

  /** The mean lies between any bounds of the non-NaN values. */
  lemma MeanBounds(col: seq<Option<real>>, lo: real, hi: real)
    requires forall i :: 0 <= i < |col| && col[i].Some? ==> lo <= col[i].value <= hi
    ensures Mean(col).Some? ==> lo <= Mean(col).value <= hi
  {
    if Count(col) > 0 {
      SumBounds(col, lo, hi);
      ScaleIsProduct(Count(col), lo);
      ScaleIsProduct(Count(col), hi);
      var c, t := Count(col) as real, Sum(col);
      assert c * lo <= t <= c * hi;
      QuotientBetween(t, c, lo, hi);
      assert Mean(col) == Some(t / c);
    }
  }

  lemma QuotientBetween(s: real, c: real, lo: real, hi: real)
    requires c > 0.0 && c * lo <= s <= c * hi
    ensures lo <= s / c <= hi
  {
    var m := s / c;
    assert m * c == s;
    assert (m - lo) * c == m * c - lo * c;
    SignOfFactor(m - lo, c);
    assert (hi - m) * c == hi * c - m * c;
    SignOfFactor(hi - m, c);
  }

  /** A cell after both `.loc` assignments: NaN and 0.0 become the mean. */
  function FillCell(v: Option<real>, mean: Option<real>): Option<real> {
    if v.None? || v == Some(0.0) then mean else v
  }

  function Filled(col: seq<Option<real>>, mean: Option<real>): (r: seq<Option<real>>)
    ensures |r| == |col|
    ensures forall i :: 0 <= i < |col| ==> r[i] == FillCell(col[i], mean)
  {
    seq(|col|, i requires 0 <= i < |col| => FillCell(col[i], mean))
  }

  /** After the fill every cell is the mean or a non-zero width it already
      had, and, with a non-zero mean, no cell is missing or zero. */
  lemma FilledMeaning(col: seq<Option<real>>)
    ensures var m := Mean(col); var r := Filled(col, m);
      && (forall i :: 0 <= i < |col| ==> r[i] == m || (r[i] == col[i] && r[i].Some? && r[i].value != 0.0))
      && (m.Some? && m.value != 0.0 ==> forall i :: 0 <= i < |r| ==> r[i].Some? && r[i].value != 0.0)
  {
  }

  /** The two `.loc` assignments of one width column, in place; the mean is
      taken before either of them. */
  method FillColumn(col: array<Option<real>>)
    modifies col
    ensures col[..] == Filled(old(col[..]), Mean(old(col[..])))
  {
    var mean := Mean(col[..]);
    ghost var orig := col[..];
    var i := 0;
    while i < col.Length
      invariant 0 <= i <= col.Length
      invariant forall k :: 0 <= k < i ==> col[k] == (if orig[k].None? then mean else orig[k])
      invariant forall k :: i <= k < col.Length ==> col[k] == orig[k]
    {
      if col[i].None? {
        col[i] := mean;
      }
      i := i + 1;
    }
    i := 0;
    while i < col.Length
      invariant 0 <= i <= col.Length
      invariant forall k :: 0 <= k < i ==> col[k] == FillCell(orig[k], mean)
      invariant forall k :: i <= k < col.Length ==> col[k] == (if orig[k].None? then mean else orig[k])
    {
      if col[i] == Some(0.0) {
        col[i] := mean;
      }
      i := i + 1;
    }
    assert col[..] == Filled(orig, mean);
  }

  /** The buffer distance of a row: half the quantile width, or 1.2 times
      the upper width halved. A row without geometry gets no buffer. */
  function BufferRadius(row: LineAttr, useMaxWidth: bool): (r: Option<real>)
    ensures row.geom.None? ==> r.None?
    ensures row.geom.Some? && !useMaxWidth && row.avgWidth.Some? ==> r == Some(row.avgWidth.value / 2.0)
    ensures row.geom.Some? && useMaxWidth && row.maxWidth.Some? ==> r == Some(row.maxWidth.value * 1.2 / 2.0)
  {
    if row.geom.None? then None
    else if !useMaxWidth then (if row.avgWidth.Some? then Some(row.avgWidth.value / 2.0) else None)
    else if row.maxWidth.Some? then Some(row.maxWidth.value * 1.2 / 2.0) else None
  }

  // the group maximum of line_footprint_fixed

  /** pandas `max` over a group's width cells, NaN cells skipped. */
  function MaxOfGroup(groups: seq<int>, vals: seq<Option<real>>, g: int): Option<real>
    requires |groups| == |vals|
  {
    if vals == [] then None
    else
      var rest := MaxOfGroup(groups[1..], vals[1..], g);
      if groups[0] != g || vals[0].None? then rest
      else if rest.None? || rest.value < vals[0].value then vals[0]
      else rest
  }

  /** The group maximum is an upper bound of the group's width cells and is
      one of them; it is NaN only when all of them are. */
  lemma {:induction false} MaxOfGroupMeaning(groups: seq<int>, vals: seq<Option<real>>, g: int)
    requires |groups| == |vals|
    ensures var m := MaxOfGroup(groups, vals, g);
      && (forall i :: 0 <= i < |vals| && groups[i] == g && vals[i].Some? ==> m.Some? && vals[i].value <= m.value)
      && (m.Some? ==> exists i :: 0 <= i < |vals| && groups[i] == g && vals[i] == m)
  {
    if vals != [] {
      MaxOfGroupMeaning(groups[1..], vals[1..], g);
      var m := MaxOfGroup(groups, vals, g);
      var rest := MaxOfGroup(groups[1..], vals[1..], g);
      forall i | 0 <= i < |vals| && groups[i] == g && vals[i].Some?
        ensures m.Some? && vals[i].value <= m.value
      {
        if i > 0 {
          assert groups[1..][i - 1] == groups[i] && vals[1..][i - 1] == vals[i];
        }
      }
      if m.Some? && m != vals[0] {
        assert m == rest;
        var j :| 0 <= j < |vals[1..]| && groups[1..][j] == g && vals[1..][j] == m;
        assert groups[j + 1] == g && vals[j + 1] == m;
      }
    }
  }

  /** The `groupby(BT_GROUP).agg("max")` merged back onto the rows (in row
      order) and written over the width column. */
  function GroupMax(groups: seq<int>, vals: seq<Option<real>>): (r: seq<Option<real>>)
    requires |groups| == |vals|
    ensures |r| == |vals|
    ensures forall i :: 0 <= i < |vals| ==> r[i] == MaxOfGroup(groups, vals, groups[i])
  {
    seq(|vals|, i requires 0 <= i < |vals| => MaxOfGroup(groups, vals, groups[i]))
  }

  /** Rows of one group end up with the same width, no width decreases, and
      each new width is one of the group's widths. */
  lemma GroupMaxMeaning(groups: seq<int>, vals: seq<Option<real>>)
    requires |groups| == |vals|
    ensures var r := GroupMax(groups, vals);
      && (forall i, j :: 0 <= i < |vals| && 0 <= j < |vals| && groups[i] == groups[j] ==> r[i] == r[j])
      && (forall i :: 0 <= i < |vals| && vals[i].Some? ==> r[i].Some? && vals[i].value <= r[i].value)
      && (forall i :: 0 <= i < |vals| && r[i].Some? ==> exists j :: 0 <= j < |vals| && groups[j] == groups[i] && vals[j] == r[i])
  {
    forall i | 0 <= i < |vals|
      ensures var r := GroupMax(groups, vals);
        && (vals[i].Some? ==> r[i].Some? && vals[i].value <= r[i].value)
        && (r[i].Some? ==> exists j :: 0 <= j < |vals| && groups[j] == groups[i] && vals[j] == r[i])
    {
      MaxOfGroupMeaning(groups, vals, groups[i]);
    }
  }

  function Groups(rows: seq<LineAttr>): (g: seq<int>)
    ensures |g| == |rows| && forall i :: 0 <= i < |rows| ==> g[i] == rows[i].group
  {
    seq(|rows|, i requires 0 <= i < |rows| => rows[i].group)
  }

  /** When groups are not merged: both width columns replaced by their group
      maxima. */
  function ApplyGroupMax(rows: seq<LineAttr>): (r: seq<LineAttr>)
    ensures |r| == |rows|
  {
    var g := Groups(rows);
    var avg := GroupMax(g, seq(|rows|, i requires 0 <= i < |rows| => rows[i].avgWidth));
    var mx := GroupMax(g, seq(|rows|, i requires 0 <= i < |rows| => rows[i].maxWidth));
    seq(|rows|, i requires 0 <= i < |rows| => rows[i].(avgWidth := avg[i], maxWidth := mx[i]))
  }

  /** Only the two width columns change, and they change to the group
      maximum. */
  lemma ApplyGroupMaxMeaning(rows: seq<LineAttr>)
    ensures var r := ApplyGroupMax(rows);
      forall i :: 0 <= i < |rows| ==>
        && r[i].(avgWidth := rows[i].avgWidth, maxWidth := rows[i].maxWidth) == rows[i]
        && r[i].avgWidth == MaxOfGroup(Groups(rows), seq(|rows|, k requires 0 <= k < |rows| => rows[k].avgWidth), rows[i].group)
        && r[i].maxWidth == MaxOfGroup(Groups(rows), seq(|rows|, k requires 0 <= k < |rows| => rows[k].maxWidth), rows[i].group)
  {
  }
}
