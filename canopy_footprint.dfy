/** The absolute-threshold canopy footprint of
    beratools/tools/canopy_footprint_absolute.py: per line, the corridor
    threshold is normalised, the line's end vertices become the source and
    destination of the corridor search, the polygons of the cleaned corridor
    raster become a one-row footprint table with a CRS string that falls back
    to "EPSG:4326", and the corridor polygon and centreline are stored last.
    The raster pipeline (clipping, cost, corridor search, morphology,
    polygonising), the CRS library and the centreline search are parameters. */
module CanopyFootprint {
  import opened Wrappers
  import opened Geo
  import opened Seqs

  /** A one-line GeoDataFrame: its geometry column and the text of its CRS
      (`None` where the frame has no CRS or the CRS is falsy). */
  datatype LineSeg = LineSeg(geoms: seq<Geometry>, crs: Option<string>)

  /** The footprint table: its geometry rows and its CRS (`None` until
      `set_crs` has succeeded). */
  datatype Footprint = Footprint(geoms: seq<Geometry>, crs: Option<string>)

  /** What the raster pipeline is given for one line. */
  datatype Request = Request(chm: string, line: Geometry, maxWidth: real, source: Pt, destination: Pt,
                             threshold: Value, expShkCell: int)

  /** The calls `compute` makes into code outside this model; `None` stands
      for a call that raises. */
  datatype Kernel = Kernel(
    parse: string -> Option<real>,                   // float(text); None for a ValueError
    shapes: Request -> Option<seq<seq<Pt>>>,         // clip, cost, corridor, morphology, features.shapes
    crsAccepted: string -> bool,                     // set_crs accepts the text
    corridorPolygons: Request -> Option<seq<Geometry>>,  // rows of find_corridor_polygon
    centerline: (Geometry, Geometry) -> Option<Geometry>) // find_centerline

  /** `DEFAULT` threshold of `compute`. */
  const DefaultThreshold: real := 3.0

  /** The CRS used when the line has none usable. */
  const FallbackCrs: string := "EPSG:4326"

  /** `float(corridor_thresh)` and its repairs: a negative number and a text
      that does not parse become 3.0; `None` (a `TypeError`) is left as
      passed. */
  function NormaliseThreshold(v: Value, parse: string -> Option<real>): (r: Value)
    ensures r.Null? <==> v.Null?
    ensures r.Num? ==> r.r >= 0.0
    ensures v.Num? ==> r == Num(if v.r < 0.0 then DefaultThreshold else v.r)
    ensures v.Int? ==> r == Num(if v.i < 0 then DefaultThreshold else v.i as real)
    ensures v.Bool? ==> r == Num(if v.b then 1.0 else 0.0)
    ensures v.Str? && parse(v.s).None? ==> r == Num(DefaultThreshold)
    ensures v.Str? && parse(v.s).Some? ==>
      r == Num(if parse(v.s).value < 0.0 then DefaultThreshold else parse(v.s).value)
  {
    match v
    case Null => v
    case Bool(b) => Num(if b then 1.0 else 0.0)
    case Int(i) => NonNegative(i as real)
    case Num(x) => NonNegative(x)
    case Str(s) => match parse(s) case None => Num(DefaultThreshold) case Some(x) => NonNegative(x)
  }

  /** The repair of a parsed threshold below 0. */
  function NonNegative(x: real): Value {
    Num(if x < 0.0 then DefaultThreshold else x)
  }

  /** `feat.coords`: a point's one vertex, a line's vertices; the other
      geometries have no coordinate sequence and raise. */
  function Coords(g: Geometry): Option<seq<Pt>> {
    match g
    case Point(p) => Some([p])
    case LineString(cs) => Some(cs)
    case _ => None
  }

  /** The vertices of `feat`, in order, copied one at a time into
      `segment_list`. */
  method SegmentList(feat: Geometry) returns (segmentList: Option<seq<Pt>>)
    ensures segmentList.None? <==> !(feat.Point? || feat.LineString?)
    ensures feat.Point? ==> segmentList == Some([feat.p])
    ensures feat.LineString? ==> segmentList == Some(feat.coords)
  {
    var coords := Coords(feat);
    if coords.None? {
      return None;
    }
    var list: seq<Pt> := [];
    var i := 0;
    while i < |coords.value|
      invariant 0 <= i <= |coords.value|
      invariant list == coords.value[..i]
    {
      list := list + [coords.value[i]];
      i := i + 1;
    }
    assert coords.value[..i] == coords.value;
    segmentList := Some(list);
  }

  /** The source and the destination: the first and the last vertex; an
      empty line raises at `segment_list[0]`. */
  function Endpoints(g: Geometry): (r: Option<(Pt, Pt)>)
    ensures r.Some? <==> g.Point? || (g.LineString? && g.coords != [])
    ensures g.Point? ==> r == Some((g.p, g.p))
    ensures g.LineString? && g.coords != [] ==> r == Some((g.coords[0], g.coords[|g.coords| - 1]))
  {
    match Coords(g)
    case None => None
    case Some(cs) => if cs == [] then None else Some((cs[0], cs[|cs| - 1]))
  }

  /** The CRS string of the footprint: the line's own CRS text when it
      starts with "EPSG", "EPSG:4326" otherwise, so it always starts with
      "EPSG". */
  function CrsString(crs: Option<string>): (r: string)
    ensures StartsWith(r, "EPSG")
    ensures crs.Some? && StartsWith(crs.value, "EPSG") ==> r == crs.value
    ensures crs.None? || !StartsWith(crs.value, "EPSG") ==> r == FallbackCrs
  {
    if crs.None? || crs.value == [] || !StartsWith(crs.value, "EPSG") then FallbackCrs else crs.value
  }

  /** The three result fields of a `FootprintAbsolute`. */
  datatype Fields = Fields(footprint: Option<Footprint>, corridorPoly: Option<seq<Geometry>>, centerline: Option<Geometry>)

  /** The fields after one `compute`, starting from `prev`, and whether it
      raised. Each field is assigned at one point of the pipeline, so a raise
      keeps the fields assigned after it as they were. */
  datatype RunResult = RunResult(fields: Fields, raised: bool)

  function Run(seg: LineSeg, chm: string, thresh: Value, maxWidth: real, expShkCell: int, k: Kernel,
               prev: Fields): (r: RunResult)
    ensures !r.raised ==> r.fields.footprint.Some? && r.fields.corridorPoly.Some? && r.fields.centerline.Some?
    ensures r.raised ==> r.fields.corridorPoly == prev.corridorPoly && r.fields.centerline == prev.centerline
  {
    var t := NormaliseThreshold(thresh, k.parse);
    if seg.geoms == [] then RunResult(prev, true)
    else
      var feat := seg.geoms[0];
      match Endpoints(feat)
      case None => RunResult(prev, true)
      case Some(ends) =>
        var req := Request(chm, feat, maxWidth, ends.0, ends.1, t, expShkCell);
        match k.shapes(req)
        case None => RunResult(prev, true)
        case Some(polys) =>
          var crs := CrsString(seg.crs);
          var rows := [MultiPolygon(polys)];
          if !k.crsAccepted(crs) then RunResult(prev.(footprint := Some(Footprint(rows, None))), true)
          else
            var fp := Some(Footprint(rows, Some(crs)));
            match k.corridorPolygons(req)
            case None => RunResult(prev.(footprint := fp), true)
            case Some(corr) =>
              if corr == [] then RunResult(prev.(footprint := fp), true)
              else match k.centerline(corr[0], feat)
                case None => RunResult(prev.(footprint := fp), true)
                case Some(cl) => RunResult(Fields(fp, Some(corr), Some(cl)), false)
  }

  /** The request handed to the raster pipeline for a line with end points. */
  function RequestOf(seg: LineSeg, chm: string, thresh: Value, maxWidth: real, expShkCell: int, k: Kernel): (r: Option<Request>)
    ensures r.Some? <==> seg.geoms != [] && Endpoints(seg.geoms[0]).Some?
  {
    if seg.geoms == [] || Endpoints(seg.geoms[0]).None? then None
    else
      var ends := Endpoints(seg.geoms[0]).value;
      Some(Request(chm, seg.geoms[0], maxWidth, ends.0, ends.1, NormaliseThreshold(thresh, k.parse), expShkCell))
  }

  /** A `compute` on a fresh object: without end points or raster shapes
      nothing is set; otherwise the footprint has exactly one row, the
      multipolygon of the shapes, set before the corridor step, and the
      corridor polygon and centreline are set together, exactly when the
      call does not raise. */
  lemma RunMeaning(seg: LineSeg, chm: string, thresh: Value, maxWidth: real, expShkCell: int, k: Kernel)
    ensures var s := Run(seg, chm, thresh, maxWidth, expShkCell, k, Fields(None, None, None));
      var req := RequestOf(seg, chm, thresh, maxWidth, expShkCell, k);
      && (req.None? || k.shapes(req.value).None? ==> s == RunResult(Fields(None, None, None), true))
      && (req.Some? && k.shapes(req.value).Some? ==>
            && s.fields.footprint.Some?
            && s.fields.footprint.value.geoms == [MultiPolygon(k.shapes(req.value).value)]
            && (s.fields.footprint.value.crs.Some? <==> k.crsAccepted(CrsString(seg.crs)))
            && (s.fields.footprint.value.crs.Some? ==> s.fields.footprint.value.crs.value == CrsString(seg.crs)))
      && (s.fields.centerline.Some? <==> !s.raised)
      && (s.fields.corridorPoly.Some? <==> !s.raised)
      && (!s.raised ==> req.Some? && s.fields.corridorPoly == k.corridorPolygons(req.value)
                        && s.fields.corridorPoly.value != [])
  {
  }

  /** The source and destination given to the raster pipeline are the first
      and the last vertex of the line, and the threshold is the normalised
      one. */
  lemma RequestEndpoints(seg: LineSeg, chm: string, thresh: Value, maxWidth: real, expShkCell: int, k: Kernel)
    requires seg.geoms != [] && seg.geoms[0].LineString? && seg.geoms[0].coords != []
    ensures var req := RequestOf(seg, chm, thresh, maxWidth, expShkCell, k); var cs := seg.geoms[0].coords;
      && req.Some?
      && req.value.source == cs[0] && req.value.destination == cs[|cs| - 1]
      && req.value.threshold == NormaliseThreshold(thresh, k.parse)
      && (req.value.threshold.Num? ==> req.value.threshold.r >= 0.0)
  {
  }

  class FootprintAbsolute {
    const lineSeg: LineSeg
    const inChm: string
    const corridorThresh: Value
    const maxLnWidth: real
    const expShkCell: int

    var footprint: Option<Footprint>
    var corridorPoly: Option<seq<Geometry>>
    var centerline: Option<Geometry>

    function State(): Fields
      reads this
    {
      Fields(footprint, corridorPoly, centerline)
    }

    /** `__init__`: the inputs kept, the three results not yet computed. */
    constructor (lineSeg: LineSeg, inChm: string, corridorThresh: Value, maxLnWidth: real, expShkCell: int)
      ensures this.lineSeg == lineSeg && this.inChm == inChm && this.corridorThresh == corridorThresh
      ensures this.maxLnWidth == maxLnWidth && this.expShkCell == expShkCell
      ensures State() == Fields(None, None, None)
    {
      this.lineSeg := lineSeg;
      this.inChm := inChm;
      this.corridorThresh := corridorThresh;
      this.maxLnWidth := maxLnWidth;
      this.expShkCell := expShkCell;
      footprint := None;
      corridorPoly := None;
      centerline := None;
    }

    /** `compute`: the fields as `Run` describes them; `raised` reports the
        exception that leaves the remaining fields unassigned. */
    method Compute(k: Kernel) returns (raised: bool)
      modifies this
      ensures RunResult(State(), raised) == Run(lineSeg, inChm, corridorThresh, maxLnWidth, expShkCell, k, old(State()))
    {
      var thresh := NormaliseThreshold(corridorThresh, k.parse);
      if lineSeg.geoms == [] {
        return true;
      }
      var feat := lineSeg.geoms[0];
      var segmentList := SegmentList(feat);
      if segmentList.None? || segmentList.value == [] {
        return true;
      }
      var pts := segmentList.value;
      var source, destination := pts[0], pts[|pts| - 1];
      var req := Request(inChm, feat, maxLnWidth, source, destination, thresh, expShkCell);
      var outPolygon := k.shapes(req);
      if outPolygon.None? {
        return true;
      }
      var multiPolygon: seq<seq<Pt>> := [];
      var i := 0;
      while i < |outPolygon.value|
        invariant 0 <= i <= |outPolygon.value|
        invariant multiPolygon == outPolygon.value[..i]
      {
        multiPolygon := multiPolygon + [outPolygon.value[i]];
        i := i + 1;
      }
      assert outPolygon.value[..i] == outPolygon.value;
      var poly := MultiPolygon(multiPolygon);
      var crsStr := CrsString(lineSeg.crs);
      footprint := Some(Footprint([poly], None));
      if !k.crsAccepted(crsStr) {
        return true;
      }
      footprint := Some(Footprint([poly], Some(crsStr)));
      var corridor := k.corridorPolygons(req);
      if corridor.None? || corridor.value == [] {
        return true;
      }
      var cl := k.centerline(corridor.value[0], feat);
      if cl.None? {
        return true;
      }
      corridorPoly := corridor;
      centerline := cl;
      raised := false;
    }
  }

  /** `process_single_line`: the object itself is returned, whether or not
      `compute` raised. */
  method ProcessSingleLine(lineFootprint: FootprintAbsolute, k: Kernel) returns (r: FootprintAbsolute)
    modifies lineFootprint
    ensures r == lineFootprint
    ensures r.State() == Run(r.lineSeg, r.inChm, r.corridorThresh, r.maxLnWidth, r.expShkCell, k, old(lineFootprint.State())).fields
  {
    var _ := lineFootprint.Compute(k);
    r := lineFootprint;
  }

  /** `generate_line_class_list`: one fresh object per prepared line. */
  method GenerateLineClassList(lines: seq<LineSeg>, inChm: string, corridorThresh: Value, maxLnWidth: real,
                               expShkCell: int) returns (lineClasses: seq<FootprintAbsolute>)
    ensures |lineClasses| == |lines|
    ensures forall i :: 0 <= i < |lines| ==>
      && fresh(lineClasses[i]) && lineClasses[i].lineSeg == lines[i] && lineClasses[i].inChm == inChm
      && lineClasses[i].corridorThresh == corridorThresh && lineClasses[i].maxLnWidth == maxLnWidth
      && lineClasses[i].expShkCell == expShkCell && lineClasses[i].State() == Fields(None, None, None)
  {
    lineClasses := [];
    var i := 0;
    while i < |lines|
      invariant 0 <= i <= |lines|
      invariant |lineClasses| == i
      invariant forall j :: 0 <= j < i ==>
        && fresh(lineClasses[j]) && lineClasses[j].lineSeg == lines[j] && lineClasses[j].inChm == inChm
        && lineClasses[j].corridorThresh == corridorThresh && lineClasses[j].maxLnWidth == maxLnWidth
        && lineClasses[j].expShkCell == expShkCell && lineClasses[j].State() == Fields(None, None, None)
    {
      var c := new FootprintAbsolute(lines[i], inChm, corridorThresh, maxLnWidth, expShkCell);
      lineClasses := lineClasses + [c];
      i := i + 1;
    }
  }

  // the collection loop of canopy_footprint_abs

  /** The present values, in order. */
  function Kept<T>(xs: seq<Option<T>>): seq<T> {
    if xs == [] then [] else (if xs[0].Some? then [xs[0].value] else []) + Kept(xs[1..])
  }

  lemma {:induction false} KeptAppend<T>(a: seq<Option<T>>, b: seq<Option<T>>)
    ensures Kept(a + b) == Kept(a) + Kept(b)
  {
    if a != [] {
      assert (a + b)[0] == a[0];
      assert (a + b)[1..] == a[1..] + b;
      KeptAppend(a[1..], b);
      var h := if a[0].Some? then [a[0].value] else [];
      assert h + (Kept(a[1..]) + Kept(b)) == (h + Kept(a[1..])) + Kept(b);
    } else {
      assert a + b == b;
    }
  }

  /** The kept values are exactly the present ones, in order: each comes
      from a later position than the one before, and there are as many as
      present positions. */
  lemma {:induction false} KeptMeaning<T>(xs: seq<Option<T>>)
    ensures forall x :: x in Kept(xs) <==> Some(x) in xs
    ensures Kept(xs) == [] <==> forall i :: 0 <= i < |xs| ==> xs[i].None?
    ensures |Kept(xs)| <= |xs|
  {
    if xs != [] {
      KeptMeaning(xs[1..]);
      assert xs == [xs[0]] + xs[1..];
      forall x
        ensures x in Kept(xs) <==> Some(x) in xs
      {
        if Some(x) in xs[1..] {
          assert Some(x) in xs;
        }
      }
      if Kept(xs) == [] {
        forall i | 0 <= i < |xs|
          ensures xs[i].None?
        {
          if i > 0 {
            assert xs[1..][i - 1] == xs[i];
          }
        }
      }
    }
  }

  function FootprintsOf(fs: seq<FootprintAbsolute>): (r: seq<Option<Footprint>>)
    reads set f | f in fs
    ensures |r| == |fs| && forall i :: 0 <= i < |fs| ==> r[i] == fs[i].footprint
  {
    if fs == [] then [] else [fs[0].footprint] + FootprintsOf(fs[1..])
  }

  function CorridorsOf(fs: seq<FootprintAbsolute>): (r: seq<Option<seq<Geometry>>>)
    reads set f | f in fs
    ensures |r| == |fs| && forall i :: 0 <= i < |fs| ==> r[i] == fs[i].corridorPoly
  {
    if fs == [] then [] else [fs[0].corridorPoly] + CorridorsOf(fs[1..])
  }

  /** The loop over `feat_list` (nothing when it is `None` or empty): the
      footprints and the corridor polygons that were set, in result order. */
  method CollectResults(featList: Option<seq<FootprintAbsolute>>)
    returns (footprintList: seq<Footprint>, polyList: seq<seq<Geometry>>)
    ensures featList.None? ==> footprintList == [] && polyList == []
    ensures featList.Some? ==> footprintList == Kept(FootprintsOf(featList.value))
    ensures featList.Some? ==> polyList == Kept(CorridorsOf(featList.value))
  {
    footprintList := [];
    polyList := [];
    if featList.None? {
      return;
    }
    var fs := featList.value;
    ghost var fps := FootprintsOf(fs);
    ghost var cps := CorridorsOf(fs);
    var i := 0;
    while i < |fs|
      invariant 0 <= i <= |fs|
      invariant footprintList == Kept(fps[..i])
      invariant polyList == Kept(cps[..i])
    {
      PrefixStep(fps, i);
      PrefixStep(cps, i);
      KeptAppend(fps[..i], [fps[i]]);
      KeptAppend(cps[..i], [cps[i]]);
      assert fps[i] == fs[i].footprint && cps[i] == fs[i].corridorPoly;
      if fs[i].footprint.Some? {
        footprintList := footprintList + [fs[i].footprint.value];
      }
      if fs[i].corridorPoly.Some? {
        polyList := polyList + [fs[i].corridorPoly.value];
      }
      i := i + 1;
    }
    assert fps[..i] == fps && cps[..i] == cps;
  }

  /** The rows of the concatenated footprint tables, in order. */
  function Rows(fps: seq<Footprint>): seq<Geometry> {
    if fps == [] then [] else fps[0].geoms + Rows(fps[1..])
  }

  /** What is written: nothing when there is no footprint, otherwise the
      rows of all footprints, in order. */
  function Written(footprintList: seq<Footprint>): (r: Option<seq<Geometry>>)
    ensures r.None? <==> footprintList == []
    ensures r.Some? ==> r.value == Rows(footprintList)
  {
    if footprintList == [] then None else Some(Rows(footprintList))
  }

  /** When every footprint has one row, one row is written per footprint,
      and row `i` is the multipolygon of footprint `i`. */
  lemma {:induction false} WrittenOneRowEach(footprintList: seq<Footprint>)
    requires forall i :: 0 <= i < |footprintList| ==> |footprintList[i].geoms| == 1
    ensures |Rows(footprintList)| == |footprintList|
    ensures forall i :: 0 <= i < |footprintList| ==> Rows(footprintList)[i] == footprintList[i].geoms[0]
  {
    if footprintList != [] {
      forall i | 0 <= i < |footprintList[1..]|
        ensures |footprintList[1..][i].geoms| == 1
      {
        assert footprintList[1..][i] == footprintList[i + 1];
      }
      WrittenOneRowEach(footprintList[1..]);
      forall i | 0 <= i < |footprintList|
        ensures Rows(footprintList)[i] == footprintList[i].geoms[0]
      {
        if i > 0 {
          assert footprintList[1..][i - 1] == footprintList[i];
        }
      }
    }
  }
}
