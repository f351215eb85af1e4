/** Values, geometries and the small string operations the tools use on them.
    Geometries are the closed tagged variant of the shapely types the tools
    branch on; coordinates are kept but no geometric predicate is computed. */
module Geo {

  /** A cell of a data frame or a JSON value of the tool arguments. */
  datatype Value = Null | Bool(b: bool) | Int(i: int) | Num(r: real) | Str(s: string)

  datatype Pt = Pt(x: real, y: real)

  datatype Geometry =
    | Point(p: Pt)
    | LineString(coords: seq<Pt>)
    | Polygon(shell: seq<Pt>)
    | MultiPoint(points: seq<Pt>)
    | MultiLineString(lines: seq<seq<Pt>>)
    | MultiPolygon(polygons: seq<seq<Pt>>)
    | GeometryCollection(geoms: seq<Geometry>)

  /** shapely's `geom_type` name of a geometry. */
  function GeomType(g: Geometry): string {
    match g
    case Point(_) => "Point"
    case LineString(_) => "LineString"
    case Polygon(_) => "Polygon"
    case MultiPoint(_) => "MultiPoint"
    case MultiLineString(_) => "MultiLineString"
    case MultiPolygon(_) => "MultiPolygon"
    case GeometryCollection(_) => "GeometryCollection"
  }

  /** shapely's `is_empty`: a geometry with no coordinates (a point always has one here). */
  predicate IsEmpty(g: Geometry) {
    match g
    case Point(_) => false
    case LineString(cs) => cs == []
    case Polygon(sh) => sh == []
    case MultiPoint(ps) => ps == []
    case MultiLineString(ls) => ls == []
    case MultiPolygon(ps) => ps == []
    case GeometryCollection(gs) => gs == []
  }

  predicate IsPolygonal(g: Geometry) {
    g.Polygon? || g.MultiPolygon?
  }

  // ASCII case mapping. Python's str.upper/str.lower map a few non-ASCII
  // letters onto ASCII ones; those are not modelled.

  function UpperChar(c: char): char {
    if 'a' <= c <= 'z' then (c as int - 32) as char else c
  }

  function LowerChar(c: char): char {
    if 'A' <= c <= 'Z' then (c as int + 32) as char else c
  }

  function Upper(s: string): (r: string)
    ensures |r| == |s|
    ensures forall i :: 0 <= i < |s| ==> r[i] == UpperChar(s[i])
  {
    if s == [] then [] else [UpperChar(s[0])] + Upper(s[1..])
  }

  function Lower(s: string): (r: string)
    ensures |r| == |s|
    ensures forall i :: 0 <= i < |s| ==> r[i] == LowerChar(s[i])
  {
    if s == [] then [] else [LowerChar(s[0])] + Lower(s[1..])
  }

  predicate StartsWith(s: string, prefix: string) {
    |prefix| <= |s| && s[..|prefix|] == prefix
  }

  predicate OccursAt(s: string, sub: string, k: nat) {
    k + |sub| <= |s| && s[k..k + |sub|] == sub
  }

  /** Python's `sub in s`. */
  predicate Contains(s: string, sub: string) {
    exists k: nat | k <= |s| :: OccursAt(s, sub, k)
  }

  /** The characters Python's `str.strip()` removes: those for which
      `str.isspace` holds. */
  predicate IsSpace(c: char) {
    || '\t' <= c <= '\r'
    || '\U{1C}' <= c <= ' '
    || c == '\U{85}' || c == '\U{A0}' || c == '\U{1680}'
    || '\U{2000}' <= c <= '\U{200A}'
    || c == '\U{2028}' || c == '\U{2029}' || c == '\U{202F}' || c == '\U{205F}' || c == '\U{3000}'
  }
}
