/** The quality-control steps of beratools/tools/check_seed_line.py before
    line grouping: `qc_merge_multilinestring`, which turns every row into
    LineString records (merging multi-part lines where possible), and the
    fallback of `qc_split_lines_at_intersections`. The older variant of the
    merge step in beratools/tools/common.py is modelled beside it. The line
    merger (`custom_line_merge`) and the splitter are parameters. */
module SeedLineQc {
  import opened Wrappers
  import opened Geo
  import opened Seqs

  /** A row of the line table: its other attributes and its geometry. */
  datatype Record = Record(attrs: seq<Value>, geom: Option<Geometry>)

  /** The records one row contributes, given the merger. */
  function RowRecords(row: Record, merge: Geometry -> Geometry): (r: seq<Record>)
    ensures AllLines(r)
    ensures forall i :: 0 <= i < |r| ==> r[i].attrs == row.attrs
    ensures row.geom.None? ==> r == []
  {
    match row.geom
    case None => []
    case Some(g) =>
      if g.MultiLineString? then
        var merged := merge(g);
        if merged.MultiLineString? then PartRecords(row.attrs, merged.lines)
        else if merged.LineString? then [Record(row.attrs, Some(merged))]
        else []
      else if g.LineString? then [row]
      else []
  }

  /** One copy of the attributes per part of an unmerged MultiLineString. */
  function PartRecords(attrs: seq<Value>, parts: seq<seq<Pt>>): (r: seq<Record>)
    ensures |r| == |parts|
    ensures forall i :: 0 <= i < |r| ==> r[i] == Record(attrs, Some(LineString(parts[i])))
  {
    if parts == [] then [] else [Record(attrs, Some(LineString(parts[0])))] + PartRecords(attrs, parts[1..])
  }

  /** The records of all rows, row by row. */
  function QcMerge(rows: seq<Record>, merge: Geometry -> Geometry): seq<Record> {
    if rows == [] then [] else RowRecords(rows[0], merge) + QcMerge(rows[1..], merge)
  }

  predicate IsLineRecord(r: Record) {
    r.geom.Some? && r.geom.value.LineString?
  }

  predicate AllLines(rs: seq<Record>) {
    forall i :: 0 <= i < |rs| ==> IsLineRecord(rs[i])
  }

  lemma {:induction false} QcMergeAppend(a: seq<Record>, b: seq<Record>, merge: Geometry -> Geometry)
    ensures QcMerge(a + b, merge) == QcMerge(a, merge) + QcMerge(b, merge)
  {
    if a != [] {
      assert (a + b)[0] == a[0];
      assert (a + b)[1..] == a[1..] + b;
      QcMergeAppend(a[1..], b, merge);
      AppendAssoc(RowRecords(a[0], merge), QcMerge(a[1..], merge), QcMerge(b, merge));
    } else {
      assert a + b == b;
    }
  }

  /** The cases of one row: a row without geometry and a row of another
      geometry type contribute nothing, a LineString row passes unchanged,
      a MultiLineString that merges into a LineString gives one record with
      the merged geometry and the same attributes, and one that stays multi
      gives one record per part. Every record is a LineString record. */
  lemma RowRecordsCases(row: Record, merge: Geometry -> Geometry)
    ensures AllLines(RowRecords(row, merge))
    ensures row.geom.None? ==> RowRecords(row, merge) == []
    ensures row.geom.Some? && row.geom.value.LineString? ==> RowRecords(row, merge) == [row]
    ensures row.geom.Some? && !row.geom.value.LineString? && !row.geom.value.MultiLineString? ==> RowRecords(row, merge) == []
    ensures forall k :: 0 <= k < |RowRecords(row, merge)| ==> RowRecords(row, merge)[k].attrs == row.attrs
    ensures row.geom.Some? && row.geom.value.MultiLineString? && merge(row.geom.value).LineString? ==>
      RowRecords(row, merge) == [Record(row.attrs, Some(merge(row.geom.value)))]
    ensures row.geom.Some? && row.geom.value.MultiLineString? && merge(row.geom.value).MultiLineString? ==>
      |RowRecords(row, merge)| == |merge(row.geom.value).lines|
  {
  }

  /** The output holds only LineString records, so the final filter on the
      geometry type keeps them all. */
  lemma {:induction false} QcMergeOnlyLines(rows: seq<Record>, merge: Geometry -> Geometry)
    ensures AllLines(QcMerge(rows, merge))
  {
    if rows != [] {
      RowRecordsCases(rows[0], merge);
      QcMergeOnlyLines(rows[1..], merge);
    }
  }

  /** Every output record carries the attributes of some input row. */
  lemma {:induction false} QcMergeAttributes(rows: seq<Record>, merge: Geometry -> Geometry)
    ensures forall k :: 0 <= k < |QcMerge(rows, merge)| ==>
      exists j :: 0 <= j < |rows| && QcMerge(rows, merge)[k].attrs == rows[j].attrs
  {
    if rows != [] {
      RowRecordsCases(rows[0], merge);
      QcMergeAttributes(rows[1..], merge);
      var h: seq<Record>, t: seq<Record> := RowRecords(rows[0], merge), QcMerge(rows[1..], merge);
      var out := QcMerge(rows, merge);
      assert out == h + t;
      forall k | 0 <= k < |out|
        ensures exists j :: 0 <= j < |rows| && out[k].attrs == rows[j].attrs
      {
        if k < |h| {
          assert out[k] == h[k];
          assert out[k].attrs == rows[0].attrs;
        } else {
          assert out[k] == t[k - |h|];
          var j :| 0 <= j < |rows[1..]| && t[k - |h|].attrs == rows[1..][j].attrs;
          assert out[k].attrs == rows[j + 1].attrs;
        }
      }
    } else {
      assert QcMerge(rows, merge) == [];
    }
  }

  /** A table of LineString records passes the step unchanged — applying it
      twice is applying it once. */
  lemma {:induction false} QcMergeKeepsLines(rows: seq<Record>, merge: Geometry -> Geometry)
    requires AllLines(rows)
    ensures QcMerge(rows, merge) == rows
  {
    if rows != [] {
      assert IsLineRecord(rows[0]);
      QcMergeKeepsLines(rows[1..], merge);
    }
  }

  lemma QcMergeIdempotent(rows: seq<Record>, merge: Geometry -> Geometry)
    ensures QcMerge(QcMerge(rows, merge), merge) == QcMerge(rows, merge)
  {
    QcMergeOnlyLines(rows, merge);
    QcMergeKeepsLines(QcMerge(rows, merge), merge);
  }

  /** `qc_merge_multilinestring` of check_seed_line.py: the row loop
      appending records. */
  method QcMergeMultilinestring(rows: seq<Record>, merge: Geometry -> Geometry) returns (records: seq<Record>)
    ensures records == QcMerge(rows, merge)
  {
    records := [];
    var i := 0;
    while i < |rows|
      invariant 0 <= i <= |rows|
      invariant records == QcMerge(rows[..i], merge)
    {
      QcMergeAppend(rows[..i], [rows[i]], merge);
      assert rows[..i + 1] == rows[..i] + [rows[i]];
      assert QcMerge([rows[i]], merge) == RowRecords(rows[i], merge) + QcMerge([], merge);
      records := AppendRow(records, rows[i], merge);
      i := i + 1;
    }
    assert rows[..i] == rows;
  }

  /** The body of the row loop: the records of one row appended. */
  method AppendRow(records: seq<Record>, row: Record, merge: Geometry -> Geometry) returns (r: seq<Record>)
    ensures r == records + RowRecords(row, merge)
  {
    r := records;
    match row.geom {
      case None =>
      case Some(g) =>
        if g.MultiLineString? {
          var merged := merge(g);
          if merged.MultiLineString? {
            r := AppendParts(r, row.attrs, merged.lines);
          } else if merged.LineString? {
            r := r + [Record(row.attrs, Some(merged))];
          }
        } else if g.LineString? {
          r := r + [row];
        }
    }
  }

  /** The loop over the parts of an unmerged MultiLineString. */
  method AppendParts(records: seq<Record>, attrs: seq<Value>, parts: seq<seq<Pt>>) returns (r: seq<Record>)
    ensures r == records + PartRecords(attrs, parts)
  {
    r := records;
    var j := 0;
    while j < |parts|
      invariant 0 <= j <= |parts|
      invariant r == records + PartRecords(attrs, parts[..j])
    {
      PartRecordsAppend(attrs, parts[..j], parts[j]);
      assert parts[..j] + [parts[j]] == parts[..j + 1];
      r := r + [Record(attrs, Some(LineString(parts[j])))];
      j := j + 1;
    }
    assert parts[..j] == parts;
  }

  lemma {:induction false} PartRecordsAppend(attrs: seq<Value>, parts: seq<seq<Pt>>, part: seq<Pt>)
    ensures PartRecords(attrs, parts + [part]) == PartRecords(attrs, parts) + [Record(attrs, Some(LineString(part)))]
  {
    if parts != [] {
      assert (parts + [part])[1..] == parts[1..] + [part];
      PartRecordsAppend(attrs, parts[1..], part);
    }
  }

  /** The variant in beratools/tools/common.py: no check for a missing
      geometry (reading its type raises, `None`), every part of an unmerged
      line and every row of another type is kept, and the LineString filter
      is applied to the assembled table. */
  function QcMergeCommon(rows: seq<Record>, merge: Geometry -> Geometry): (r: Option<seq<Record>>)
    ensures r.Some? ==> AllLines(r.value)
  {
    if exists i :: 0 <= i < |rows| && rows[i].geom.None? then None
    else Some(OnlyLines(Unfiltered(rows, merge)))
  }

  function Unfiltered(rows: seq<Record>, merge: Geometry -> Geometry): seq<Record> {
    if rows == [] then []
    else
      var row := rows[0];
      var here :=
        if row.geom.Some? && row.geom.value.MultiLineString? then
          var merged := merge(row.geom.value);
          if merged.MultiLineString? then PartRecords(row.attrs, merged.lines)
          else [Record(row.attrs, Some(merged))]
        else [row];
      here + Unfiltered(rows[1..], merge)
  }

  /** `out_gdf[out_gdf.geometry.type == "LineString"]`. */
  function OnlyLines(rs: seq<Record>): (r: seq<Record>)
    ensures AllLines(r)
  {
    if rs == [] then []
    else (if IsLineRecord(rs[0]) then [rs[0]] else []) + OnlyLines(rs[1..])
  }

  lemma {:induction false} OnlyLinesAppend(a: seq<Record>, b: seq<Record>)
    ensures OnlyLines(a + b) == OnlyLines(a) + OnlyLines(b)
  {
    if a != [] {
      assert (a + b)[0] == a[0];
      assert (a + b)[1..] == a[1..] + b;
      OnlyLinesAppend(a[1..], b);
      var h := if IsLineRecord(a[0]) then [a[0]] else [];
      assert h + (OnlyLines(a[1..]) + OnlyLines(b)) == (h + OnlyLines(a[1..])) + OnlyLines(b);
    } else {
      assert a + b == b;
    }
  }

  lemma {:induction false} OnlyLinesOfLines(rs: seq<Record>)
    requires AllLines(rs)
    ensures OnlyLines(rs) == rs
  {
    if rs != [] {
      OnlyLinesOfLines(rs[1..]);
    }
  }

  /** On tables without missing geometries the two variants give the same
      records. */
  lemma {:induction false} QcMergeVariantsAgree(rows: seq<Record>, merge: Geometry -> Geometry)
    requires forall i :: 0 <= i < |rows| ==> rows[i].geom.Some?
    ensures QcMergeCommon(rows, merge) == Some(QcMerge(rows, merge))
  {
    if rows != [] {
      QcMergeVariantsAgree(rows[1..], merge);
      var row := rows[0];
      var here :=
        if row.geom.value.MultiLineString? then
          var merged := merge(row.geom.value);
          if merged.MultiLineString? then PartRecords(row.attrs, merged.lines)
          else [Record(row.attrs, Some(merged))]
        else [row];
      assert Unfiltered(rows, merge) == here + Unfiltered(rows[1..], merge);
      OnlyLinesAppend(here, Unfiltered(rows[1..], merge));
      RowRecordsCases(row, merge);
      if row.geom.value.MultiLineString? && merge(row.geom.value).MultiLineString? {
        OnlyLinesOfLines(here);
      }
      assert OnlyLines(here) == RowRecords(row, merge);
    }
  }

  /** `qc_split_lines_at_intersections`: the splitter's table when it made
      one, otherwise the input table (re-indexed, which the model does not
      distinguish). */
  function QcSplit(rows: seq<Record>, splitTable: Option<seq<Record>>): (r: seq<Record>)
    ensures splitTable.None? ==> r == rows
    ensures splitTable.Some? ==> r == splitTable.value
  {
    splitTable.GetOr(rows)
  }
}
