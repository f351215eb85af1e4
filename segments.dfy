/** Segment numbering (`split_into_equal_Nth_segments` and `chk_df_multipart`
    in beratools/tools/common.py): a table is exploded into one row per part,
    each row gets `OLnSEG`, its running count within its `OLnFID` group, and
    the rows are ordered by (`OLnFID`, `OLnSEG`). A row keeps the index of the
    input row it came from (`src`), standing for that row's other attributes. */
module Segments {
  import opened Wrappers
  import opened Geo
  import opened Seqs
  import CutLine

  /** A row after `explode`: source row, `OLnFID`, and its part. */
  datatype Exploded<G> = Exploded(src: nat, fid: int, geom: G)

  /** A row after numbering: `OLnSEG` added. */
  datatype Numbered<G> = Numbered(src: nat, fid: int, seg: nat, geom: G)

  /** How many rows of `rows` have `OLnFID` equal to `f`. */
  function FidCount<G>(rows: seq<Exploded<G>>, f: int): nat
  {
    if rows == [] then 0
    else FidCount(rows[..|rows| - 1], f) + (if rows[|rows| - 1].fid == f then 1 else 0)
  }

  /** `groupby("OLnFID").cumcount()`: each row is numbered by how many rows
      before it share its `OLnFID`. */
  function Number<G>(rows: seq<Exploded<G>>): (r: seq<Numbered<G>>)
    ensures |r| == |rows|
    ensures forall j :: 0 <= j < |r| ==>
      r[j].src == rows[j].src && r[j].fid == rows[j].fid && r[j].geom == rows[j].geom
  {
    seq(|rows|, j requires 0 <= j < |rows| =>
      Numbered(rows[j].src, rows[j].fid, FidCount(rows[..j], rows[j].fid), rows[j].geom))
  }

  lemma FidCountPrefix<G>(rows: seq<Exploded<G>>, i: nat, j: nat, f: int)
    requires i <= j <= |rows|
    ensures FidCount(rows[..i], f) <= FidCount(rows[..j], f)
    ensures i < j && rows[i].fid == f ==> FidCount(rows[..i], f) < FidCount(rows[..j], f)
    decreases j - i
  {
    if i < j {
      FidCountPrefix(rows, i, j - 1, f);
      assert rows[..j][..j - 1] == rows[..j - 1];
      if i == j - 1 {
        assert rows[..j][..j - 1] == rows[..i];
      }
    }
  }

  /** Every number `k` below the size of an `OLnFID` group is given to some
      row of that group. */
  lemma {:induction false} NumberReaches<G>(rows: seq<Exploded<G>>, f: int, k: nat)
    requires k < FidCount(rows, f)
    ensures exists j :: 0 <= j < |rows| && rows[j].fid == f && FidCount(rows[..j], f) == k
  {
    var n := |rows|;
    assert rows[..n] == rows;
    if k < FidCount(rows[..n - 1], f) {
      NumberReaches(rows[..n - 1], f, k);
      var j :| 0 <= j < n - 1 && rows[..n - 1][j].fid == f && FidCount(rows[..n - 1][..j], f) == k;
      assert rows[..n - 1][..j] == rows[..j];
    }
  }

  /** Some row has `OLnFID` f and `OLnSEG` k. */
  predicate HasKey<G>(r: seq<Numbered<G>>, f: int, k: int) {
    exists j :: 0 <= j < |r| && r[j].fid == f && r[j].seg == k
  }

  /** (`OLnFID`, `OLnSEG`) identifies a row: within one `OLnFID` the numbers
      increase in row order and are exactly 0, 1, ..., k - 1, k being the
      group's size. */
  lemma NumberKeys<G>(rows: seq<Exploded<G>>)
    ensures var r := Number(rows);
      && (forall i, j :: 0 <= i < j < |r| && r[i].fid == r[j].fid ==> r[i].seg < r[j].seg)
      && (forall f, k :: HasKey(r, f, k) <==> 0 <= k < FidCount(rows, f))
  {
    var r := Number(rows);
    forall i, j | 0 <= i < j < |r| && r[i].fid == r[j].fid
      ensures r[i].seg < r[j].seg
    {
      FidCountPrefix(rows, i, j, rows[i].fid);
    }
    forall f, k
      ensures HasKey(r, f, k) <==> 0 <= k < FidCount(rows, f)
    {
      if HasKey(r, f, k) {
        var j :| 0 <= j < |r| && r[j].fid == f && r[j].seg == k;
        FidCountPrefix(rows, j, |rows|, f);
        assert rows[..|rows|] == rows;
      }
      if 0 <= k < FidCount(rows, f) {
        NumberReaches(rows, f, k);
        var j :| 0 <= j < |rows| && rows[j].fid == f && FidCount(rows[..j], f) == k;
        assert r[j].fid == f && r[j].seg == k;
      }
    }
  }

  // Ordering by (OLnFID, OLnSEG): `sort_values` as an insertion sort.

  predicate KeyLe<G>(a: Numbered<G>, b: Numbered<G>) {
    a.fid < b.fid || (a.fid == b.fid && a.seg <= b.seg)
  }

  predicate KeyLt<G>(a: Numbered<G>, b: Numbered<G>) {
    a.fid < b.fid || (a.fid == b.fid && a.seg < b.seg)
  }

  predicate Sorted<G>(s: seq<Numbered<G>>) {
    forall i, j :: 0 <= i < j < |s| ==> KeyLe(s[i], s[j])
  }

  function Insert<G>(x: Numbered<G>, s: seq<Numbered<G>>): (r: seq<Numbered<G>>)
    requires Sorted(s)
    ensures Sorted(r) && multiset(r) == multiset(s) + multiset{x}
    ensures |r| == |s| + 1
  {
    if s == [] then [x]
    else if KeyLe(x, s[0]) then [x] + s
    else
      var t := Insert(x, s[1..]);
      InsertStep(s, x, t);
      [s[0]] + t
  }

  /** Putting back the head of `s` in front of `x` inserted into its tail. */
  lemma InsertStep<G>(s: seq<Numbered<G>>, x: Numbered<G>, t: seq<Numbered<G>>)
    requires Sorted(s) && s != [] && !KeyLe(x, s[0])
    requires Sorted(t) && multiset(t) == multiset(s[1..]) + multiset{x}
    ensures Sorted([s[0]] + t) && multiset([s[0]] + t) == multiset(s) + multiset{x}
  {
    assert s == [s[0]] + s[1..];
    forall k | 0 <= k < |t| ensures KeyLe(s[0], t[k]) {
      assert t[k] in multiset(s[1..]) + multiset{x};
    }
    SortedCons(s[0], t);
  }

  lemma SortedCons<G>(h: Numbered<G>, t: seq<Numbered<G>>)
    requires Sorted(t) && forall k :: 0 <= k < |t| ==> KeyLe(h, t[k])
    ensures Sorted([h] + t)
  {
  }

  /** `sort_values(by=["OLnFID", "OLnSEG"])`: the rows reordered by key. */
  function SortByKey<G>(s: seq<Numbered<G>>): (r: seq<Numbered<G>>)
    ensures Sorted(r) && multiset(r) == multiset(s)
    ensures |r| == |s|
  {
    if s == [] then []
    else
      assert s == [s[0]] + s[1..];
      Insert(s[0], SortByKey(s[1..]))
  }

  predicate DistinctKeys<G>(s: seq<Numbered<G>>) {
    forall i, j :: 0 <= i < j < |s| ==> s[i].fid != s[j].fid || s[i].seg != s[j].seg
  }

  lemma {:induction false} DistinctOnce<G>(s: seq<Numbered<G>>, x: Numbered<G>)
    requires DistinctKeys(s)
    ensures multiset(s)[x] <= 1
  {
    if s != [] {
      var n := |s|;
      assert s == s[..n - 1] + [s[n - 1]];
      DistinctOnce(s[..n - 1], x);
      if s[n - 1] == x {
        assert x !in s[..n - 1];
      }
    }
  }

  lemma TwiceCounted<G>(s: seq<Numbered<G>>, i: nat, j: nat)
    requires i < j < |s| && s[i] == s[j]
    ensures multiset(s)[s[i]] >= 2
  {
    assert s == s[..j] + [s[j]] + s[j + 1..];
    assert s[i] in s[..j];
  }

  /** Reordering keeps keys distinct. */
  lemma PermutationKeepsDistinct<G>(a: seq<Numbered<G>>, b: seq<Numbered<G>>)
    requires DistinctKeys(a) && multiset(a) == multiset(b)
    ensures DistinctKeys(b)
  {
    forall i, j | 0 <= i < j < |b|
      ensures b[i].fid != b[j].fid || b[i].seg != b[j].seg
    {
      if b[i] == b[j] {
        TwiceCounted(b, i, j);
        DistinctOnce(a, b[i]);
      } else {
        assert b[i] in multiset(a) && b[j] in multiset(a);
      }
    }
  }

  /** The numbered rows in key order: strictly increasing keys, the same rows. */
  function NumberAndSort<G>(rows: seq<Exploded<G>>): (r: seq<Numbered<G>>)
    ensures multiset(r) == multiset(Number(rows)) && |r| == |rows|
    ensures forall i, j :: 0 <= i < j < |r| ==> KeyLt(r[i], r[j])
  {
    var nums := Number(rows);
    NumberKeys(rows);
    var r := SortByKey(nums);
    PermutationKeepsDistinct(nums, r);
    r
  }

  lemma HasKeyPermutation<G>(a: seq<Numbered<G>>, b: seq<Numbered<G>>, f: int, k: int)
    requires multiset(a) == multiset(b) && HasKey(a, f, k)
    ensures HasKey(b, f, k)
  {
    var i :| 0 <= i < |a| && a[i].fid == f && a[i].seg == k;
    assert a[i] in multiset(b);
    var j :| 0 <= j < |b| && b[j] == a[i];
  }

  /** After numbering and ordering, the `OLnSEG` values of each `OLnFID` are
      exactly 0 .. k - 1, k being how many exploded rows have that `OLnFID`. */
  lemma NumberAndSortKeys<G>(rows: seq<Exploded<G>>)
    ensures forall f, k :: HasKey(NumberAndSort(rows), f, k) <==> 0 <= k < FidCount(rows, f)
  {
    var nums := Number(rows);
    var r := NumberAndSort(rows);
    NumberKeys(rows);
    forall f, k
      ensures HasKey(r, f, k) <==> HasKey(nums, f, k)
    {
      if HasKey(r, f, k) { HasKeyPermutation(r, nums, f, k); }
      if HasKey(nums, f, k) { HasKeyPermutation(nums, r, f, k); }
    }
  }

  // split_into_equal_Nth_segments

  /** An input line row: its `OLnFID` and its line, given as the cut loop
      sees it (after `segmentize`). */
  datatype Feature = Feature(fid: int, line: seq<real>)

  /** Every input line is a polyline in the sense of `CutLine`. */
  predicate ProperLines(features: seq<Feature>) {
    forall i :: 0 <= i < |features| ==> CutLine.Increasing(features[i].line)
  }

  /** The column `odf.apply(lambda x: cut_line_by_length(x.geometry,
      seg_length))`: each row's line cut with the default merge threshold. */
  function Cuts(features: seq<Feature>, segLength: real): (cuts: seq<seq<seq<real>>>)
    requires ProperLines(features) && segLength >= CutLine.EPS
    ensures |cuts| == |features|
    ensures forall i :: 0 <= i < |features| ==>
      cuts[i] == CutLine.CutByLength(features[i].line, segLength, CutLine.DefaultMergeThreshold)
  {
    seq(|features|, i requires 0 <= i < |features| =>
      CutLine.CutByLength(features[i].line, segLength, CutLine.DefaultMergeThreshold))
  }

  /** `explode` of the column of cut results: one row per piece, in row then
      piece order; a row whose cut gave no piece explodes to one row whose
      geometry is missing (pandas turns an empty list into a NaN cell). */
  function ExplodeCuts(features: seq<Feature>, cuts: seq<seq<seq<real>>>): (r: seq<Exploded<Option<seq<real>>>>)
    requires |cuts| == |features|
    decreases |features|
  {
    if features == [] then []
    else
      var n := |features| - 1;
      ExplodeCuts(features[..n], cuts[..n]) + RowPieces(n, features[n].fid, cuts[n])
  }

  /** The exploded rows of input row `src`: one per piece of its cut, or one
      with a missing geometry for an empty cut. */
  function RowPieces(src: nat, fid: int, cut: seq<seq<real>>): (h: seq<Exploded<Option<seq<real>>>>)
    ensures |h| == if cut == [] then 1 else |cut|
    ensures forall m :: 0 <= m < |h| ==>
      h[m].src == src && h[m].fid == fid
      && (cut == [] ==> h[m].geom.None?) && (cut != [] ==> h[m].geom == Some(cut[m]))
  {
    if cut == [] then [Exploded(src, fid, None)]
    else seq(|cut|, k requires 0 <= k < |cut| => Exploded(src, fid, Some(cut[k])))
  }

  /** Every exploded row comes from an input row and carries its `OLnFID`; its
      geometry is a piece of that row's cut, or missing when the cut was empty. */
  lemma {:induction false} ExplodeCutsRows(features: seq<Feature>, cuts: seq<seq<seq<real>>>)
    requires |cuts| == |features|
    ensures forall r | r in ExplodeCuts(features, cuts) ::
      && r.src < |features| && r.fid == features[r.src].fid
      && (r.geom.None? <==> cuts[r.src] == [])
      && (r.geom.Some? ==> r.geom.value in cuts[r.src])
  {
    if features != [] {
      var n := |features| - 1;
      ExplodeCutsRows(features[..n], cuts[..n]);
    }
  }

  /** The number of exploded rows: one per piece, and one for an empty cut. */
  lemma {:induction false} ExplodeCutsSize(features: seq<Feature>, cuts: seq<seq<seq<real>>>)
    requires |cuts| == |features|
    ensures |ExplodeCuts(features, cuts)| ==
      SumSizes(cuts)
  {
    if features != [] {
      var n := |features| - 1;
      ExplodeCutsSize(features[..n], cuts[..n]);
      assert cuts[..n] == cuts[..|cuts| - 1];
    }
  }

  function SumSizes(cuts: seq<seq<seq<real>>>): nat {
    if cuts == [] then 0
    else SumSizes(cuts[..|cuts| - 1]) + (if Last(cuts) == [] then 1 else |Last(cuts)|)
  }

  /** The column that receives the piece lengths: `shape_leng` when the table
      has it, else `LENGTH` when it has that, else a new `shape_leng`. */
  function LengthColumn(columns: set<string>): (c: string)
    ensures c == "LENGTH" <==> "LENGTH" in columns && "shape_leng" !in columns
    ensures c == "LENGTH" || c == "shape_leng"
  {
    if "shape_leng" in columns then "shape_leng"
    else if "LENGTH" in columns then "LENGTH"
    else "shape_leng"
  }

  /** The table `split_into_equal_Nth_segments` returns. */
  datatype SegmentTable = SegmentTable(
    rows: seq<Numbered<Option<seq<real>>>>,
    lengthColumn: string,
    lengths: seq<Option<real>>)

  /** `geometry.length` of a row; a missing geometry gives a missing length. */
  function PieceLength(g: Option<seq<real>>): Option<real> {
    match g
    case None => None
    case Some(p) => Some(CutLine.Len(p))
  }

  /** `split_into_equal_Nth_segments(df, seg_length)`: every line cut, the
      cut column exploded, numbered and sorted, and the piece lengths
      written to the length column. */
  function SplitIntoSegments(features: seq<Feature>, segLength: real, columns: set<string>): (t: SegmentTable)
    requires ProperLines(features) && segLength >= CutLine.EPS
    ensures |t.lengths| == |t.rows|
    ensures forall i :: 0 <= i < |t.rows| ==> t.lengths[i] == PieceLength(t.rows[i].geom)
  {
    var rows := NumberAndSort(ExplodeCuts(features, Cuts(features, segLength)));
    SegmentTable(rows, LengthColumn(columns), seq(|rows|, i requires 0 <= i < |rows| => PieceLength(rows[i].geom)))
  }

  /** The rows of the segment table are the exploded pieces, numbered within
      each `OLnFID` 0 .. k - 1 and strictly ordered by (`OLnFID`, `OLnSEG`). */
  lemma SplitIntoSegmentsOrdered(features: seq<Feature>, segLength: real, columns: set<string>)
    requires ProperLines(features) && segLength >= CutLine.EPS
    ensures var t := SplitIntoSegments(features, segLength, columns);
      var cuts := Cuts(features, segLength);
      var ex := ExplodeCuts(features, cuts);
      && multiset(t.rows) == multiset(Number(ex))
      && |t.rows| == SumSizes(cuts)
      && (forall i, j :: 0 <= i < j < |t.rows| ==> KeyLt(t.rows[i], t.rows[j]))
      && (forall f, k :: HasKey(t.rows, f, k) <==> 0 <= k < FidCount(ex, f))
  {
    var cuts := Cuts(features, segLength);
    NumberAndSortKeys(ExplodeCuts(features, cuts));
    ExplodeCutsSize(features, cuts);
  }

  /** No two input rows share an `OLnFID` (what `split_line_fc` gives when it
      numbers the rows by their index). */
  predicate DistinctFids(features: seq<Feature>) {
    forall i, j :: 0 <= i < j < |features| ==> features[i].fid != features[j].fid
  }

  /** The same, row by row: the last row's `OLnFID` is new, and so on for
      every prefix. */
  predicate FreshFids(features: seq<Feature>) {
    features == [] ||
      (FreshFids(features[..|features| - 1])
       && forall j :: 0 <= j < |features| - 1 ==> features[j].fid != features[|features| - 1].fid)
  }

  lemma {:induction false} DistinctFresh(features: seq<Feature>)
    requires DistinctFids(features)
    ensures FreshFids(features)
  {
    if features != [] {
      var n := |features| - 1;
      assert DistinctFids(features[..n]);
      DistinctFresh(features[..n]);
    }
  }

  lemma {:induction false} FidCountAppend<G>(a: seq<Exploded<G>>, b: seq<Exploded<G>>, f: int)
    ensures FidCount(a + b, f) == FidCount(a, f) + FidCount(b, f)
    decreases |b|
  {
    if b == [] {
      assert a + b == a;
    } else {
      var n := |b| - 1;
      assert (a + b)[..|a + b| - 1] == a + b[..n];
      assert (a + b)[|a + b| - 1] == b[n];
      FidCountAppend(a, b[..n], f);
    }
  }

  lemma {:induction false} FidCountNone<G>(rows: seq<Exploded<G>>, f: int)
    requires forall j :: 0 <= j < |rows| ==> rows[j].fid != f
    ensures FidCount(rows, f) == 0
  {
    if rows != [] {
      FidCountNone(rows[..|rows| - 1], f);
    }
  }

  lemma {:induction false} FidCountAll<G>(rows: seq<Exploded<G>>, f: int)
    requires forall j :: 0 <= j < |rows| ==> rows[j].fid == f
    ensures FidCount(rows, f) == |rows|
  {
    if rows != [] {
      FidCountAll(rows[..|rows| - 1], f);
    }
  }

  /** Row `r` carries piece `k` of its input row's cut, or the missing
      geometry of an empty cut as its only row. */
  predicate PieceAt(r: Exploded<Option<seq<real>>>, k: nat, cuts: seq<seq<seq<real>>>) {
    && r.src < |cuts|
    && (cuts[r.src] == [] ==> k == 0 && r.geom.None?)
    && (cuts[r.src] != [] ==> k < |cuts[r.src]| && r.geom == Some(cuts[r.src][k]))
  }

  /** No row exploded before the last input row shares its `OLnFID`. */
  lemma EarlierFidsDiffer(features: seq<Feature>, cuts: seq<seq<seq<real>>>)
    requires |cuts| == |features| && FreshFids(features) && features != []
    ensures var n := |features| - 1;
      FidCount(ExplodeCuts(features[..n], cuts[..n]), features[n].fid) == 0
  {
    var n := |features| - 1;
    var a := ExplodeCuts(features[..n], cuts[..n]);
    ExplodeCutsRows(features[..n], cuts[..n]);
    forall j | 0 <= j < |a| ensures a[j].fid != features[n].fid {
      assert a[j] in a;
    }
    FidCountNone(a, features[n].fid);
  }

  /** With distinct `OLnFID`s, the running count of every exploded row is
      the position of its piece within its input row's cut. */
  lemma {:induction false} ExplodeCutsCount(features: seq<Feature>, cuts: seq<seq<seq<real>>>)
    requires |cuts| == |features| && FreshFids(features)
    ensures var ex := ExplodeCuts(features, cuts);
      forall j :: 0 <= j < |ex| ==> PieceAt(ex[j], FidCount(ex[..j], ex[j].fid), cuts)
    decreases |features|
  {
    if features != [] {
      var n := |features| - 1;
      var a := ExplodeCuts(features[..n], cuts[..n]);
      var ex := ExplodeCuts(features, cuts);
      ExplodeCutsCount(features[..n], cuts[..n]);
      forall j | 0 <= j < |ex|
        ensures PieceAt(ex[j], FidCount(ex[..j], ex[j].fid), cuts)
      {
        if j < |a| {
          EarlierCount(features, cuts, j);
        } else {
          LastRowCount(features, cuts, j - |a|);
        }
      }
    }
  }

  /** A row exploded from an earlier input row keeps its count. */
  lemma EarlierCount(features: seq<Feature>, cuts: seq<seq<seq<real>>>, j: nat)
    requires |cuts| == |features| && features != []
    requires var n := |features| - 1; var a := ExplodeCuts(features[..n], cuts[..n]);
      && j < |a|
      && PieceAt(a[j], FidCount(a[..j], a[j].fid), cuts[..n]) && a[j].src < n
    ensures var ex := ExplodeCuts(features, cuts);
      j < |ex| && PieceAt(ex[j], FidCount(ex[..j], ex[j].fid), cuts)
  {
    var n := |features| - 1;
    var a := ExplodeCuts(features[..n], cuts[..n]);
    var ex := ExplodeCuts(features, cuts);
    assert ex[..j] == a[..j] && ex[j] == a[j];
  }

  /** The m-th row exploded from the last input row is counted m. */
  lemma LastRowCount(features: seq<Feature>, cuts: seq<seq<seq<real>>>, m: nat)
    requires |cuts| == |features| && FreshFids(features) && features != []
    requires var n := |features| - 1; m < |RowPieces(n, features[n].fid, cuts[n])|
    ensures var n := |features| - 1; var ex := ExplodeCuts(features, cuts);
      var j := |ExplodeCuts(features[..n], cuts[..n])| + m;
      j < |ex| && PieceAt(ex[j], FidCount(ex[..j], ex[j].fid), cuts)
  {
    var n := |features| - 1;
    var a := ExplodeCuts(features[..n], cuts[..n]);
    var here := RowPieces(n, features[n].fid, cuts[n]);
    var ex := ExplodeCuts(features, cuts);
    var j := |a| + m;
    assert ex[j] == here[m] && ex[..j] == a + here[..m];
    FidCountAppend(a, here[..m], features[n].fid);
    EarlierFidsDiffer(features, cuts);
    FidCountAll(here[..m], features[n].fid);
  }

  /** How many exploded rows an input row has: one per piece, one for an
      empty cut, when no other row shares its `OLnFID`. */
  lemma {:induction false} ExplodeCutsFidCount(features: seq<Feature>, cuts: seq<seq<seq<real>>>, i: nat)
    requires |cuts| == |features| && FreshFids(features) && i < |features|
    ensures FidCount(ExplodeCuts(features, cuts), features[i].fid) == if cuts[i] == [] then 1 else |cuts[i]|
    decreases |features|
  {
    var n := |features| - 1;
    var a := ExplodeCuts(features[..n], cuts[..n]);
    var here := RowPieces(n, features[n].fid, cuts[n]);
    assert ExplodeCuts(features, cuts) == a + here;
    FidCountAppend(a, here, features[i].fid);
    if i == n {
      EarlierFidsDiffer(features, cuts);
      FidCountAll(here, features[n].fid);
    } else {
      assert features[..n][i] == features[i] && cuts[..n][i] == cuts[i];
      ExplodeCutsFidCount(features[..n], cuts[..n], i);
      assert features[i].fid != features[n].fid;
      FidCountNone(here, features[i].fid);
    }
  }

  /** A numbered row of the exploded cuts carries the piece its count names. */
  lemma NumberedPiece(features: seq<Feature>, cuts: seq<seq<seq<real>>>, x: Numbered<Option<seq<real>>>)
    requires |cuts| == |features| && DistinctFids(features)
    requires x in multiset(Number(ExplodeCuts(features, cuts)))
    ensures x.src < |features| && x.fid == features[x.src].fid
    ensures PieceAt(Exploded(x.src, x.fid, x.geom), x.seg, cuts)
  {
    var ex := ExplodeCuts(features, cuts);
    var nums := Number(ex);
    var j :| 0 <= j < |nums| && nums[j] == x;
    DistinctFresh(features);
    ExplodeCutsCount(features, cuts);
    ExplodeCutsRows(features, cuts);
    assert ex[j] in ex;
    assert Exploded(x.src, x.fid, x.geom) == ex[j];
  }

  /** With distinct `OLnFID`s, the row of the segment table numbered
      (`OLnFID` f, `OLnSEG` k) carries piece k of the cut of the input row
      with `OLnFID` f, and every piece of every row appears. */
  lemma SplitIntoSegmentsPieces(features: seq<Feature>, segLength: real, columns: set<string>)
    requires ProperLines(features) && segLength >= CutLine.EPS && DistinctFids(features)
    ensures var t := SplitIntoSegments(features, segLength, columns);
      var cuts := Cuts(features, segLength);
      && (forall i :: 0 <= i < |t.rows| ==>
            t.rows[i].src < |features| && t.rows[i].fid == features[t.rows[i].src].fid
            && PieceAt(Exploded(t.rows[i].src, t.rows[i].fid, t.rows[i].geom), t.rows[i].seg, cuts))
      && (forall i, k :: 0 <= i < |features| && 0 <= k < |cuts[i]| ==> HasKey(t.rows, features[i].fid, k))
  {
    var t := SplitIntoSegments(features, segLength, columns);
    var cuts := Cuts(features, segLength);
    SplitIntoSegmentsOrdered(features, segLength, columns);
    forall i | 0 <= i < |t.rows|
      ensures t.rows[i].src < |features| && t.rows[i].fid == features[t.rows[i].src].fid
        && PieceAt(Exploded(t.rows[i].src, t.rows[i].fid, t.rows[i].geom), t.rows[i].seg, cuts)
    {
      assert t.rows[i] in multiset(t.rows);
      NumberedPiece(features, cuts, t.rows[i]);
    }
    forall i, k | 0 <= i < |features| && 0 <= k < |cuts[i]|
      ensures HasKey(t.rows, features[i].fid, k)
    {
      DistinctFresh(features);
      ExplodeCutsFidCount(features, cuts, i);
    }
  }

  // chk_df_multipart

  /** A row of the table `chk_df_multipart` receives: its `OLnFID` (when the
      column exists) and its geometry, missing for a None cell. */
  datatype Row = Row(fid: int, geom: Option<Geometry>)

  /** `explode` of one geometry: the parts of a multi-part geometry or
      collection, a single-part geometry as it is. */
  function Parts(g: Geometry): (ps: seq<Geometry>)
    ensures !(g.MultiPoint? || g.MultiLineString? || g.MultiPolygon? || g.GeometryCollection?) ==> ps == [g]
  {
    match g
    case MultiPoint(pts) => seq(|pts|, k requires 0 <= k < |pts| => Point(pts[k]))
    case MultiLineString(ls) => seq(|ls|, k requires 0 <= k < |ls| => LineString(ls[k]))
    case MultiPolygon(ps) => seq(|ps|, k requires 0 <= k < |ps| => Polygon(ps[k]))
    case GeometryCollection(gs) => gs
    case _ => [g]
  }

  /** `GeoDataFrame.explode` on rows that all have a geometry. */
  function ExplodeRows(rows: seq<Row>): (r: seq<Exploded<Geometry>>)
    requires forall i :: 0 <= i < |rows| ==> rows[i].geom.Some?
    decreases |rows|
  {
    if rows == [] then []
    else
      var n := |rows| - 1;
      var ps := Parts(rows[n].geom.value);
      ExplodeRows(rows[..n]) + seq(|ps|, k requires 0 <= k < |ps| => Exploded(n, rows[n].fid, ps[k]))
  }

  /** What `chk_df_multipart` returns: the table and the found flag. */
  datatype Checked =
    | Unchanged(rows: seq<Row>, found: bool)
    | ExplodedOnly(exploded: seq<Exploded<Geometry>>)
    | Renumbered(numbered: seq<Numbered<Geometry>>)

  predicate HasType(rows: seq<Row>, name: string)
    requires forall i :: 0 <= i < |rows| ==> rows[i].geom.Some?
  {
    exists i :: 0 <= i < |rows| && Upper(GeomType(rows[i].geom.value)) == Upper(name)
  }

  /** `chk_df_multipart(df, chk_shp_in_string)`. A None geometry makes
      `geom_type` None, whose `upper` raises: the table comes back unchanged
      with True. A table without `OLnFID` is exploded before the failing
      `groupby`, and the exploded table comes back with True. */
  function ChkDfMultipart(rows: seq<Row>, hasFid: bool, chkShape: string): (c: Checked)
    ensures (exists i :: 0 <= i < |rows| && rows[i].geom.None?) ==> c == Unchanged(rows, true)
    ensures c.Unchanged? && !c.found ==> c.rows == rows
  {
    if exists i :: 0 <= i < |rows| && rows[i].geom.None? then Unchanged(rows, true)
    else if HasType(rows, chkShape) then
      var ex := ExplodeRows(rows);
      if hasFid then Renumbered(NumberAndSort(ex)) else ExplodedOnly(ex)
    else Unchanged(rows, false)
  }

  /** The found flag is False exactly when every geometry is present and none
      has the asked type (compared ignoring case). */
  lemma ChkDfMultipartFound(rows: seq<Row>, hasFid: bool, chkShape: string)
    ensures var c := ChkDfMultipart(rows, hasFid, chkShape);
      (c == Unchanged(rows, false)) <==>
        ((forall i :: 0 <= i < |rows| ==> rows[i].geom.Some?) && !HasType(rows, chkShape))
    ensures var c := ChkDfMultipart(rows, hasFid, chkShape);
      c.Renumbered? <==>
        (hasFid && (forall i :: 0 <= i < |rows| ==> rows[i].geom.Some?) && HasType(rows, chkShape))
  {
    var c := ChkDfMultipart(rows, hasFid, chkShape);
    if exists i :: 0 <= i < |rows| && rows[i].geom.None? {
      assert c == Unchanged(rows, true);
    } else if HasType(rows, chkShape) {
      assert c.Renumbered? || c.ExplodedOnly?;
    } else {
      assert c == Unchanged(rows, false);
    }
  }
}
