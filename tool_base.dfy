/** `result_is_valid` and `execute_multiprocessing` of
    beratools/core/tool_base.py: run a per-item function over the input
    items, keep the valid results, count progress, and give up with `None`
    as soon as an item raises. The process pools are not modelled; in the
    two parallel modes the order in which the items complete is an input. */
module ToolBase {
  import opened Wrappers

  /** The kind of a pandas/geopandas table or column. */
  datatype FrameKind = DataFrame | GeoDataFrame | Series | GeoSeries

  /** The Python values a per-item function returns, as far as their
      validity depends on them. `Object` is an instance without `__bool__`
      or `__len__` (always truthy); `Float` holds NaN as `None` (truthy). */
  datatype PyValue =
    | PNone
    | PBool(b: bool)
    | PInt(i: int)
    | PFloat(f: Option<real>)
    | PStr(s: string)
    | PList(items: seq<PyValue>)
    | PTuple(items: seq<PyValue>)
    | PDict(size: nat)
    | Frame(kind: FrameKind, rows: nat, columns: nat)  // a Series has one column
    | Object(id: nat)

  /** Python truthiness of the values that reach the last branch. */
  predicate Truthy(v: PyValue) {
    match v
    case PNone => false
    case PBool(b) => b
    case PInt(i) => i != 0
    case PFloat(f) => f.None? || f.value != 0.0
    case PStr(s) => s != []
    case PList(items) => items != []
    case PTuple(items) => items != []
    case PDict(n) => n > 0
    case Frame(_, _, _) => true
    case Object(_) => true
  }

  /** `result_is_valid`: a list or tuple is valid when non-empty, a table or
      column when not `.empty` (no row or no column), any other value when
      truthy. */
  predicate ResultIsValid(v: PyValue) {
    match v
    case PList(items) => |items| > 0
    case PTuple(items) => |items| > 0
    case Frame(_, rows, columns) => rows > 0 && columns > 0
    case _ => Truthy(v)
  }

  /** The validity rule by kind of value: None is never valid, a sequence
      is valid iff non-empty, a table iff it has a row and a column. */
  lemma ResultIsValidCases(v: PyValue)
    ensures v.PNone? ==> !ResultIsValid(v)
    ensures v.PList? || v.PTuple? ==> (ResultIsValid(v) <==> v.items != [])
    ensures v.Frame? ==> (ResultIsValid(v) <==> v.rows > 0 && v.columns > 0)
    ensures !v.Frame? ==> (ResultIsValid(v) <==> Truthy(v))
  {
  }

  datatype Mode = Multiprocessing | Sequential | Concurrent | Unrecognised

  /** Running the items in the given order: the valid results in that
      order, or `None` once an item raises (`f` gives `None`). */
  function Collect<X>(f: X -> Option<PyValue>, items: seq<X>): (r: Option<seq<PyValue>>)
    ensures r.Some? ==> forall i :: 0 <= i < |r.value| ==> ResultIsValid(r.value[i])
    ensures r.Some? ==> |r.value| <= |items|
  {
    if items == [] then Some([])
    else match f(items[0])
      case None => None
      case Some(v) =>
        match Collect(f, items[1..])
        case None => None
        case Some(rest) => Some(if ResultIsValid(v) then [v] + rest else rest)
  }

  /** `execute_multiprocessing`. In the parallel modes `completed` is the
      order in which the pool hands back the items' results. */
  function Execute<X>(f: X -> Option<PyValue>, data: seq<X>, mode: Mode, completed: seq<X>): (r: Option<seq<PyValue>>)
    ensures r.Some? ==> forall i :: 0 <= i < |r.value| ==> ResultIsValid(r.value[i])
  {
    match mode
    case Sequential => Collect(f, data)
    case Multiprocessing => Collect(f, completed)
    case Concurrent => Collect(f, completed)
    case Unrecognised => Some([])
  }

  predicate Raises<X>(f: X -> Option<PyValue>, items: seq<X>) {
    exists i :: 0 <= i < |items| && f(items[i]).None?
  }

  /** The results of one run, valid and in order: `None` exactly when an item
      raises, otherwise the valid results of the items in order, never a
      partial list. */
  lemma {:induction false} CollectMeaning<X>(f: X -> Option<PyValue>, items: seq<X>)
    ensures Collect(f, items).None? <==> Raises(f, items)
    ensures Collect(f, items).Some? ==> Collect(f, items).value == ValidResults(f, items)
  {
    if items != [] {
      CollectMeaning(f, items[1..]);
      if Raises(f, items[1..]) {
        var i :| 0 <= i < |items[1..]| && f(items[1..][i]).None?;
        assert f(items[i + 1]).None?;
      }
      if f(items[0]).Some? && Raises(f, items) {
        var i :| 0 <= i < |items| && f(items[i]).None?;
        assert i > 0 && items[1..][i - 1] == items[i];
      }
    }
  }

  /** The valid results of items none of which raises, in item order. */
  function ValidResults<X>(f: X -> Option<PyValue>, items: seq<X>): seq<PyValue> {
    if items == [] then []
    else
      var v := f(items[0]);
      (if v.Some? && ResultIsValid(v.value) then [v.value] else []) + ValidResults(f, items[1..])
  }

  lemma {:induction false} ValidResultsAppend<X>(f: X -> Option<PyValue>, a: seq<X>, b: seq<X>)
    ensures ValidResults(f, a + b) == ValidResults(f, a) + ValidResults(f, b)
  {
    if a != [] {
      assert (a + b)[0] == a[0];
      assert (a + b)[1..] == a[1..] + b;
      ValidResultsAppend(f, a[1..], b);
      var v := f(a[0]);
      var h := if v.Some? && ResultIsValid(v.value) then [v.value] else [];
      assert h + (ValidResults(f, a[1..]) + ValidResults(f, b)) == (h + ValidResults(f, a[1..])) + ValidResults(f, b);
    } else {
      assert a + b == b;
    }
  }

  /** The valid results do not depend on the order the items complete in,
      up to order: the parallel modes return a permutation of what the
      sequential mode returns, and raise exactly when it does. */
  lemma {:induction false} ValidResultsPermutation<X>(f: X -> Option<PyValue>, a: seq<X>, b: seq<X>)
    requires multiset(a) == multiset(b)
    ensures multiset(ValidResults(f, a)) == multiset(ValidResults(f, b))
    decreases |a|
  {
    if a != [] {
      var x := a[0];
      assert x in multiset(b);
      var k :| 0 <= k < |b| && b[k] == x;
      RemoveAt(b, k);
      assert a == [x] + a[1..];
      assert multiset(a[1..]) == multiset(a) - multiset{x};
      ValidResultsPermutation(f, a[1..], b[..k] + b[k + 1..]);
      ValidResultsAt(f, b, k);
      ValidResultsAppend(f, [x], a[1..]);
    } else {
      assert b == [];
    }
  }

  lemma RemoveAt<X>(s: seq<X>, k: nat)
    requires k < |s|
    ensures multiset(s[..k] + s[k + 1..]) == multiset(s) - multiset{s[k]}
  {
    assert s == s[..k] + [s[k]] + s[k + 1..];
  }

  /** The valid results of `b` are those of its item `k` and those of the
      other items. */
  lemma ValidResultsAt<X>(f: X -> Option<PyValue>, b: seq<X>, k: nat)
    requires k < |b|
    ensures multiset(ValidResults(f, b)) == multiset(ValidResults(f, [b[k]])) + multiset(ValidResults(f, b[..k] + b[k + 1..]))
  {
    var p, x, q := b[..k], b[k], b[k + 1..];
    assert b == (p + [x]) + q;
    ValidResultsAppend(f, p + [x], q);
    ValidResultsAppend(f, p, [x]);
    ValidResultsAppend(f, p, q);
    var vp, vx, vq := ValidResults(f, p), ValidResults(f, [x]), ValidResults(f, q);
    assert ValidResults(f, b) == (vp + vx) + vq;
    assert multiset((vp + vx) + vq) == multiset(vp) + multiset(vx) + multiset(vq);
    assert multiset(vp + vq) == multiset(vp) + multiset(vq);
  }

  lemma RaisesPermutation<X>(f: X -> Option<PyValue>, a: seq<X>, b: seq<X>)
    requires multiset(a) == multiset(b)
    ensures Raises(f, a) <==> Raises(f, b)
  {
    if Raises(f, a) {
      var i :| 0 <= i < |a| && f(a[i]).None?;
      assert a[i] in multiset(b);
      var j :| 0 <= j < |b| && b[j] == a[i];
    }
    if Raises(f, b) {
      var i :| 0 <= i < |b| && f(b[i]).None?;
      assert b[i] in multiset(a);
      var j :| 0 <= j < |a| && a[j] == b[i];
    }
  }

  lemma ParallelMatchesSequential<X>(f: X -> Option<PyValue>, data: seq<X>, mode: Mode, completed: seq<X>)
    requires mode.Multiprocessing? || mode.Concurrent?
    requires multiset(completed) == multiset(data)
    ensures Execute(f, data, mode, completed).None? <==> Execute(f, data, Sequential, completed).None?
    ensures Execute(f, data, mode, completed).Some? ==>
      multiset(Execute(f, data, mode, completed).value) == multiset(Execute(f, data, Sequential, completed).value)
  {
    CollectMeaning(f, data);
    CollectMeaning(f, completed);
    RaisesPermutation(f, completed, data);
    ValidResultsPermutation(f, completed, data);
  }

  /** The per-item loop shared by the modes: results appended when valid,
      `step` advanced once per item (`progress` records each value it
      takes, as handed to the progress printer), and a raise ending the
      call with `None`. */
  method ExecuteMultiprocessing<X>(f: X -> Option<PyValue>, data: seq<X>, mode: Mode, completed: seq<X>)
    returns (r: Option<seq<PyValue>>, progress: seq<nat>)
    requires mode.Multiprocessing? || mode.Concurrent? ==> multiset(completed) == multiset(data)
    ensures r == Execute(f, data, mode, completed)
    ensures r.Some? && !mode.Unrecognised? ==> progress == Steps(|data|)
  {
    progress := [];
    if mode.Unrecognised? {
      return Some([]), progress;
    }
    var items := if mode.Sequential? then data else completed;
    assert |multiset(items)| == |items| && |multiset(data)| == |data|;
    var outResult := [];
    var step := 0;
    var i := 0;
    while i < |items|
      invariant 0 <= i <= |items|
      invariant !Raises(f, items[..i])
      invariant outResult == ValidResults(f, items[..i])
      invariant step == i && progress == Steps(i)
    {
      assert items[..i + 1] == items[..i] + [items[i]];
      ValidResultsAppend(f, items[..i], [items[i]]);
      var resultItem := f(items[i]);
      if resultItem.None? {
        CollectMeaning(f, items);
        return None, progress;
      }
      if ResultIsValid(resultItem.value) {
        outResult := outResult + [resultItem.value];
      }
      step := step + 1;
      progress := progress + [step];
      i := i + 1;
    }
    assert items[..i] == items;
    CollectMeaning(f, items);
    r := Some(outResult);
  }

  /** The progress counts 1, 2, ..., n. */
  function Steps(n: nat): (s: seq<nat>)
    ensures |s| == n
    ensures forall i :: 0 <= i < n ==> s[i] == i + 1
  {
    if n == 0 then [] else Steps(n - 1) + [n]
  }
}
