/**
 * `compute_scaling_vars_for_numerical_cols` (utils.py:53-65): the smallest
 * and largest value of every numeric column of a table.
 */
module Scaling {

  /**
   * The `{"min": ..., "max": ...}` entry of one column. A column without
   * values has NaN for both, which `NaNRange` stands for.
   */
  datatype Range = Range(min: real, max: real) | NaNRange

  /** Every row has a value in each of the columns. */
  predicate HasColumns(cols: seq<string>, rows: seq<map<string, real>>) {
    forall c, i :: c in cols && 0 <= i < |rows| ==> c in rows[i]
  }

  /** `df[col]`: the values of column `c`, row by row. */
  function Column(rows: seq<map<string, real>>, c: string): (vs: seq<real>)
    requires forall i :: 0 <= i < |rows| ==> c in rows[i]
    ensures |vs| == |rows|
    ensures forall i :: 0 <= i < |rows| ==> vs[i] == rows[i][c]
  {
    seq(|rows|, i requires 0 <= i < |rows| => rows[i][c])
  }

  /** `Series.min()` of a column with values. */
  function MinOf(vs: seq<real>): (m: real)
    requires vs != []
    ensures m in vs
    ensures forall v :: v in vs ==> m <= v
  {
    if |vs| == 1 then vs[0]
    else
      var m := MinOf(vs[1..]);
      assert vs == [vs[0]] + vs[1..];
      if vs[0] <= m then vs[0] else m
  }

  /** `Series.max()` of a column with values. */
  function MaxOf(vs: seq<real>): (m: real)
    requires vs != []
    ensures m in vs
    ensures forall v :: v in vs ==> v <= m
  {
    if |vs| == 1 then vs[0]
    else
      var m := MaxOf(vs[1..]);
      assert vs == [vs[0]] + vs[1..];
      if vs[0] >= m then vs[0] else m
  }

  /** The bounds pandas reports for one column. */
  function RangeOf(vs: seq<real>): (r: Range)
    ensures r.NaNRange? <==> vs == []
    ensures r.Range? ==> r.min <= r.max && r.min in vs && r.max in vs
    ensures r.Range? ==> forall v :: v in vs ==> r.min <= v <= r.max
  {
    if vs == [] then NaNRange else Range(MinOf(vs), MaxOf(vs))
  }

  /** The dictionary the function returns: one entry per numeric column. */
  function ScalingOf(cols: seq<string>, rows: seq<map<string, real>>): (s: map<string, Range>)
    requires HasColumns(cols, rows)
    ensures forall c :: c in s <==> c in cols
  {
    map c | c in cols :: RangeOf(Column(rows, c))
  }

  /** The loop of utils.py:61-63, one column at a time. */
  method ComputeScalingVars(cols: seq<string>, rows: seq<map<string, real>>) returns (vars: map<string, Range>)
    requires HasColumns(cols, rows)
    ensures vars == ScalingOf(cols, rows)
  {
    vars := map[];
    var i := 0;
    while i < |cols|
      invariant 0 <= i <= |cols|
      invariant HasColumns(cols[..i], rows)
      invariant vars == ScalingOf(cols[..i], rows)
    {
      var c := cols[i];
      assert c in cols;
      vars := vars[c := RangeOf(Column(rows, c))];
      assert cols[..i + 1] == cols[..i] + [c];
      i := i + 1;
    }
    assert cols[..i] == cols;
  }

  /**
   * Every column's bounds are attained and enclose the whole column:
   * `min <= max`, both are values of the column, and no value lies outside.
   */
  lemma ScalingBoundsTight(cols: seq<string>, rows: seq<map<string, real>>, c: string)
    requires HasColumns(cols, rows) && c in cols && rows != []
    ensures ScalingOf(cols, rows)[c].Range?
    ensures var r := ScalingOf(cols, rows)[c];
      && r.min <= r.max
      && (exists i :: 0 <= i < |rows| && rows[i][c] == r.min)
      && (exists j :: 0 <= j < |rows| && rows[j][c] == r.max)
      && forall i :: 0 <= i < |rows| ==> r.min <= rows[i][c] <= r.max
  {
    var vs := Column(rows, c);
    var r := RangeOf(vs);
    assert ScalingOf(cols, rows)[c] == r;
    var i :| 0 <= i < |vs| && vs[i] == r.min;
    var j :| 0 <= j < |vs| && vs[j] == r.max;
    forall k | 0 <= k < |rows|
      ensures r.min <= rows[k][c] <= r.max
    {
      assert vs[k] in vs;
    }
  }

  /** A table without rows has NaN bounds in every numeric column. */
  lemma ScalingOfNoRows(cols: seq<string>, c: string)
    requires c in cols
    ensures ScalingOf(cols, [])[c] == NaNRange
  {
    assert Column([], c) == [];
  }

  /** The bounds of a column depend only on that column's values. */
  lemma ScalingDependsOnValues(cols: seq<string>, rows: seq<map<string, real>>, rows': seq<map<string, real>>)
    requires HasColumns(cols, rows) && HasColumns(cols, rows')
    requires |rows| == |rows'|
    requires forall i, c :: 0 <= i < |rows| && c in cols ==> rows[i][c] == rows'[i][c]
    ensures ScalingOf(cols, rows) == ScalingOf(cols, rows')
  {
    var s, s' := ScalingOf(cols, rows), ScalingOf(cols, rows');
    forall c | c in cols
      ensures s[c] == s'[c]
    {
      SameColumn(rows, rows', c);
    }
    assert s.Keys == s'.Keys;
  }

  lemma SameColumn(rows: seq<map<string, real>>, rows': seq<map<string, real>>, c: string)
    requires (forall i :: 0 <= i < |rows| ==> c in rows[i]) && (forall i :: 0 <= i < |rows'| ==> c in rows'[i])
    requires |rows| == |rows'| && forall i :: 0 <= i < |rows| ==> rows[i][c] == rows'[i][c]
    ensures Column(rows, c) == Column(rows', c)
  {
  }
}
