/**
 * Column sizing in save_excel (code.py lines 53-58): each data column is as
 * wide as its longest cell, rounded down to a multiple of 15 and kept within
 * 15..60. Writing the workbook and the cell alignment are not modelled.
 */
module Sheet {
  import opened Wrappers
  import opened Aggregate

  /** Index levels written before the data columns: `class` and `No`. */
  const IndexLevels: nat := 2

  /** Data columns after `class` is dropped: title, tips, prompt, prompt_cn. */
  const DataColumns: nat := 4

  /** The 1-based sheet column that data column `d` is written to. */
  function SheetColumn(d: nat): (col: nat)
    ensures IndexLevels < col
  {
    d + 1 + IndexLevels
  }

  /** `min(max(max_len // 15, 1) * 15, 60)`. */
  function ColumnWidth(maxLen: nat): (w: nat)
    ensures w % 15 == 0 && 15 <= w <= 60
    ensures maxLen < 30 ==> w == 15
    ensures maxLen >= 60 ==> w == 60
    ensures w <= maxLen || w == 15
    ensures maxLen < w + 15 || w == 60
  {
    var buckets := if maxLen / 15 > 1 then maxLen / 15 else 1;
    var raw := buckets * 15;
    if raw < 60 then raw else 60
  }

  /** A longer column never gets a narrower width. */
  lemma ColumnWidthMonotone(a: nat, b: nat)
    requires a <= b
    ensures ColumnWidth(a) <= ColumnWidth(b)
  {
    assert a / 15 <= b / 15;
  }

  /**
   * `astype(str)` in the width computation: a missing `prompt_cn` becomes the
   * text "nan" there (the workbook itself shows an empty cell).
   */
  function AsText(v: Option<string>): (s: string)
    ensures v.Some? ==> s == v.value
    ensures v.None? ==> s == "nan"
  {
    match v
    case Some(x) => x
    case None => "nan"
  }

  /** The text of data column `d` of a result row. */
  function Cell(r: OutRow, d: nat): string
    requires d < DataColumns
  {
    if d == 0 then r.title
    else if d == 1 then r.tips
    else if d == 2 then r.prompt
    else AsText(r.promptCn)
  }

  function Column(rows: seq<KeyedRow>, d: nat): (col: seq<string>)
    requires d < DataColumns
    ensures |col| == |rows|
  {
    seq(|rows|, k requires 0 <= k < |rows| => Cell(rows[k].row, d))
  }

  /** `df[col].astype(str).map(len).max()`: the length of the longest cell. */
  function MaxLen(column: seq<string>): (m: nat)
    requires |column| > 0
    ensures forall k :: 0 <= k < |column| ==> |column[k]| <= m
    ensures exists k :: 0 <= k < |column| && |column[k]| == m
  {
    if |column| == 1 then |column[0]|
    else
      var rest := MaxLen(column[1..]);
      if |column[0]| >= rest then |column[0]| else rest
  }

  /** A missing value in a column never changes its width: its text is shorter than the smallest bucket. */
  lemma {:induction false} MissingNeverWidens(column: seq<string>)
    requires |column| > 0
    ensures ColumnWidth(MaxLen(column + [AsText(None)])) == ColumnWidth(MaxLen(column))
  {
    var longer := column + [AsText(None)];
    var m := MaxLen(longer);
    var k :| 0 <= k < |longer| && |longer[k]| == m;
    var i :| 0 <= i < |column| && |column[i]| == MaxLen(column);
    assert longer[i] == column[i];
    if k < |column| {
      assert longer[k] == column[k];
    } else {
      assert m == 3;
    }
  }

  /**
   * The sizing loop: data column d goes to sheet column SheetColumn(d) and
   * gets the width bucket of its longest cell. An empty result has no
   * `df.index[0]`, so the rows must not be empty.
   */
  method ColumnWidths(rows: seq<KeyedRow>) returns (widths: map<nat, nat>)
    requires |rows| > 0
    ensures forall col :: col in widths ==> IndexLevels < col <= IndexLevels + DataColumns
    ensures forall d :: 0 <= d < DataColumns ==>
      SheetColumn(d) in widths && widths[SheetColumn(d)] == ColumnWidth(MaxLen(Column(rows, d)))
    ensures forall d, k :: 0 <= d < DataColumns && 0 <= k < |rows| ==>
      |Cell(rows[k].row, d)| < widths[SheetColumn(d)] + 15 || widths[SheetColumn(d)] == 60
  {
    widths := map[];
    for d := 0 to DataColumns
      invariant forall col :: col in widths ==> IndexLevels < col <= IndexLevels + d
      invariant forall e :: 0 <= e < d ==>
        SheetColumn(e) in widths && widths[SheetColumn(e)] == ColumnWidth(MaxLen(Column(rows, e)))
    {
      var maxLen := MaxLen(Column(rows, d));
      widths := widths[SheetColumn(d) := ColumnWidth(maxLen)];
    }
    forall d, k | 0 <= d < DataColumns && 0 <= k < |rows|
      ensures |Cell(rows[k].row, d)| < widths[SheetColumn(d)] + 15 || widths[SheetColumn(d)] == 60
    {
      assert Column(rows, d)[k] == Cell(rows[k].row, d);
    }
  }
}
