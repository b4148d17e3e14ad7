/**
 * The data frame a results table is loaded into: rows labelled by sample name (the
 * `Samples` index), named columns [Class, ClassNum, features...], and cells that are
 * text, numbers or NaN.  This module holds the NaN count, the two `dropna` forms,
 * `fillna(0)`, and the in-place column coercion to numbers.
 */
module Frames {
  import opened Wrappers

  /** A cell: a string, a number, or NaN. */
  datatype Cell = Text(s: string) | Number(x: real) | Missing

  /** One row: its index entry (the sample name) and its cells, one per column. */
  datatype Row = Row(sample: string, cells: seq<Cell>)

  /** The columns of a frame do not include the index. */
  datatype Frame = Frame(columns: seq<string>, rows: seq<Row>)

  /** Every row has one cell per column. */
  predicate WellFormed(f: Frame)
  {
    forall i :: 0 <= i < |f.rows| ==> |f.rows[i].cells| == |f.columns|
  }

  /** A row without NaN. */
  predicate CompleteRow(r: Row)
  {
    forall j :: 0 <= j < |r.cells| ==> !r.cells[j].Missing?
  }

  /** A frame without NaN. */
  predicate NoMissing(f: Frame)
  {
    forall i :: 0 <= i < |f.rows| ==> CompleteRow(f.rows[i])
  }

  // ---------------------------------------------------------------------------
  // Counting missing values
  // ---------------------------------------------------------------------------

  /** The NaN cells of one row. */
  function MissingInRow(cells: seq<Cell>): (n: nat)
    ensures n <= |cells|
    ensures n == 0 <==> CompleteRow(Row("", cells))
  {
    if |cells| == 0 then 0
    else
      var init := cells[..|cells| - 1];
      assert forall j :: 0 <= j < |init| ==> init[j] == cells[j];
      MissingInRow(init) + (if cells[|cells| - 1].Missing? then 1 else 0)
  }

  /** The NaN cells of all rows. */
  function MissingInRows(rows: seq<Row>): (n: nat)
    ensures n == 0 <==> forall i :: 0 <= i < |rows| ==> CompleteRow(rows[i])
  {
    if |rows| == 0 then 0
    else
      var init := rows[..|rows| - 1];
      assert forall i :: 0 <= i < |init| ==> init[i] == rows[i];
      MissingInRows(init) + MissingInRow(rows[|rows| - 1].cells)
  }

  /** `DataFrame.isnull().sum().sum()`: zero exactly when the frame has no NaN. */
  function GetNumberOfMissingValue(f: Frame): (n: nat)
    ensures n == 0 <==> NoMissing(f)
  {
    MissingInRows(f.rows)
  }

  /** All cells, row after row. */
  function AllCells(rows: seq<Row>): seq<Cell>
  {
    if |rows| == 0 then [] else AllCells(rows[..|rows| - 1]) + rows[|rows| - 1].cells
  }

  lemma {:induction false} MissingInRowIsMultiplicity(cells: seq<Cell>)
    ensures MissingInRow(cells) == multiset(cells)[Missing]
  {
    if |cells| > 0 {
      var init, c := cells[..|cells| - 1], cells[|cells| - 1];
      MissingInRowIsMultiplicity(init);
      assert cells == init + [c];
      assert multiset(cells) == multiset(init) + multiset{c};
    }
  }

  /** The count is the number of occurrences of NaN among all the cells of the frame. */
  lemma {:induction false} MissingCountIsMultiplicity(rows: seq<Row>)
    ensures MissingInRows(rows) == multiset(AllCells(rows))[Missing]
  {
    if |rows| > 0 {
      var init, r := rows[..|rows| - 1], rows[|rows| - 1];
      MissingCountIsMultiplicity(init);
      MissingInRowIsMultiplicity(r.cells);
      assert multiset(AllCells(rows)) == multiset(AllCells(init)) + multiset(r.cells);
    }
  }

  /** A cell-by-cell change that never turns NaN into a value cannot lower the count. */
  lemma {:induction false} MissingInRowMonotone(a: seq<Cell>, b: seq<Cell>)
    requires |a| == |b|
    requires forall j :: 0 <= j < |a| && a[j].Missing? ==> b[j].Missing?
    ensures MissingInRow(a) <= MissingInRow(b)
  {
    if |a| > 0 {
      MissingInRowMonotone(a[..|a| - 1], b[..|b| - 1]);
    }
  }

  lemma {:induction false} MissingInRowsMonotone(a: seq<Row>, b: seq<Row>)
    requires |a| == |b|
    requires forall i :: 0 <= i < |a| ==> |a[i].cells| == |b[i].cells|
    requires forall i, j :: 0 <= i < |a| && 0 <= j < |a[i].cells| && a[i].cells[j].Missing? ==> b[i].cells[j].Missing?
    ensures MissingInRows(a) <= MissingInRows(b)
  {
    if |a| > 0 {
      var k := |a| - 1;
      MissingInRowsMonotone(a[..k], b[..k]);
      MissingInRowMonotone(a[k].cells, b[k].cells);
    }
  }

  // ---------------------------------------------------------------------------
  // dropna(axis = 0), dropna(axis = 1), fillna(0)
  // ---------------------------------------------------------------------------

  /** The positions of the rows without NaN, in increasing order. */
  function CompleteRowPositions(rows: seq<Row>): (ps: seq<nat>)
    ensures forall k :: 0 <= k < |ps| ==> ps[k] < |rows| && CompleteRow(rows[ps[k]])
    ensures forall k, l :: 0 <= k < l < |ps| ==> ps[k] < ps[l]
    ensures forall i :: 0 <= i < |rows| ==> (i in ps <==> CompleteRow(rows[i]))
  {
    if |rows| == 0 then []
    else
      var init := rows[..|rows| - 1];
      var ps0 := CompleteRowPositions(init);
      assert forall i :: 0 <= i < |init| ==> init[i] == rows[i];
      ps0 + (if CompleteRow(rows[|rows| - 1]) then [|rows| - 1] else [])
  }

  /**
   * `DataFrame.dropna(axis = 0)`: the rows at `CompleteRowPositions`, so exactly the
   * rows without NaN, in their original order, with their sample names.
   */
  function DropIncompleteRows(f: Frame): (r: Frame)
    ensures r.columns == f.columns
    ensures NoMissing(r)
    ensures |r.rows| <= |f.rows|
    ensures WellFormed(f) ==> WellFormed(r)
    ensures forall i :: 0 <= i < |f.rows| && CompleteRow(f.rows[i]) ==> f.rows[i] in r.rows
    ensures forall k :: 0 <= k < |r.rows| ==> r.rows[k] in f.rows
    ensures var ps := CompleteRowPositions(f.rows);
      |r.rows| == |ps| && forall k :: 0 <= k < |ps| ==> r.rows[k] == f.rows[ps[k]]
  {
    var ps := CompleteRowPositions(f.rows);
    var r := Frame(f.columns, seq(|ps|, k requires 0 <= k < |ps| => f.rows[ps[k]]));
    PositionsBound(ps, |f.rows|);
    AtPositionsMembers(f.rows, ps, r.rows);
    r
  }

  /** `ys` lists the elements of `xs` at positions `ps`: each is in `xs`, and every picked element is in `ys`. */
  lemma AtPositionsMembers<T>(xs: seq<T>, ps: seq<nat>, ys: seq<T>)
    requires |ys| == |ps| && forall k :: 0 <= k < |ps| ==> ps[k] < |xs| && ys[k] == xs[ps[k]]
    ensures forall k :: 0 <= k < |ys| ==> ys[k] in xs
    ensures forall i :: 0 <= i < |xs| && i in ps ==> xs[i] in ys
  {
    forall i | 0 <= i < |xs| && i in ps ensures xs[i] in ys {
      var k :| 0 <= k < |ps| && ps[k] == i;
      assert ys[k] == xs[i];
    }
  }

  /** A strictly increasing sequence of positions below `n` has at most `n` elements. */
  lemma {:induction false} PositionsBound(ps: seq<nat>, n: nat)
    requires forall k :: 0 <= k < |ps| ==> ps[k] < n
    requires forall k, l :: 0 <= k < l < |ps| ==> ps[k] < ps[l]
    ensures |ps| <= n
  {
    if |ps| > 0 {
      var init := ps[..|ps| - 1];
      PositionsBound(init, ps[|ps| - 1]);
    }
  }

  /** Every row has a cell in column `j`, and none of them is NaN. */
  predicate CompleteColumn(f: Frame, j: nat)
  {
    forall i :: 0 <= i < |f.rows| ==> j < |f.rows[i].cells| && !f.rows[i].cells[j].Missing?
  }

  /** The positions below `n` of the columns without NaN, in increasing order. */
  function CompleteColumnPositions(f: Frame, n: nat): (ps: seq<nat>)
    ensures forall k :: 0 <= k < |ps| ==> ps[k] < n && CompleteColumn(f, ps[k])
    ensures forall k, l :: 0 <= k < l < |ps| ==> ps[k] < ps[l]
    ensures forall j :: 0 <= j < n ==> (j in ps <==> CompleteColumn(f, j))
  {
    if n == 0 then []
    else CompleteColumnPositions(f, n - 1) + (if CompleteColumn(f, n - 1) then [n - 1] else [])
  }

  /** Row `r` restricted to the columns at positions `ps`. */
  function PickCells(r: Row, ps: seq<nat>): (r': Row)
    requires forall k :: 0 <= k < |ps| ==> ps[k] < |r.cells|
    ensures r'.sample == r.sample && |r'.cells| == |ps|
    ensures forall k :: 0 <= k < |ps| ==> r'.cells[k] == r.cells[ps[k]]
  {
    Row(r.sample, seq(|ps|, k requires 0 <= k < |ps| => r.cells[ps[k]]))
  }

  /**
   * `DataFrame.dropna(axis = 1)`: the columns at `CompleteColumnPositions`, so exactly
   * the columns without NaN, in their original order; every row is kept.
   */
  function DropIncompleteColumns(f: Frame): (r: Frame)
    ensures WellFormed(r)
    ensures NoMissing(r)
    ensures |r.columns| <= |f.columns|
    ensures |r.rows| == |f.rows|
    ensures forall i :: 0 <= i < |f.rows| ==> r.rows[i].sample == f.rows[i].sample
    ensures forall j :: 0 <= j < |f.columns| && CompleteColumn(f, j) ==> f.columns[j] in r.columns
    ensures var ps := CompleteColumnPositions(f, |f.columns|);
      && |r.columns| == |ps|
      && (forall k :: 0 <= k < |ps| ==> r.columns[k] == f.columns[ps[k]])
      && (forall i, k :: 0 <= i < |f.rows| && 0 <= k < |ps| ==>
            ps[k] < |f.rows[i].cells| && r.rows[i].cells[k] == f.rows[i].cells[ps[k]])
  {
    var ps := CompleteColumnPositions(f, |f.columns|);
    PositionsBound(ps, |f.columns|);
    var r := Frame(seq(|ps|, k requires 0 <= k < |ps| => f.columns[ps[k]]),
                   seq(|f.rows|, i requires 0 <= i < |f.rows| => PickCells(f.rows[i], ps)));
    AtPositionsMembers(f.columns, ps, r.columns);
    PickedColumnsComplete(f, ps, r.rows);
    r
  }

  /** Rows restricted to complete columns hold no NaN. */
  lemma PickedColumnsComplete(f: Frame, ps: seq<nat>, rows: seq<Row>)
    requires forall k :: 0 <= k < |ps| ==> CompleteColumn(f, ps[k])
    requires |rows| == |f.rows|
    requires forall i :: 0 <= i < |rows| ==> |rows[i].cells| == |ps|
    requires forall i, k :: 0 <= i < |rows| && 0 <= k < |ps| ==>
      ps[k] < |f.rows[i].cells| && rows[i].cells[k] == f.rows[i].cells[ps[k]]
    ensures forall i :: 0 <= i < |rows| ==> CompleteRow(rows[i])
  {
    forall i, k | 0 <= i < |rows| && 0 <= k < |ps| ensures !rows[i].cells[k].Missing? {
      assert CompleteColumn(f, ps[k]);
    }
  }

  function FillCell(c: Cell): Cell
  {
    if c.Missing? then Number(0.0) else c
  }

  /** `DataFrame.fillna(0)`: every NaN cell becomes 0, every other cell is kept. */
  function FillZero(f: Frame): (r: Frame)
    ensures r.columns == f.columns && |r.rows| == |f.rows|
    ensures NoMissing(r)
    ensures forall i :: 0 <= i < |f.rows| ==>
      r.rows[i].sample == f.rows[i].sample && |r.rows[i].cells| == |f.rows[i].cells|
    ensures forall i, j :: 0 <= i < |f.rows| && 0 <= j < |f.rows[i].cells| ==>
      r.rows[i].cells[j] == (if f.rows[i].cells[j].Missing? then Number(0.0) else f.rows[i].cells[j])
  {
    Frame(f.columns, seq(|f.rows|, i requires 0 <= i < |f.rows| =>
      Row(f.rows[i].sample, seq(|f.rows[i].cells|, j requires 0 <= j < |f.rows[i].cells| => FillCell(f.rows[i].cells[j])))))
  }

  // ---------------------------------------------------------------------------
  // Coercion to numbers
  // ---------------------------------------------------------------------------

  /**
   * `pd.to_numeric(..., errors='coerce')` on one cell: a string becomes the number
   * `parse` reads from it, or NaN when it is not numeric; numbers and NaN stay.
   */
  function CoerceCell(c: Cell, parse: string -> Option<real>): (d: Cell)
    ensures !d.Text?
    ensures !c.Text? ==> d == c
    ensures c.Text? ==> d == (if parse(c.s).Some? then Number(parse(c.s).value) else Missing)
  {
    match c
    case Text(s) => (match parse(s) case Some(x) => Number(x) case None => Missing)
    case _ => c
  }

  /** Row `r` with the cells at positions `start <= j < end` coerced. */
  function CoerceRow(r: Row, start: nat, end: nat, parse: string -> Option<real>): Row
  {
    Row(r.sample, seq(|r.cells|, j requires 0 <= j < |r.cells| =>
      if start <= j < end then CoerceCell(r.cells[j], parse) else r.cells[j]))
  }

  /** Frame `f` with its columns `start <= j < end` coerced. */
  function CoerceColumns(f: Frame, start: nat, end: nat, parse: string -> Option<real>): Frame
  {
    Frame(f.columns, seq(|f.rows|, i requires 0 <= i < |f.rows| => CoerceRow(f.rows[i], start, end, parse)))
  }

  /** What `CoerceDataFramColumnValuesToNumeric(f, startColNum)` leaves behind. */
  function CoercedFrame(f: Frame, startColNum: nat, parse: string -> Option<real>): Frame
  {
    CoerceColumns(f, startColNum, |f.columns|, parse)
  }

  /** `DataFrame[ColNum] = pd.to_numeric(DataFrame[ColNum], errors='coerce')`. */
  function CoerceColumn(rows: seq<Row>, j: nat, parse: string -> Option<real>): seq<Row>
  {
    seq(|rows|, i requires 0 <= i < |rows| => CoerceRow(rows[i], j, j + 1, parse))
  }

  lemma CoerceColumnsStep(f: Frame, start: nat, end: nat, parse: string -> Option<real>)
    requires start <= end
    ensures CoerceColumns(f, start, end + 1, parse).rows == CoerceColumn(CoerceColumns(f, start, end, parse).rows, end, parse)
  {
    var a := CoerceColumns(f, start, end + 1, parse).rows;
    var b := CoerceColumn(CoerceColumns(f, start, end, parse).rows, end, parse);
    forall i | 0 <= i < |a| ensures a[i] == b[i] {
      assert a[i].cells == b[i].cells;
    }
  }

  lemma CoerceNothing(f: Frame, start: nat, parse: string -> Option<real>)
    ensures CoerceColumns(f, start, start, parse) == f
  {
    var r := CoerceColumns(f, start, start, parse);
    forall i | 0 <= i < |f.rows| ensures r.rows[i] == f.rows[i] {
      assert r.rows[i].cells == f.rows[i].cells;
    }
  }

  /**
   * Coercion keeps the shape and the sample names, leaves the columns before `startColNum`
   * alone, and leaves no string in the columns from `startColNum` on; numbers and NaN
   * there are kept.
   */
  lemma CoercionOnlyFromStartColumn(f: Frame, startColNum: nat, parse: string -> Option<real>)
    requires WellFormed(f)
    ensures var r := CoercedFrame(f, startColNum, parse);
      && WellFormed(r) && r.columns == f.columns && |r.rows| == |f.rows|
      && (forall i :: 0 <= i < |f.rows| ==> r.rows[i].sample == f.rows[i].sample)
      && (forall i, j :: 0 <= i < |f.rows| && 0 <= j < startColNum && j < |f.columns| ==>
            r.rows[i].cells[j] == f.rows[i].cells[j])
      && (forall i, j :: 0 <= i < |f.rows| && startColNum <= j < |f.columns| ==>
            !r.rows[i].cells[j].Text? && (!f.rows[i].cells[j].Text? ==> r.rows[i].cells[j] == f.rows[i].cells[j]))
      && (forall i, j :: 0 <= i < |f.rows| && startColNum <= j < |f.columns| && f.rows[i].cells[j].Text? ==>
            var p := parse(f.rows[i].cells[j].s);
            r.rows[i].cells[j] == (if p.Some? then Number(p.value) else Missing))
  {
  }

  /** Coercing a second time changes nothing. */
  lemma CoercionIdempotent(f: Frame, startColNum: nat, parse: string -> Option<real>)
    ensures CoercedFrame(CoercedFrame(f, startColNum, parse), startColNum, parse) == CoercedFrame(f, startColNum, parse)
  {
    var r := CoercedFrame(f, startColNum, parse);
    var r2 := CoercedFrame(r, startColNum, parse);
    forall i | 0 <= i < |r.rows| ensures r2.rows[i] == r.rows[i] {
      assert r2.rows[i].cells == r.rows[i].cells;
    }
  }

  /** Coercion can only add NaN (for strings that are not numbers), never remove one. */
  lemma CoercionKeepsMissing(f: Frame, startColNum: nat, parse: string -> Option<real>)
    ensures GetNumberOfMissingValue(f) <= GetNumberOfMissingValue(CoercedFrame(f, startColNum, parse))
  {
    MissingInRowsMonotone(f.rows, CoercedFrame(f, startColNum, parse).rows);
  }

  /** A data frame object whose columns are overwritten in place. */
  class DataFrame {
    var columns: seq<string>
    var rows: seq<Row>

    /** The current contents as a value. */
    function Snapshot(): Frame
      reads this
    {
      Frame(columns, rows)
    }

    constructor (f: Frame)
      ensures Snapshot() == f
    {
      columns := f.columns;
      rows := f.rows;
    }

    /**
     * `CoerceDataFramColumnValuesToNumeric(DataFrame, StartColNum)`: every column from
     * `startColNum` on is replaced, one after the other, by its numeric coercion.
     */
    method CoerceColumnValuesToNumeric(startColNum: nat, parse: string -> Option<real>)
      modifies this
      ensures Snapshot() == CoercedFrame(old(Snapshot()), startColNum, parse)
    {
      ghost var f := Snapshot();
      CoerceNothing(f, startColNum, parse);
      var colNum := startColNum;
      while colNum < |columns|
        invariant columns == f.columns
        invariant startColNum <= colNum
        invariant colNum > startColNum ==> colNum <= |columns|
        invariant Snapshot() == CoerceColumns(f, startColNum, colNum, parse)
      {
        CoerceColumnsStep(f, startColNum, colNum, parse);
        rows := CoerceColumn(rows, colNum, parse);
        colNum := colNum + 1;
      }
      if startColNum < |columns| {
        assert colNum == |columns|;
      } else {
        CoerceNothing(f, |columns|, parse);
        assert CoerceColumns(f, startColNum, startColNum, parse) == CoerceColumns(f, startColNum, |columns|, parse) by {
          var a := CoerceColumns(f, startColNum, startColNum, parse);
          var b := CoerceColumns(f, startColNum, |columns|, parse);
          forall i | 0 <= i < |a.rows| ensures a.rows[i] == b.rows[i] {
            assert a.rows[i].cells == b.rows[i].cells;
          }
        }
      }
    }
  }
}
