/**
 * `ProcessMissingValues`: count the NaN cells, choose a strategy from its name (letter
 * case ignored), apply it, and finally drop the rows that still hold NaN.
 */
module MissingValues {
  import opened Wrappers
  import opened Text
  import opened Frames

  /** The strategies the dispatch recognises, and the fall-through for any other name. */
  datatype Strategy =
    | NoAction
    | DeleteRows
    | DeleteColumns
    | ReplaceByColumnMean
    | ReplaceByColumnMedian
    | ReplaceByZero
    | LinearInterpolation
    | UnknownMethod

  /** The name that selects each recognised strategy. */
  function StrategyName(s: Strategy): string
  {
    match s
    case NoAction => "NoAction"
    case DeleteRows => "DeleteRows"
    case DeleteColumns => "DeleteColumns"
    case ReplaceByColumnMean => "ReplaceByColumnMean"
    case ReplaceByColumnMedian => "ReplaceByColumnMedian"
    case ReplaceByZero => "ReplaceByZero"
    case LinearInterpolation => "LinearInterpolation"
    case UnknownMethod => ""
  }

  /** The `re.match(..., Method, re.I)` chain, tried in the order of the source. */
  function ChooseStrategy(name: Option<string>): Strategy
  {
    if name.None? then NoAction
    else
      var m := name.value;
      if FullMatchIgnoringCase(m, "NoAction") || FullMatchIgnoringCase(m, "None") then NoAction
      else if FullMatchIgnoringCase(m, "DeleteRows") then DeleteRows
      else if FullMatchIgnoringCase(m, "DeleteColumns") then DeleteColumns
      else if FullMatchIgnoringCase(m, "ReplaceByColumnMean") then ReplaceByColumnMean
      else if FullMatchIgnoringCase(m, "ReplaceByColumnMedian") then ReplaceByColumnMedian
      else if FullMatchIgnoringCase(m, "ReplaceByZero") then ReplaceByZero
      else if FullMatchIgnoringCase(m, "LinearInterpolation") then LinearInterpolation
      else UnknownMethod
  }

  /**
   * A name selects a recognised strategy only if it matches that strategy's name
   * (or "None" for `NoAction`).
   */
  lemma ChooseStrategySound(name: string)
    ensures var s := ChooseStrategy(Some(name));
      && (s == NoAction ==> FullMatchIgnoringCase(name, "NoAction") || FullMatchIgnoringCase(name, "None"))
      && (s != NoAction && s != UnknownMethod ==> FullMatchIgnoringCase(name, StrategyName(s)))
  {
    var s := ChooseStrategy(Some(name));
    if s != NoAction && s != UnknownMethod {
      assert StrategyName(s) == match s
        case DeleteRows => "DeleteRows"
        case DeleteColumns => "DeleteColumns"
        case ReplaceByColumnMean => "ReplaceByColumnMean"
        case ReplaceByColumnMedian => "ReplaceByColumnMedian"
        case ReplaceByZero => "ReplaceByZero"
        case _ => "LinearInterpolation";
    }
  }

  /** A character that matches a pattern letter under `re.I` matches no letter of another case-folded value. */
  lemma MatchesOneLetter(c: char, p: char, q: char)
    requires ('A' <= p <= 'Z' || 'a' <= p <= 'z') && ('A' <= q <= 'Z' || 'a' <= q <= 'z')
    requires Lower(p) != Lower(q) && SameIgnoringCase(c, p)
    ensures !SameIgnoringCase(c, q)
  {
  }

  /** A name that fails to match `other` because it matches `word`, which differs from `other` at `i`. */
  lemma MatchesOneWord(name: string, word: string, other: string, i: nat)
    requires FullMatchIgnoringCase(name, word)
    requires i < |word| && i < |other|
    requires ('A' <= word[i] <= 'Z' || 'a' <= word[i] <= 'z') && ('A' <= other[i] <= 'Z' || 'a' <= other[i] <= 'z')
    requires Lower(word[i]) != Lower(other[i])
    ensures !FullMatchIgnoringCase(name, other)
  {
    MatchesOneLetter(name[i], word[i], other[i]);
  }

  /**
   * Conversely, a name that matches a recognised strategy's name (letter case ignored)
   * selects that strategy: no earlier pattern of the chain also matches it.
   */
  lemma ChooseStrategyComplete(name: string, s: Strategy)
    requires s != UnknownMethod && FullMatchIgnoringCase(name, StrategyName(s))
    ensures ChooseStrategy(Some(name)) == s
  {
    match s
    case NoAction =>
    case DeleteRows => ChooseDeleteRows(name);
    case DeleteColumns => ChooseDeleteColumns(name);
    case ReplaceByColumnMean => ChooseReplaceByColumnMean(name);
    case ReplaceByColumnMedian => ChooseReplaceByColumnMedian(name);
    case ReplaceByZero => ChooseReplaceByZero(name);
    case LinearInterpolation => ChooseLinearInterpolation(name);
  }

  // One lemma per strategy of ChooseStrategyComplete: the earlier patterns all fail.

  lemma ChooseDeleteRows(name: string)
    requires FullMatchIgnoringCase(name, "DeleteRows")
    ensures ChooseStrategy(Some(name)) == DeleteRows
  {
    MatchesOneWord(name, "DeleteRows", "NoAction", 0);
    MatchesOneWord(name, "DeleteRows", "None", 0);
  }

  lemma ChooseDeleteColumns(name: string)
    requires FullMatchIgnoringCase(name, "DeleteColumns")
    ensures ChooseStrategy(Some(name)) == DeleteColumns
  {
    MatchesOneWord(name, "DeleteColumns", "NoAction", 0);
    MatchesOneWord(name, "DeleteColumns", "None", 0);
    MatchesOneWord(name, "DeleteColumns", "DeleteRows", 6);
  }

  lemma ChooseReplaceByColumnMean(name: string)
    requires FullMatchIgnoringCase(name, "ReplaceByColumnMean")
    ensures ChooseStrategy(Some(name)) == ReplaceByColumnMean
  {
    MatchesOneWord(name, "ReplaceByColumnMean", "NoAction", 0);
    MatchesOneWord(name, "ReplaceByColumnMean", "None", 0);
    MatchesOneWord(name, "ReplaceByColumnMean", "DeleteRows", 0);
    MatchesOneWord(name, "ReplaceByColumnMean", "DeleteColumns", 0);
  }

  lemma ChooseReplaceByColumnMedian(name: string)
    requires FullMatchIgnoringCase(name, "ReplaceByColumnMedian")
    ensures ChooseStrategy(Some(name)) == ReplaceByColumnMedian
  {
    MatchesOneWord(name, "ReplaceByColumnMedian", "NoAction", 0);
    MatchesOneWord(name, "ReplaceByColumnMedian", "None", 0);
    MatchesOneWord(name, "ReplaceByColumnMedian", "DeleteRows", 0);
    MatchesOneWord(name, "ReplaceByColumnMedian", "DeleteColumns", 0);
    MatchesOneWord(name, "ReplaceByColumnMedian", "ReplaceByColumnMean", 17);
  }

  lemma ChooseReplaceByZero(name: string)
    requires FullMatchIgnoringCase(name, "ReplaceByZero")
    ensures ChooseStrategy(Some(name)) == ReplaceByZero
  {
    MatchesOneWord(name, "ReplaceByZero", "NoAction", 0);
    MatchesOneWord(name, "ReplaceByZero", "None", 0);
    MatchesOneWord(name, "ReplaceByZero", "DeleteRows", 0);
    MatchesOneWord(name, "ReplaceByZero", "DeleteColumns", 0);
    MatchesOneWord(name, "ReplaceByZero", "ReplaceByColumnMean", 9);
    MatchesOneWord(name, "ReplaceByZero", "ReplaceByColumnMedian", 9);
  }

  lemma ChooseLinearInterpolation(name: string)
    requires FullMatchIgnoringCase(name, "LinearInterpolation")
    ensures ChooseStrategy(Some(name)) == LinearInterpolation
  {
    MatchesOneWord(name, "LinearInterpolation", "NoAction", 0);
    MatchesOneWord(name, "LinearInterpolation", "None", 0);
    MatchesOneWord(name, "LinearInterpolation", "DeleteRows", 0);
    MatchesOneWord(name, "LinearInterpolation", "DeleteColumns", 0);
    MatchesOneWord(name, "LinearInterpolation", "ReplaceByColumnMean", 0);
    MatchesOneWord(name, "LinearInterpolation", "ReplaceByColumnMedian", 0);
    MatchesOneWord(name, "LinearInterpolation", "ReplaceByZero", 0);
  }

  /** Each recognised strategy's own name selects it. */
  lemma ChooseStrategyOwnName(s: Strategy)
    requires s != UnknownMethod
    ensures ChooseStrategy(Some(StrategyName(s))) == s
  {
    var n := StrategyName(s);
    match s
    case NoAction =>
    case DeleteRows =>
      assert !SameIgnoringCase(n[2], "NoAction"[2]);
      assert !SameIgnoringCase(n[0], "None"[0]);
    case DeleteColumns =>
      assert !SameIgnoringCase(n[2], "NoAction"[2]);
      assert !SameIgnoringCase(n[0], "None"[0]);
    case ReplaceByColumnMean =>
      assert !SameIgnoringCase(n[0], "NoAction"[0]);
    case ReplaceByColumnMedian =>
      assert !SameIgnoringCase(n[0], "NoAction"[0]);
      assert !SameIgnoringCase(n[0], "DeleteRows"[0]);
      assert !SameIgnoringCase(n[0], "DeleteColumns"[0]);
    case ReplaceByZero =>
      assert !SameIgnoringCase(n[0], "NoAction"[0]);
      assert !SameIgnoringCase(n[0], "DeleteColumns"[0]);
    case LinearInterpolation =>
      assert !SameIgnoringCase(n[0], "NoAction"[0]);
      assert !SameIgnoringCase(n[0], "ReplaceByColumnMean"[0]);
  }

  /** Letter case and a single trailing line feed do not matter. */
  lemma ChooseStrategyIgnoresCase()
    ensures ChooseStrategy(Some("deleterows")) == DeleteRows
    ensures ChooseStrategy(Some("REPLACEBYZERO\n")) == ReplaceByZero
  {
    assert FullMatchIgnoringCase("deleterows", "DeleteRows");
    assert FullMatchIgnoringCase("REPLACEBYZERO\n", "ReplaceByZero");
    assert !FullMatchIgnoringCase("REPLACEBYZERO\n", "DeleteColumns") by {
      assert !SameIgnoringCase("REPLACEBYZERO\n"[0], "DeleteColumns"[0]);
    }
  }

  /** "none" means no action; a name with a space in it is an unknown method. */
  lemma ChooseStrategyOtherNames()
    ensures ChooseStrategy(Some("none")) == NoAction
    ensures ChooseStrategy(Some("Delete Rows")) == UnknownMethod
  {
    assert !FullMatchIgnoringCase("Delete Rows", "DeleteRows");
    assert !FullMatchIgnoringCase("Delete Rows", "NoAction") by {
      assert !SameIgnoringCase("Delete Rows"[0], "NoAction"[0]);
    }
  }

  /**
   * The median strategy is documented as "ReplaceColumnMedian", but the dispatch only
   * knows "ReplaceByColumnMedian": the documented name is an unknown method.
   */
  lemma DocumentedMedianNameIsUnknown()
    ensures ChooseStrategy(Some("ReplaceColumnMedian")) == UnknownMethod
  {
    var n := "ReplaceColumnMedian";
    assert !SameIgnoringCase(n[0], "NoAction"[0]);
    assert !SameIgnoringCase(n[0], "DeleteColumns"[0]);
    assert !SameIgnoringCase(n[7], "ReplaceByColumnMean"[7]);
    assert !SameIgnoringCase(n[7], "LinearInterpolation"[7]);
  }

  /**
   * The pandas fill steps whose arithmetic the model leaves open: `fillna` with the
   * column means, `fillna` with the column medians, and linear interpolation down
   * each column.  Each may be any function of the frame.
   */
  datatype Imputers = Imputers(columnMean: Frame -> Frame, columnMedian: Frame -> Frame, interpolate: Frame -> Frame)

  /** The step a recognised strategy takes before the leftover clean-up. */
  function ApplyStrategy(s: Strategy, f: Frame, imputers: Imputers): Frame
  {
    match s
    case DeleteRows => DropIncompleteRows(f)
    case DeleteColumns => DropIncompleteColumns(f)
    case ReplaceByColumnMean => imputers.columnMean(f)
    case ReplaceByColumnMedian => imputers.columnMedian(f)
    case ReplaceByZero => FillZero(f)
    case LinearInterpolation => imputers.interpolate(f)
    case _ => f
  }

  /** The final clean-up: rows that still hold NaN are dropped; a complete frame is kept. */
  function DropLeftovers(f: Frame): (r: Frame)
    ensures NoMissing(r)
    ensures r == DropIncompleteRows(f)
  {
    CompleteFrameKept(f);
    if GetNumberOfMissingValue(f) != 0 then DropIncompleteRows(f) else f
  }

  /**
   * The strategy `s` applied to a frame that holds NaN: the skipping strategies keep
   * it, the others leave no NaN behind.
   */
  function ProcessWith(f: Frame, s: Strategy, imputers: Imputers): (r: Frame)
    requires !NoMissing(f)
    ensures s == NoAction || s == UnknownMethod ==> r == f
    ensures s != NoAction && s != UnknownMethod ==> NoMissing(r)
    ensures s == DeleteRows ==> r == DropIncompleteRows(f)
    ensures s == DeleteColumns ==> r == DropIncompleteColumns(f)
    ensures s == ReplaceByZero ==> r == FillZero(f)
  {
    if s == NoAction || s == UnknownMethod then f
    else
      DropLeftovers(ApplyStrategy(s, f, imputers))
  }

  /**
   * `ProcessMissingValues(DataFrame, Method)`: a frame without NaN, a skipping method
   * and an unknown method all leave the frame as it is; any recognised strategy
   * leaves no NaN behind, and the structural ones are exactly `dropna(axis = 0)`,
   * `dropna(axis = 1)` and `fillna(0)`.
   */
  function ProcessMissingValues(f: Frame, name: Option<string>, imputers: Imputers): (r: Frame)
    ensures NoMissing(f) ==> r == f
    ensures var s := ChooseStrategy(name);
      && (s == NoAction || s == UnknownMethod ==> r == f)
      && (s != NoAction && s != UnknownMethod ==> NoMissing(r))
      && (s == DeleteRows ==> r == DropIncompleteRows(f))
      && (s == DeleteColumns && WellFormed(f) ==> r == DropIncompleteColumns(f))
      && (s == ReplaceByZero ==> r == FillZero(f))
  {
    if GetNumberOfMissingValue(f) == 0 then
      CompleteFrameKept(f);
      f
    else ProcessWith(f, ChooseStrategy(name), imputers)
  }

  /** A mean, median or interpolation fill is followed by `dropna(axis = 0)`. */
  lemma FillThenDropRows(f: Frame, name: Option<string>, imputers: Imputers)
    requires !NoMissing(f)
    ensures ChooseStrategy(name) == ReplaceByColumnMean ==>
      ProcessMissingValues(f, name, imputers) == DropIncompleteRows(imputers.columnMean(f))
    ensures ChooseStrategy(name) == ReplaceByColumnMedian ==>
      ProcessMissingValues(f, name, imputers) == DropIncompleteRows(imputers.columnMedian(f))
    ensures ChooseStrategy(name) == LinearInterpolation ==>
      ProcessMissingValues(f, name, imputers) == DropIncompleteRows(imputers.interpolate(f))
  {
  }

  /** Running the clean-up a second time with the same method changes nothing. */
  lemma ProcessMissingValuesConverges(f: Frame, name: Option<string>, imputers: Imputers)
    ensures var r := ProcessMissingValues(f, name, imputers);
      ProcessMissingValues(r, name, imputers) == r
  {
  }

  /** The documented median name leaves the frame as it is. */
  lemma DocumentedMedianNameKeepsFrame(f: Frame, imputers: Imputers)
    ensures ProcessMissingValues(f, Some("ReplaceColumnMedian"), imputers) == f
  {
    DocumentedMedianNameIsUnknown();
  }

  // ---------------------------------------------------------------------------
  // The structural steps on a frame without NaN
  // ---------------------------------------------------------------------------

  lemma {:induction false} AllRowPositions(rows: seq<Row>)
    requires forall i :: 0 <= i < |rows| ==> CompleteRow(rows[i])
    ensures CompleteRowPositions(rows) == seq(|rows|, i requires 0 <= i < |rows| => i)
  {
    if |rows| > 0 {
      var n := |rows|;
      var init := rows[..n - 1];
      var all := seq(n, i requires 0 <= i < n => i);
      assert all == all[..n - 1] + [n - 1];
      assert CompleteRow(rows[n - 1]);
      AllRowPositions(init);
    }
  }

  /** `dropna(axis = 0)` keeps a frame without NaN as it is. */
  lemma DropRowsOfCompleteFrame(f: Frame)
    requires NoMissing(f)
    ensures DropIncompleteRows(f) == f
  {
    AllRowPositions(f.rows);
  }

  lemma {:induction false} AllColumnPositions(f: Frame, n: nat)
    requires forall j :: 0 <= j < n ==> CompleteColumn(f, j)
    ensures CompleteColumnPositions(f, n) == seq(n, j requires 0 <= j < n => j)
  {
    if n > 0 {
      var all := seq(n, j requires 0 <= j < n => j);
      assert all == all[..n - 1] + [n - 1];
      assert CompleteColumn(f, n - 1);
      AllColumnPositions(f, n - 1);
    }
  }

  /** `dropna(axis = 1)` keeps a well-formed frame without NaN as it is. */
  lemma DropColumnsOfCompleteFrame(f: Frame)
    requires WellFormed(f) && NoMissing(f)
    ensures DropIncompleteColumns(f) == f
  {
    var n := |f.columns|;
    CompleteFrameColumns(f);
    AllColumnPositions(f, n);
    var ps := seq(n, j requires 0 <= j < n => j);
    var r := DropIncompleteColumns(f);
    assert r.columns == f.columns;
    forall i | 0 <= i < |f.rows| ensures r.rows[i] == f.rows[i] {
      PickAllCells(f.rows[i], ps);
    }
  }

  /** In a well-formed frame without NaN, every column is complete. */
  lemma CompleteFrameColumns(f: Frame)
    requires WellFormed(f) && NoMissing(f)
    ensures forall j :: 0 <= j < |f.columns| ==> CompleteColumn(f, j)
  {
    forall j | 0 <= j < |f.columns| ensures CompleteColumn(f, j) {
      forall i | 0 <= i < |f.rows| ensures j < |f.rows[i].cells| && !f.rows[i].cells[j].Missing? {
        assert CompleteRow(f.rows[i]);
      }
    }
  }

  lemma PickAllCells(r: Row, ps: seq<nat>)
    requires |ps| == |r.cells| && forall k :: 0 <= k < |ps| ==> ps[k] == k
    ensures PickCells(r, ps) == r
  {
    assert PickCells(r, ps).cells == r.cells;
  }

  /** On a frame without NaN, `dropna` in both directions and `fillna(0)` change nothing. */
  lemma CompleteFrameKept(f: Frame)
    ensures NoMissing(f) ==> DropIncompleteRows(f) == f && FillZero(f) == f
    ensures NoMissing(f) && WellFormed(f) ==> DropIncompleteColumns(f) == f
  {
    if NoMissing(f) {
      DropRowsOfCompleteFrame(f);
      FillZeroOfCompleteFrame(f);
      if WellFormed(f) { DropColumnsOfCompleteFrame(f); }
    }
  }

  /** `fillna(0)` keeps a frame without NaN as it is. */
  lemma FillZeroOfCompleteFrame(f: Frame)
    requires NoMissing(f)
    ensures FillZero(f) == f
  {
    var r := FillZero(f);
    forall i | 0 <= i < |f.rows| ensures r.rows[i] == f.rows[i] {
      assert CompleteRow(f.rows[i]);
      assert r.rows[i].cells == f.rows[i].cells;
    }
  }
}
