/**
 * Cleaning of the survey responses read from the sheet: timestamps are
 * parsed (with the ISO week and the year-week label derived from them),
 * answers on the old 1-5 scale are doubled for responses before the cutover
 * date, blank cells become missing, columns with no value at all are dropped,
 * the quantitative answers are cast to nullable integers and the `Guide`
 * column is derived.
 *
 * Date parsing, the ISO week and `strftime` are library calls; they are the
 * parameters `parse`, `isoWeek` and `yearWeek`.
 */
module ResponseCleaning {
  import opened Wrappers
  import opened Strings
  import opened Frames

  const ScaleColumns: seq<string> := [
    "I felt comfortable as a student in this Seminar.",
    "I felt like my voice mattered in this Seminar.",
    "I felt like I could connect with the Guide as a person.",
    "The content of the Seminar was interesting to me."
  ]

  const QuantColumns: seq<string> := [
    "I felt comfortable as a student in this Seminar.",
    "I felt like my voice mattered in this Seminar.",
    "I felt like I could connect with the Guide as a person.",
    "The content of the Seminar was interesting to me.",
    "I learned a lot from the Seminar.",
    "How much did it \"wow\" you?",
    "How much fun did you have?",
    "Did it leave you wanting to learn more about this topic?"
  ]

  /** The guide-name questions, in priority order. */
  const GuideColumns: seq<string> := [
    "What was the name of the Guide who delivered your Seminar?",
    "What was the name of the Guide who delivered your Wonder Session?"
  ]

  /** Midnight at the start of 13 August 2025: answers before it used the 1-5 scale. */
  const Cutover := Instant(2025, 8, 13, 0)

  // ---------------------------------------------------------------------------
  // The caller's data frame

  /** A mutable data frame: the caller's object, which the first steps of the cleaning change in place. */
  class DataFrame {
    var columns: seq<string>
    var rows: seq<Row>

    function Value(): Table
      reads this
    {
      Table(columns, rows)
    }

    constructor (t: Table)
      ensures Value() == t
    {
      columns := t.columns;
      rows := t.rows;
    }

    /** `df[name] = cells`. */
    method SetColumn(name: string, cells: seq<Cell>)
      requires WellFormed(Value()) && |cells| == |rows|
      modifies this
      ensures Value() == WithCells(old(Value()), name, cells)
    {
      var t := WithCells(Value(), name, cells);
      columns, rows := t.columns, t.rows;
    }

    /** `df.loc[mask, cols] = df.loc[mask, cols] * 2` for the scale columns present. */
    method RescaleEarlyRows()
      requires WellFormed(Value()) && "Timestamp" in columns
      modifies this
      ensures Value() == Rescale(old(Value()))
    {
      rows := Rescale(Value()).rows;
    }
  }

  // ---------------------------------------------------------------------------
  // Timestamps

  /** `pd.to_datetime(df['Timestamp'], errors='coerce')`: an unparsable stamp becomes missing. */
  function StampCells(t: Table, parse: Cell -> Option<Instant>): (r: seq<Cell>)
    requires WellFormed(t) && "Timestamp" in t.columns
    ensures |r| == |t.rows|
    ensures forall i :: 0 <= i < |r| ==> (r[i].Stamp? || r[i].Missing?)
  {
    seq(|t.rows|, i requires 0 <= i < |t.rows| => StampCell(parse(t.rows[i]["Timestamp"])))
  }

  /** A column derived from each row's parsed stamp; a missing stamp gives a missing value. */
  function DerivedCells(t: Table, f: Instant -> Cell): (r: seq<Cell>)
    requires WellFormed(t) && "Timestamp" in t.columns
    ensures |r| == |t.rows|
  {
    seq(|t.rows|, i requires 0 <= i < |t.rows| =>
      if t.rows[i]["Timestamp"].Stamp? then f(t.rows[i]["Timestamp"].t) else Missing)
  }

  /** Lines 31-33: the parsed `Timestamp`, then `week` and `year-week` derived from it. */
  function ParseTimestamps(t: Table, parse: Cell -> Option<Instant>, isoWeek: Instant -> int,
                           yearWeek: Instant -> string): (r: Table)
    requires WellFormed(t) && "Timestamp" in t.columns
    ensures WellFormed(r) && |r.rows| == |t.rows| && "Timestamp" in r.columns
  {
    var t1 := WithCells(t, "Timestamp", StampCells(t, parse));
    var t2 := WithCells(t1, "week", DerivedCells(t1, (d: Instant) => Int(isoWeek(d))));
    WithCells(t2, "year-week", DerivedCells(t2, (d: Instant) => Text(yearWeek(d))))
  }

  /** What the timestamp step does to each row. */
  lemma ParseTimestampsRows(t: Table, parse: Cell -> Option<Instant>, isoWeek: Instant -> int,
                            yearWeek: Instant -> string, i: nat)
    requires WellFormed(t) && "Timestamp" in t.columns && i < |t.rows|
    ensures var r := ParseTimestamps(t, parse, isoWeek, yearWeek);
            var d := parse(t.rows[i]["Timestamp"]);
            && r.columns == WithColumn(WithColumn(t.columns, "week"), "year-week")
            && r.rows[i]["Timestamp"] == StampCell(d)
            && r.rows[i]["week"] == (if d.Some? then Int(isoWeek(d.value)) else Missing)
            && r.rows[i]["year-week"] == (if d.Some? then Text(yearWeek(d.value)) else Missing)
            && forall c :: c in t.columns && c !in ["Timestamp", "week", "year-week"] ==> r.rows[i][c] == t.rows[i][c]
  {
    var t1 := WithCells(t, "Timestamp", StampCells(t, parse));
    var t2 := WithCells(t1, "week", DerivedCells(t1, (d: Instant) => Int(isoWeek(d))));
    assert t1.rows[i]["Timestamp"] == StampCell(parse(t.rows[i]["Timestamp"]));
    assert t2.rows[i]["Timestamp"] == t1.rows[i]["Timestamp"];
  }

  // ---------------------------------------------------------------------------
  // Rescaling

  /** `[col for col in cols if col in df.columns]`, in the order of `cols`. */
  function Present(cols: seq<string>, columns: seq<string>): (r: seq<string>)
    ensures forall c :: c in r <==> c in cols && c in columns
    ensures |r| <= |cols|
    ensures cols != [] && cols[0] in columns ==> r != [] && r[0] == cols[0]
  {
    if cols == [] then []
    else (if cols[0] in columns then [cols[0]] else []) + Present(cols[1..], columns)
  }

  /**
   * The filter keeps the order of `cols`: filtering two runs of names one
   * after the other gives the survivors of the first followed by those of
   * the second, and a single name survives exactly when the table has it.
   */
  lemma {:induction false} PresentInOrder(a: seq<string>, b: seq<string>, columns: seq<string>)
    ensures Present(a + b, columns) == Present(a, columns) + Present(b, columns)
    ensures |a| == 1 ==> Present(a, columns) == (if a[0] in columns then a else [])
  {
    if a != [] {
      assert (a + b)[0] == a[0] && (a + b)[1..] == a[1..] + b;
      PresentInOrder(a[1..], b, columns);
    } else {
      assert a + b == b;
    }
    if |a| == 1 {
      assert a[1..] == [];
    }
  }

  /** The row's stamp parsed and is strictly before the cutover; a missing stamp compares false. */
  predicate Early(r: Row)
    requires "Timestamp" in r
  {
    r["Timestamp"].Stamp? && Before(r["Timestamp"].t, Cutover)
  }

  /** `value * 2` as Python evaluates it on the values a sheet yields: integers double, strings repeat. */
  function Double(c: Cell): Cell {
    match c
    case Int(i) => Int(2 * i)
    case Text(s) => Text(s + s)
    case _ => c
  }

  function RescaleRow(r: Row, cols: seq<string>): Row
    requires "Timestamp" in r
  {
    map c | c in r :: if c in cols && Early(r) then Double(r[c]) else r[c]
  }

  function Rescale(t: Table): (r: Table)
    requires WellFormed(t) && "Timestamp" in t.columns
    ensures WellFormed(r) && r.columns == t.columns && |r.rows| == |t.rows|
  {
    var present := Present(ScaleColumns, t.columns);
    Table(t.columns, seq(|t.rows|, i requires 0 <= i < |t.rows| => RescaleRow(t.rows[i], present)))
  }

  /**
   * A scale column is doubled exactly in the rows stamped before the cutover;
   * later rows, rows whose stamp did not parse and all other columns are left
   * alone, and a scale column the table lacks is simply skipped.
   */
  lemma RescaleMeaning(t: Table, i: nat, c: string)
    requires WellFormed(t) && "Timestamp" in t.columns && i < |t.rows| && c in t.columns
    ensures var r := Rescale(t);
            && (c in ScaleColumns && Early(t.rows[i]) ==> r.rows[i][c] == Double(t.rows[i][c]))
            && (c !in ScaleColumns || !Early(t.rows[i]) ==> r.rows[i][c] == t.rows[i][c])
  {
  }

  // ---------------------------------------------------------------------------
  // Blank cells and empty columns

  /** `replace(r'^\s*$', pd.NA, regex=True)` on one cell: only strings of whitespace match. */
  function Blank(c: Cell): (r: Cell)
    ensures !(r.Text? && AllSpace(r.s))
    ensures r != c ==> r == Missing && c.Text?
    ensures c.Text? && !AllSpace(c.s) ==> r == c
  {
    if c.Text? && AllSpace(c.s) then Missing else c
  }

  function BlankRow(r: Row): (b: Row)
    ensures forall c :: c in b <==> c in r
    ensures forall c :: c in r ==> b[c] == Blank(r[c])
  {
    map c | c in r :: Blank(r[c])
  }

  function BlankToMissing(t: Table): (r: Table)
    requires WellFormed(t)
    ensures WellFormed(r) && r.columns == t.columns && |r.rows| == |t.rows|
    ensures forall i, c :: 0 <= i < |r.rows| && c in r.columns ==> r.rows[i][c] == Blank(t.rows[i][c])
  {
    Table(t.columns, seq(|t.rows|, i requires 0 <= i < |t.rows| => BlankRow(t.rows[i])))
  }

  /** Some row holds a value in column `c`. */
  predicate HasValue(t: Table, c: string)
    requires WellFormed(t) && c in t.columns
  {
    exists i :: 0 <= i < |t.rows| && t.rows[i][c] != Missing
  }

  /** The columns of `cols` that hold a value, in order. */
  function Kept(t: Table, cols: seq<string>): (r: seq<string>)
    requires WellFormed(t) && forall c :: c in cols ==> c in t.columns
    ensures forall c :: c in r <==> c in cols && HasValue(t, c)
    ensures Distinct(cols) ==> Distinct(r)
  {
    if cols == [] then []
    else
      var rest := Kept(t, cols[1..]);
      assert forall c :: c in cols[1..] ==> c in cols;
      if HasValue(t, cols[0]) then [cols[0]] + rest else rest
  }

  /** `dropna(axis=1, how='all')`. */
  function DropEmptyColumns(t: Table): (r: Table)
    requires WellFormed(t)
    ensures WellFormed(r) && |r.rows| == |t.rows|
    ensures forall c :: c in r.columns <==> c in t.columns && HasValue(t, c)
    ensures forall i, c :: 0 <= i < |r.rows| && c in r.columns ==> r.rows[i][c] == t.rows[i][c]
  {
    var kept := Kept(t, t.columns);
    Table(kept, seq(|t.rows|, i requires 0 <= i < |t.rows| => Restrict(t.rows[i], kept)))
  }

  /** The row cut down to the given columns. */
  function Restrict(r: Row, kept: seq<string>): (k: Row)
    ensures forall c :: c in k <==> c in r && c in kept
    ensures forall c :: c in k ==> k[c] == r[c]
  {
    map c | c in r && c in kept :: r[c]
  }

  // ---------------------------------------------------------------------------
  // Casting and the Guide column

  /** What `astype('Int64')` accepts: integers and missing values. */
  predicate Castable(c: Cell) {
    c.Int? || c.Missing?
  }

  predicate CastableColumn(t: Table, c: string)
    requires WellFormed(t) && c in t.columns
  {
    forall i :: 0 <= i < |t.rows| ==> Castable(t.rows[i][c])
  }

  /** The first of `cols` whose cells `astype('Int64')` refuses, if any. */
  function FirstUncastable(t: Table, cols: seq<string>): (r: Option<string>)
    requires WellFormed(t) && forall c :: c in cols ==> c in t.columns
    ensures r.None? <==> forall c :: c in cols ==> CastableColumn(t, c)
    ensures r.Some? ==> r.value in cols && !CastableColumn(t, r.value)
  {
    if cols == [] then None
    else if !CastableColumn(t, cols[0]) then Some(cols[0])
    else
      assert forall c :: c in cols[1..] ==> c in cols;
      var r := FirstUncastable(t, cols[1..]);
      assert forall c :: c in cols ==> c == cols[0] || c in cols[1..];
      r
  }

  /** `astype({col: 'Int64' for col in cols_quant})`. */
  function CastQuant(t: Table): (r: Result<Table, Error>)
    requires WellFormed(t)
    ensures r.Success? <==> forall c :: c in QuantColumns && c in t.columns ==> CastableColumn(t, c)
    ensures r.Success? ==> r.value == t
    ensures r.Failure? ==> r.error.CastError? && r.error.column in QuantColumns && r.error.column in t.columns
                           && !CastableColumn(t, r.error.column)
  {
    var present := Present(QuantColumns, t.columns);
    var bad := FirstUncastable(t, present);
    if bad.Some? then Failure(CastError(bad.value)) else Success(t)
  }

  /** `df['Guide'] = df[cols_guide[0]]`, where `cols_guide` are the guide columns present. */
  function AttributeGuide(t: Table): (r: Result<Table, Error>)
    requires WellFormed(t)
    ensures r.Failure? <==> GuideColumns[0] !in t.columns && GuideColumns[1] !in t.columns
    ensures r.Failure? ==> r.error == IndexError
    ensures r.Success? ==>
              var g := if GuideColumns[0] in t.columns then GuideColumns[0] else GuideColumns[1];
              && WellFormed(r.value) && |r.value.rows| == |t.rows|
              && r.value.columns == WithColumn(t.columns, "Guide")
              && (forall i :: 0 <= i < |t.rows| ==> r.value.rows[i]["Guide"] == t.rows[i][g])
              && (forall i, c :: 0 <= i < |t.rows| && c in t.columns && c != "Guide" ==> r.value.rows[i][c] == t.rows[i][c])
  {
    var present := Present(GuideColumns, t.columns);
    if present == [] then Failure(IndexError)
    else
      var g := present[0];
      assert g in GuideColumns;
      Success(WithCells(t, "Guide", seq(|t.rows|, i requires 0 <= i < |t.rows| => t.rows[i][g])))
  }

  /** Lines 45-65, on the frame the in-place steps left behind. */
  function Tidy(t: Table): (r: Result<Table, Error>)
    requires WellFormed(t)
    ensures r.Success? ==> WellFormed(r.value) && |r.value.rows| == |t.rows| && "Guide" in r.value.columns
  {
    Finish(DropEmptyColumns(BlankToMissing(t)))
  }

  /**
   * Lines 49-65: the cast, then `describe()` of the quantitative columns,
   * which raises when none is left, then the `Guide` column.
   */
  function Finish(t: Table): (r: Result<Table, Error>)
    requires WellFormed(t)
    ensures r == Failure(NothingToDescribe) <==> CastQuant(t).Success? && Present(QuantColumns, t.columns) == []
    ensures r.Success? ==> WellFormed(r.value) && |r.value.rows| == |t.rows|
                           && r.value.columns == WithColumn(t.columns, "Guide")
  {
    var cast := CastQuant(t);
    if cast.Failure? then cast
    else if Present(QuantColumns, t.columns) == [] then Failure(NothingToDescribe)
    else AttributeGuide(cast.value)
  }

  // ---------------------------------------------------------------------------
  // The whole cleaning

  /**
   * `clean_responses`. The timestamp columns and the rescaling are applied to
   * the caller's frame itself; the rest yields a new frame, returned on success.
   */
  method CleanResponses(df: DataFrame, parse: Cell -> Option<Instant>, isoWeek: Instant -> int,
                        yearWeek: Instant -> string) returns (r: Result<Table, Error>)
    requires WellFormed(df.Value())
    modifies df
    ensures "Timestamp" !in old(df.columns) ==>
              r == Failure(KeyError("Timestamp")) && df.Value() == old(df.Value())
    ensures "Timestamp" in old(df.columns) ==>
              var staged := Rescale(ParseTimestamps(old(df.Value()), parse, isoWeek, yearWeek));
              df.Value() == staged && r == Tidy(staged)
  {
    if "Timestamp" !in df.columns {
      return Failure(KeyError("Timestamp"));
    }
    df.SetColumn("Timestamp", StampCells(df.Value(), parse));
    df.SetColumn("week", DerivedCells(df.Value(), (d: Instant) => Int(isoWeek(d))));
    df.SetColumn("year-week", DerivedCells(df.Value(), (d: Instant) => Text(yearWeek(d))));
    df.RescaleEarlyRows();
    var t := df.Value();
    t := BlankToMissing(t);
    t := DropEmptyColumns(t);
    var cast := CastQuant(t);
    if cast.Failure? {
      return cast;
    }
    if Present(QuantColumns, t.columns) == [] {
      return Failure(NothingToDescribe);
    }
    r := AttributeGuide(cast.value);
  }

  /** `attribute_topics`: the frame is returned as it came. */
  function AttributeTopics(t: Table): (r: Table)
    ensures r == t
  {
    t
  }

  // ---------------------------------------------------------------------------
  // Properties of the whole cleaning

  /** Cleaning drops columns, never rows. */
  lemma TidyKeepsRows(t: Table)
    requires WellFormed(t)
    ensures Tidy(t).Success? ==> WellFormed(Tidy(t).value) && |Tidy(t).value.rows| == |t.rows|
  {
  }

  /** After cleaning no cell is a string of whitespace, the `Guide` column included. */
  lemma TidyLeavesNoBlank(t: Table, i: nat, c: string)
    requires WellFormed(t)
    requires Tidy(t).Success? && i < |Tidy(t).value.rows| && c in Tidy(t).value.columns
    ensures !(Tidy(t).value.rows[i][c].Text? && AllSpace(Tidy(t).value.rows[i][c].s))
  {
    var b := BlankToMissing(t);
    var d := DropEmptyColumns(b);
    var r := Tidy(t).value;
    var g := if GuideColumns[0] in d.columns then GuideColumns[0] else GuideColumns[1];
    if c == "Guide" {
      assert r.rows[i][c] == d.rows[i][g] == b.rows[i][g];
    } else {
      assert c in d.columns;
      assert r.rows[i][c] == d.rows[i][c] == b.rows[i][c];
    }
  }

  /** A column is dropped exactly when every row is missing or blank there. */
  lemma DroppedColumns(t: Table, c: string)
    requires WellFormed(t) && c in t.columns
    ensures c in DropEmptyColumns(BlankToMissing(t)).columns <==>
              exists i :: 0 <= i < |t.rows| && Blank(t.rows[i][c]) != Missing
  {
    var b := BlankToMissing(t);
    assert Column(b, c) == seq(|t.rows|, i requires 0 <= i < |t.rows| => Blank(t.rows[i][c]));
    assert HasValue(b, c) <==> exists i :: 0 <= i < |b.rows| && Column(b, c)[i] != Missing;
  }

  /** The cast and the `Guide` column leave every other column as it was. */
  lemma FinishKeeps(t: Table, i: nat, c: string)
    requires WellFormed(t) && i < |t.rows| && c in t.columns && c != "Guide"
    ensures Finish(t).Success? ==> c in Finish(t).value.columns && Finish(t).value.rows[i][c] == t.rows[i][c]
  {
  }

  /** A value outside the `Guide` column that is neither missing nor blank survives cleaning unchanged. */
  lemma TidyKeepsValue(t: Table, i: nat, c: string)
    requires WellFormed(t) && i < |t.rows| && c in t.columns && c != "Guide"
    requires Blank(t.rows[i][c]) == t.rows[i][c] != Missing
    ensures Tidy(t).Success? ==> c in Tidy(t).value.columns && Tidy(t).value.rows[i][c] == t.rows[i][c]
  {
    var b := BlankToMissing(t);
    assert b.rows[i][c] == t.rows[i][c];
    assert HasValue(b, c);
    FinishKeeps(DropEmptyColumns(b), i, c);
  }

  /**
   * Cleaning raises the `describe()` error exactly when every quantitative
   * column the table has is missing or blank in every row, so that the
   * empty-column drop removes them all.
   */
  lemma NothingToDescribeMeaning(t: Table)
    requires WellFormed(t)
    ensures Tidy(t) == Failure(NothingToDescribe) <==>
              forall c, i :: c in QuantColumns && c in t.columns && 0 <= i < |t.rows| ==> Blank(t.rows[i][c]) == Missing
  {
    var d := DropEmptyColumns(BlankToMissing(t));
    NoQuantLeft(t);
    if forall c :: c in QuantColumns ==> c !in d.columns {
      forall c, i | c in QuantColumns && c in t.columns && 0 <= i < |t.rows|
        ensures Blank(t.rows[i][c]) == Missing
      {
        DroppedColumns(t, c);
      }
    }
    if forall c, i :: c in QuantColumns && c in t.columns && 0 <= i < |t.rows| ==> Blank(t.rows[i][c]) == Missing {
      forall c | c in QuantColumns
        ensures c !in d.columns
      {
        if c in t.columns {
          DroppedColumns(t, c);
        }
      }
    }
  }

  /** The `describe()` error is raised exactly when no quantitative column survives the drop. */
  lemma NoQuantLeft(t: Table)
    requires WellFormed(t)
    ensures Tidy(t) == Failure(NothingToDescribe) <==>
              forall c :: c in QuantColumns ==> c !in DropEmptyColumns(BlankToMissing(t)).columns
  {
    var d := DropEmptyColumns(BlankToMissing(t));
    var p := Present(QuantColumns, d.columns);
    if p == [] {
      assert CastQuant(d).Success?;
    } else {
      assert p[0] in QuantColumns && p[0] in d.columns;
    }
  }

  /** A frame without rows loses every column to the drop, so cleaning it raises the `describe()` error. */
  lemma NoRowsNothingToDescribe(t: Table)
    requires WellFormed(t) && t.rows == []
    ensures Tidy(t) == Failure(NothingToDescribe)
  {
    NothingToDescribeMeaning(t);
  }

  /** No scale question shares its name with a column the cleaning derives. */
  lemma ScaleColumnsAreAnswers(c: string)
    requires c in ScaleColumns
    ensures c !in ["Timestamp", "week", "year-week", "Guide"]
  {
    assert |c| > 9;
  }

  /**
   * End to end: an integer answer `v` on the old scale, in a response stamped
   * before the cutover, comes out as `2 * v` whenever cleaning succeeds.
   */
  lemma OldScaleDoubled(t: Table, parse: Cell -> Option<Instant>, isoWeek: Instant -> int,
                        yearWeek: Instant -> string, i: nat, c: string, v: int)
    requires WellFormed(t) && "Timestamp" in t.columns && i < |t.rows|
    requires c in ScaleColumns && c in t.columns && t.rows[i][c] == Int(v)
    requires var d := parse(t.rows[i]["Timestamp"]); d.Some? && Before(d.value, Cutover)
    ensures var r := Tidy(Rescale(ParseTimestamps(t, parse, isoWeek, yearWeek)));
            r.Success? ==> c in r.value.columns && r.value.rows[i][c] == Int(2 * v)
  {
    var p := ParseTimestamps(t, parse, isoWeek, yearWeek);
    ParseTimestampsRows(t, parse, isoWeek, yearWeek, i);
    ScaleColumnsAreAnswers(c);
    assert p.rows[i][c] == Int(v);
    RescaleMeaning(p, i, c);
    TidyKeepsValue(Rescale(p), i, c);
  }
}
