/**
 * The tabular values the pipeline passes around. A data frame is an ordered
 * list of column names and one row per record; each row maps every column to
 * a cell, and a missing value (pandas' NA, NaN, None or NaT) is the cell
 * `Missing`.
 */
module Frames {
  import opened Wrappers

  /** A point in time: calendar date and second of the day. */
  datatype Instant = Instant(year: int, month: int, day: int, second: int)

  /** Strict chronological order on instants. */
  predicate Before(a: Instant, b: Instant) {
    || a.year < b.year
    || (a.year == b.year && a.month < b.month)
    || (a.year == b.year && a.month == b.month && a.day < b.day)
    || (a.year == b.year && a.month == b.month && a.day == b.day && a.second < b.second)
  }

  datatype Cell = Missing | Int(i: int) | Text(s: string) | Stamp(t: Instant)

  type Row = map<string, Cell>

  datatype Table = Table(columns: seq<string>, rows: seq<Row>)

  /**
   * The classes of values Python's `<` can compare with each other: numbers
   * (a missing value is the float NaN), strings and timestamps. Comparing
   * across classes raises TypeError.
   */
  function Kind(c: Cell): nat {
    match c
    case Missing => 0
    case Int(_) => 0
    case Text(_) => 1
    case Stamp(_) => 2
  }

  predicate Comparable(a: Cell, b: Cell) {
    Kind(a) == Kind(b)
  }

  /**
   * `sorted(cells)` returns rather than raising. A comparison sort compares
   * every two neighbours of its output, so it meets an incomparable pair
   * whenever there is one.
   */
  predicate Orderable(cells: seq<Cell>) {
    forall i, j :: 0 <= i < j < |cells| ==> Comparable(cells[i], cells[j])
  }

  /** Whether `sorted` raises depends only on which values occur, not on their positions. */
  lemma OrderableMembers(cells: seq<Cell>)
    ensures !Orderable(cells) <==> exists a, b :: a in cells && b in cells && !Comparable(a, b)
  {
    if exists a, b :: a in cells && b in cells && !Comparable(a, b) {
      var a, b :| a in cells && b in cells && !Comparable(a, b);
      var p :| 0 <= p < |cells| && cells[p] == a;
      var q :| 0 <= q < |cells| && cells[q] == b;
      if p < q {
        assert !Comparable(cells[p], cells[q]);
      } else {
        assert !Comparable(cells[q], cells[p]);
      }
    }
  }

  /**
   * The exceptions the modelled code can raise. `MissingColumn` is the
   * `ValueError` raised by an explicit column check, `MissingApiKey` the one
   * raised by a constructor without a key, `NothingToDescribe` the one pandas
   * raises when asked to describe a frame without columns, `TypeError` the
   * one `sorted()` raises on values of types it cannot compare.
   */
  datatype Error =
    | KeyError(key: string)
    | IndexError
    | CastError(column: string)
    | AttributeError(column: string)
    | MissingColumn(column: string)
    | MissingApiKey
    | NothingToDescribe
    | TypeError

  predicate Distinct<T(==)>(xs: seq<T>) {
    forall i, j :: 0 <= i < j < |xs| ==> xs[i] != xs[j]
  }

  predicate HasColumns(r: Row, columns: seq<string>) {
    (forall c :: c in r ==> c in columns) && (forall c :: c in columns ==> c in r)
  }

  /** Column names are distinct and every row has exactly the table's columns. */
  predicate WellFormed(t: Table) {
    Distinct(t.columns) && forall i :: 0 <= i < |t.rows| ==> HasColumns(t.rows[i], t.columns)
  }

  /** `df[c]` as a list of cells. */
  function Column(t: Table, c: string): (r: seq<Cell>)
    requires WellFormed(t) && c in t.columns
    ensures |r| == |t.rows| && forall i :: 0 <= i < |r| ==> r[i] == t.rows[i][c]
  {
    seq(|t.rows|, i requires 0 <= i < |t.rows| => t.rows[i][c])
  }

  /** `df[name] = ...`: an existing column keeps its place, a new one goes last. */
  function WithColumn(columns: seq<string>, name: string): (r: seq<string>)
    ensures name in r && forall c :: c in r <==> c in columns || c == name
    ensures name in columns ==> r == columns
    ensures name !in columns ==> r == columns + [name]
    ensures Distinct(columns) ==> Distinct(r)
  {
    if name in columns then columns else columns + [name]
  }

  /** `df[name] = cells`: an existing column is overwritten in place, a new one is appended. */
  function WithCells(t: Table, name: string, cells: seq<Cell>): (r: Table)
    requires WellFormed(t) && |cells| == |t.rows|
    ensures WellFormed(r) && |r.rows| == |t.rows|
    ensures r.columns == WithColumn(t.columns, name)
    ensures forall i :: 0 <= i < |r.rows| ==> r.rows[i][name] == cells[i]
    ensures forall i, c :: 0 <= i < |r.rows| && c in t.columns && c != name ==> r.rows[i][c] == t.rows[i][c]
  {
    Table(WithColumn(t.columns, name), seq(|t.rows|, i requires 0 <= i < |t.rows| => t.rows[i][name := cells[i]]))
  }

  /** A parsed date as a cell: `errors='coerce'` turns a failed parse into a missing value (NaT). */
  function StampCell(d: Option<Instant>): Cell {
    if d.Some? then Stamp(d.value) else Missing
  }

  /**
   * `series.dropna().unique()`: the values that are not missing, each once,
   * in order of first appearance.
   */
  function Unique(cells: seq<Cell>): (r: seq<Cell>)
    ensures Distinct(r) && |r| <= |cells|
    ensures forall c :: c in r <==> c != Missing && c in cells
    ensures |r| == |set c | c in cells && c != Missing|
  {
    if cells == [] then []
    else
      var init := cells[..|cells| - 1];
      var c := cells[|cells| - 1];
      assert cells == init + [c];
      UniqueStep(init, c, Unique(init));
      if c == Missing || c in Unique(init) then Unique(init) else Unique(init) + [c]
  }

  /** One more cell: `Unique` keeps its three properties. */
  lemma UniqueStep(init: seq<Cell>, c: Cell, u: seq<Cell>)
    requires Distinct(u) && |u| <= |init|
    requires forall x :: x in u <==> x != Missing && x in init
    requires |u| == |set x | x in init && x != Missing|
    ensures var r := if c == Missing || c in u then u else u + [c];
            && Distinct(r) && |r| <= |init| + 1
            && (forall x :: x in r <==> x != Missing && x in init + [c])
            && |r| == |set x | x in init + [c] && x != Missing|
  {
    var before := set x | x in init && x != Missing;
    var after := set x | x in init + [c] && x != Missing;
    forall x
      ensures x in after <==> x in before || (x == c && c != Missing)
    {
      assert x in init + [c] <==> x in init || x == c;
    }
    if c == Missing || c in u {
      assert after == before;
    } else {
      assert after == before + {c} && c !in before;
      assert Distinct(u + [c]) by {
        forall i | 0 <= i < |u| ensures u[i] != c {
          assert u[i] in u;
        }
      }
    }
  }
}
