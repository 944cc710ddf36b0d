/**
 * The column widths written when a table is saved to a spreadsheet: every
 * data column is as wide as its longest value or its header, whichever is
 * longer, plus two; when the index is written it takes column A (position 1)
 * and shifts the data columns one position to the right.
 *
 * The cells arrive already converted to text (`astype(str)`); pandas' text
 * forms of numbers, missing values and dates are not part of this model.
 */
module ExcelLayout {
  import opened Wrappers

  /** A column of the saved table: its header and its cells as text. */
  datatype Column = Column(name: string, cells: seq<string>)

  function Max(a: nat, b: nat): nat {
    if a >= b then a else b
  }

  /**
   * `series.map(len).max()`: the longest length, or `None` for an empty
   * series, where pandas yields NaN.
   */
  function MaxLen(cells: seq<string>): (r: Option<nat>)
    ensures r.None? <==> cells == []
    ensures r.Some? ==> forall i :: 0 <= i < |cells| ==> |cells[i]| <= r.value
    ensures r.Some? ==> exists i :: 0 <= i < |cells| && |cells[i]| == r.value
  {
    if cells == [] then None
    else
      var last := |cells[|cells| - 1]|;
      match MaxLen(cells[..|cells| - 1])
      case None => Some(last)
      case Some(m) => Some(Max(m, last))
  }

  /**
   * `max(longest, len(header)) + 2`. Python's `max` keeps its first argument
   * when the second does not exceed it, and nothing exceeds NaN, so a column
   * without cells gets no width.
   */
  function Width(header: string, cells: seq<string>): (w: Option<nat>)
    ensures w.None? <==> cells == []
    ensures w.Some? ==> w.value >= |header| + 2 && forall i :: 0 <= i < |cells| ==> w.value >= |cells[i]| + 2
    ensures w.Some? ==> w.value == |header| + 2 || exists i :: 0 <= i < |cells| && w.value == |cells[i]| + 2
  {
    match MaxLen(cells)
    case None => None
    case Some(m) => Some(Max(m, |header|) + 2)
  }

  /** `col_offset`. */
  function Offset(index: bool): (o: nat)
    ensures o == 1 <==> index
    ensures o == 0 <==> !index
  {
    if index then 1 else 0
  }

  /** `idx + 1 + col_offset`: the 1-based spreadsheet column of data column `idx`. */
  function Position(idx: nat, index: bool): (p: nat)
    ensures p >= 1 && (index ==> p >= 2)
    ensures p - 1 - Offset(index) == idx
  {
    idx + 1 + Offset(index)
  }

  /** The widths the loop over the data columns writes, by position. */
  function ColumnWidths(columns: seq<Column>, index: bool): (m: map<nat, Option<nat>>)
    ensures forall p :: p in m <==> exists idx :: 0 <= idx < |columns| && p == Position(idx, index)
  {
    if columns == [] then map[]
    else
      var init := columns[..|columns| - 1];
      var last := columns[|columns| - 1];
      var m := ColumnWidths(init, index);
      assert forall idx :: 0 <= idx < |init| ==> init[idx] == columns[idx];
      m[Position(|init|, index) := Width(last.name, last.cells)]
  }

  /** Data column `idx` gets the width of its own header and cells. */
  lemma {:induction false} ColumnWidthAt(columns: seq<Column>, index: bool, idx: nat)
    requires idx < |columns|
    ensures Position(idx, index) in ColumnWidths(columns, index)
    ensures ColumnWidths(columns, index)[Position(idx, index)] == Width(columns[idx].name, columns[idx].cells)
  {
    var init := columns[..|columns| - 1];
    if idx < |init| {
      ColumnWidthAt(init, index, idx);
      assert init[idx] == columns[idx];
    }
  }

  /** `str(df.index.name)`: a nameless index prints as `None`. */
  function IndexHeader(indexName: Option<string>): string {
    indexName.GetOr("None")
  }

  /** A worksheet's column widths by 1-based position; unset positions keep the default. */
  class Worksheet {
    var widths: map<nat, Option<nat>>

    constructor ()
      ensures widths == map[]
    {
      widths := map[];
    }

    /** `worksheet.column_dimensions[letter].width = w`. */
    method SetWidth(position: nat, w: Option<nat>)
      modifies this
      ensures widths == old(widths)[position := w]
    {
      widths := widths[position := w];
    }
  }

  /** All the widths `save_excel_with_autofit` sets. */
  function Layout(columns: seq<Column>, index: bool, indexName: Option<string>, indexLabels: seq<string>): (m: map<nat, Option<nat>>)
    ensures forall p :: p in m <==> (index && p == 1) || exists idx :: 0 <= idx < |columns| && p == Position(idx, index)
  {
    var data := ColumnWidths(columns, index);
    if index then map[1 := Width(IndexHeader(indexName), indexLabels)] + data else data
  }

  /**
   * The width-setting part of `save_excel_with_autofit`, on the sheet the
   * table was written to; `indexLabels` are the index values as text.
   */
  method Autofit(ws: Worksheet, columns: seq<Column>, index: bool, indexName: Option<string>, indexLabels: seq<string>)
    modifies ws
    ensures ws.widths == old(ws.widths) + Layout(columns, index, indexName, indexLabels)
  {
    ghost var start := ws.widths;
    var offset := Offset(index);
    if index {
      ws.SetWidth(1, Width(IndexHeader(indexName), indexLabels));
    }
    ghost var before := ws.widths;
    for idx := 0 to |columns|
      invariant ws.widths == before + ColumnWidths(columns[..idx], index)
    {
      assert columns[..idx + 1][..idx] == columns[..idx];
      var col := columns[idx];
      ws.SetWidth(idx + 1 + offset, Width(col.name, col.cells));
      MapUnionUpdate(before, ColumnWidths(columns[..idx], index), Position(idx, index), Width(col.name, col.cells));
    }
    assert columns[..|columns|] == columns;
    if index {
      assert before == start[1 := Width(IndexHeader(indexName), indexLabels)];
      MapUnionShift(start, 1, Width(IndexHeader(indexName), indexLabels), ColumnWidths(columns, index));
    } else {
      assert before == start;
    }
  }

  lemma MapUnionUpdate<K, V>(m: map<K, V>, d: map<K, V>, k: K, v: V)
    ensures (m + d)[k := v] == m + d[k := v]
  {
  }

  lemma MapUnionShift<K, V>(m: map<K, V>, k: K, v: V, d: map<K, V>)
    ensures m[k := v] + d == m + (map[k := v] + d)
  {
  }

  /**
   * With the index written, column A holds the index width and every data
   * column sits one position further right; without it, column A is the
   * first data column's.
   */
  lemma IndexColumn(columns: seq<Column>, indexName: Option<string>, indexLabels: seq<string>)
    ensures var l := Layout(columns, true, indexName, indexLabels);
            1 in l && l[1] == Width(IndexHeader(indexName), indexLabels)
    ensures 1 in Layout(columns, false, indexName, indexLabels) <==> columns != []
  {
    var l := ColumnWidths(columns, true);
    assert 1 !in l;
    if columns != [] {
      assert Position(0, false) == 1;
    }
  }

  /**
   * No width the function sets is overwritten by a later one: in the final
   * layout every data column has the width of its own header and cells,
   * whether or not the index width was written first.
   */
  lemma LayoutKeepsEveryWidth(columns: seq<Column>, index: bool, indexName: Option<string>, indexLabels: seq<string>)
    ensures var l := Layout(columns, index, indexName, indexLabels);
            forall idx :: 0 <= idx < |columns| ==>
              Position(idx, index) in l && l[Position(idx, index)] == Width(columns[idx].name, columns[idx].cells)
  {
    forall idx | 0 <= idx < |columns|
      ensures Position(idx, index) in ColumnWidths(columns, index)
      ensures ColumnWidths(columns, index)[Position(idx, index)] == Width(columns[idx].name, columns[idx].cells)
    {
      ColumnWidthAt(columns, index, idx);
    }
  }
}
