/**
  The table layer (dataFrame/dataframe.go): a DataFrame is an ordered list of
  Series values together with a column count and a row count, which Size
  re-derives from the columns.

  `Frame` is the value of a DataFrame; the functions on `Frame` specify each
  operation, including the state an error leaves behind, and the lemmas
  state what the operations promise about them. The class `DataFrame` holds
  the same three fields and carries the operations as methods that update
  them in place, each proved equal to its specification function. The
  columns are kept by value, as Go keeps `[]series.Series`, and a method
  that changes a column goes through a `Series` object and its methods.

  A Go panic is `Err(Panic)` or `None`; an error return is `Err(Error)`.
 */
module DataFrames {
  import opened Wrappers
  import opened Strconv
  import opened Library
  import opened Elements
  import opened SeriesOps
  import Slices

  /** The value of a DataFrame: its columns and the counts last recorded. */
  datatype Frame = Frame(columns: seq<Column>, cols: nat, rows: nat)

  /** The invariant the table keeps: `cols` counts the columns and every column holds `rows` elements. */
  predicate Aligned(f: Frame) {
    f.cols == |f.columns| && forall j :: 0 <= j < |f.columns| ==> |f.columns[j].elements| == f.rows
  }

  /** Columns that all have the same length. */
  predicate SameLengths(cs: seq<Column>) {
    forall j, k :: 0 <= j < |cs| && 0 <= k < |cs| ==> |cs[j].elements| == |cs[k].elements|
  }

  /** Size: the number of columns, and the first column's length (0 without columns). */
  function Sized(f: Frame): Frame {
    Frame(f.columns, |f.columns|, if f.columns == [] then 0 else |f.columns[0].elements|)
  }

  /**
    Size makes the counts agree with the columns exactly when the columns
    have one common length, and it changes nothing in a table that already
    agrees and has a column.
   */
  lemma SizeAligns(f: Frame)
    ensures Aligned(Sized(f)) <==> SameLengths(f.columns)
    ensures Aligned(f) && f.columns != [] ==> Sized(f) == f
  {
  }

  // ---------------------------------------------------------------------------
  // Readers: Names, Types, Columns, Cell, Rows, Records
  // ---------------------------------------------------------------------------

  /** slices.IndexFunc by column name: the first column with the name, or -1. */
  function IndexOfName(cs: seq<Column>, name: string): (r: int)
    ensures -1 <= r < |cs|
    ensures r >= 0 ==> cs[r].name == name
    ensures forall j :: 0 <= j < |cs| && (r == -1 || j < r) ==> cs[j].name != name
  {
    if cs == [] then -1
    else if cs[0].name == name then 0
    else
      var r := IndexOfName(cs[1..], name);
      assert forall j :: 1 <= j < |cs| ==> cs[j] == cs[1..][j - 1];
      if r == -1 then -1 else r + 1
  }

  function NamesOf(cs: seq<Column>): (r: seq<string>)
    ensures |r| == |cs| && forall j :: 0 <= j < |cs| ==> r[j] == cs[j].name
  {
    seq(|cs|, j requires 0 <= j < |cs| => cs[j].name)
  }

  function TypesOf(cs: seq<Column>): (r: seq<string>)
    ensures |r| == |cs| && forall j :: 0 <= j < |cs| ==> r[j] == cs[j].t
  {
    seq(|cs|, j requires 0 <= j < |cs| => cs[j].t)
  }

  /** The zero Series: no name, no elements, no type. */
  const EmptyColumn := Column("", [], "", [])

  /** Columns(name): the first column with that name, or the zero Series. */
  function ColumnNamed(cs: seq<Column>, name: string): (r: Column)
    ensures (exists j :: 0 <= j < |cs| && cs[j].name == name) ==> r.name == name && r in cs
    ensures (forall j :: 0 <= j < |cs| ==> cs[j].name != name) ==> r == EmptyColumn
  {
    var i := IndexOfName(cs, name);
    if i == -1 then EmptyColumn else cs[i]
  }

  /** Cell(r, name): element r of the first column with that name; out of range (or no such column) panics. */
  function CellOf(f: Frame, r: int, name: string): (e: Option<Element>)
    ensures e.Some? <==> IndexOfName(f.columns, name) >= 0 && 0 <= r < |f.columns[IndexOfName(f.columns, name)].elements|
    ensures e.Some? ==> e.value == f.columns[IndexOfName(f.columns, name)].elements[r]
  {
    var c := ColumnNamed(f.columns, name);
    if 0 <= r < |c.elements| then Some(c.elements[r]) else None
  }

  /** In an aligned table every row of a present column has a cell. */
  lemma CellAligned(f: Frame, r: int, name: string)
    requires Aligned(f) && 0 <= r < f.rows
    requires exists j :: 0 <= j < |f.columns| && f.columns[j].name == name
    ensures CellOf(f, r, name).Some?
  {
  }

  /** Every column reaches position r. */
  predicate Reaches(cs: seq<Column>, r: int) {
    forall j :: 0 <= j < |cs| ==> 0 <= r < |cs[j].elements|
  }

  /** Row r as a map from column name to element, a later column overwriting an earlier one of the same name. */
  function RowMap(cs: seq<Column>, r: int): map<string, Element>
    requires Reaches(cs, r)
  {
    if cs == [] then map[]
    else RowMap(cs[..|cs| - 1], r)[cs[|cs| - 1].name := cs[|cs| - 1].elements[r]]
  }

  /**
    Rows(r): nil (None) at or past the recorded row count; otherwise the row
    as a map, and a panic when some column does not reach r.
   */
  function RowOf(f: Frame, r: int): Result<Option<map<string, Element>>, Failure> {
    if r >= f.rows then Ok(None)
    else if !Reaches(f.columns, r) then Err(Panic)
    else Ok(Some(RowMap(f.columns, r)))
  }

  /** The row map has one key per column name. */
  lemma {:induction false} RowMapKeys(cs: seq<Column>, r: int)
    requires Reaches(cs, r)
    ensures RowMap(cs, r).Keys == set j | 0 <= j < |cs| :: cs[j].name
    decreases |cs|
  {
    if cs != [] {
      var init := cs[..|cs| - 1];
      assert Reaches(init, r) by {
        assert forall j :: 0 <= j < |init| ==> init[j] == cs[j];
      }
      RowMapKeys(init, r);
      var names := set j | 0 <= j < |cs| :: cs[j].name;
      assert names == (set j | 0 <= j < |init| :: init[j].name) + {cs[|cs| - 1].name};
    }
  }

  /** Each name holds the cell of the last column with that name. */
  lemma {:induction false} RowMapValues(cs: seq<Column>, r: int)
    requires Reaches(cs, r)
    ensures forall j :: 0 <= j < |cs| && (forall k :: j < k < |cs| ==> cs[k].name != cs[j].name) ==>
      cs[j].name in RowMap(cs, r) && RowMap(cs, r)[cs[j].name] == cs[j].elements[r]
    decreases |cs|
  {
    if cs != [] {
      var n := |cs| - 1;
      var init := cs[..n];
      assert forall j :: 0 <= j < n ==> init[j] == cs[j];
      RowMapValues(init, r);
      var m := RowMap(init, r);
      assert RowMap(cs, r) == m[cs[n].name := cs[n].elements[r]];
      forall j | 0 <= j < n && (forall k :: j < k < |cs| ==> cs[k].name != cs[j].name)
        ensures cs[j].name in RowMap(cs, r) && RowMap(cs, r)[cs[j].name] == cs[j].elements[r]
      {
        assert cs[n].name != cs[j].name;
        assert forall k :: j < k < n ==> init[k].name != init[j].name;
        assert m[init[j].name] == init[j].elements[r];
      }
    }
  }

  /** In an aligned table Rows(r) of a row inside the table is that row's map. */
  lemma RowsAligned(f: Frame, r: int)
    requires Aligned(f) && 0 <= r < f.rows
    ensures RowOf(f, r) == Ok(Some(RowMap(f.columns, r)))
  {
  }

  /** Row i as text: each column's element i, rendered. */
  function RowText(cs: seq<Column>, i: int): (r: seq<string>)
    requires Reaches(cs, i)
    ensures |r| == |cs|
  {
    seq(|cs|, j requires 0 <= j < |cs| => Records(cs[j].elements[i]))
  }

  /** Column j as text, with its name in front when asked for. */
  function ColumnText(c: Column, hasColName: bool): seq<string> {
    (if hasColName then [c.name] else []) + RecordsOf(c)
  }

  /**
    Records: the table as text, row by row (the names first when asked for)
    or column by column (each headed by its name when asked for). Row by row
    reads `rows` rows from every column and panics (None) when a column is
    shorter.
   */
  function RecordsTable(f: Frame, isRow: bool, hasColName: bool): (r: Option<seq<seq<string>>>)
    ensures r.None? <==> isRow && f.rows > 0 && !Reaches(f.columns, f.rows - 1)
  {
    if isRow then
      if f.rows > 0 && !Reaches(f.columns, f.rows - 1) then None
      else Some((if hasColName then [NamesOf(f.columns)] else [])
        + seq(f.rows, i requires 0 <= i < f.rows => RowText(f.columns, i)))
    else Some(seq(|f.columns|, j requires 0 <= j < |f.columns| => ColumnText(f.columns[j], hasColName)))
  }

  /** In an aligned table the row-by-row text is the transpose of the column-by-column text. */
  lemma RecordsTranspose(f: Frame)
    requires Aligned(f)
    ensures RecordsTable(f, true, false).Some? && RecordsTable(f, false, false).Some?
    ensures |RecordsTable(f, true, false).value| == f.rows
    ensures |RecordsTable(f, false, false).value| == f.cols
    ensures forall i, j :: 0 <= i < f.rows && 0 <= j < f.cols ==>
      |RecordsTable(f, true, false).value[i]| == f.cols && |RecordsTable(f, false, false).value[j]| == f.rows &&
      RecordsTable(f, true, false).value[i][j] == RecordsTable(f, false, false).value[j][i]
  {
    var byRow, byCol := RecordsTable(f, true, false).value, RecordsTable(f, false, false).value;
    forall i, j | 0 <= i < f.rows && 0 <= j < f.cols
      ensures |byRow[i]| == f.cols && |byCol[j]| == f.rows && byRow[i][j] == byCol[j][i]
    {
      var t := Records(f.columns[j].elements[i]);
      assert byRow[i] == RowText(f.columns, i);
      assert byRow[i][j] == t;
      assert byCol[j] == [] + RecordsOf(f.columns[j]);
      assert byCol[j][i] == t;
    }
  }

  // ---------------------------------------------------------------------------
  // equalLength and LoadRecord
  // ---------------------------------------------------------------------------

  /**
    equalLength over the lengths of a slice's items: a zero base takes the
    next length, and every length must then equal the base.
   */
  function Uniform(lengths: seq<nat>, base: nat): bool
    decreases |lengths|
  {
    if lengths == [] then true
    else
      var b := if base == 0 then lengths[0] else base;
      b == lengths[0] && Uniform(lengths[1..], b)
  }

  /**
    With a nonzero base every length must be the base; with base 0 every
    length after a nonzero one must equal it, so leading empty items pass
    (lengths 0, 3 count as equal).
   */
  lemma {:induction false} UniformMeaning(lengths: seq<nat>, base: nat)
    ensures base > 0 ==> (Uniform(lengths, base) <==> forall i :: 0 <= i < |lengths| ==> lengths[i] == base)
    ensures base == 0 ==> (Uniform(lengths, base) <==>
      forall i, j :: 0 <= i < j < |lengths| && lengths[i] != 0 ==> lengths[j] == lengths[i])
    decreases |lengths|
  {
    if lengths != [] {
      var tail := lengths[1..];
      assert forall i :: 1 <= i < |lengths| ==> lengths[i] == tail[i - 1];
      if base > 0 {
        UniformMeaning(tail, base);
      } else if lengths[0] == 0 {
        UniformMeaning(tail, 0);
        if Uniform(tail, 0) {
          forall i, j | 0 <= i < j < |lengths| && lengths[i] != 0 ensures lengths[j] == lengths[i] {
            assert tail[i - 1] != 0 && tail[j - 1] == lengths[j];
          }
        }
      } else {
        UniformMeaning(tail, lengths[0]);
        if !Uniform(tail, lengths[0]) {
          var k :| 0 <= k < |tail| && tail[k] != lengths[0];
          assert lengths[k + 1] != lengths[0];
        }
      }
    }
  }

  function Lengths(rows: seq<seq<string>>): (r: seq<nat>)
    ensures |r| == |rows| && forall i :: 0 <= i < |rows| ==> r[i] == |rows[i]|
  {
    seq(|rows|, i requires 0 <= i < |rows| => |rows[i]|)
  }

  /** Every row has more than j cells. */
  predicate Wide(rows: seq<seq<string>>, j: nat) {
    forall i :: 0 <= i < |rows| ==> j < |rows[i]|
  }

  /** Column j of the data: cell j of every row, in row order. */
  function ColumnOfRows(rows: seq<seq<string>>, j: nat): (r: seq<string>)
    requires Wide(rows, j)
    ensures |r| == |rows| && forall i :: 0 <= i < |rows| ==> r[i] == rows[i][j]
  {
    seq(|rows|, i requires 0 <= i < |rows| => rows[i][j])
  }

  /**
    The part of LoadRecord after its count checks: the names (given, or taken
    from the first row, which is then dropped), then column j made by
    LoadRecords from cell j of every data row. A missing first row, a row
    without cell j, a missing name, or data for an unknown type panics. The
    counts are set directly, without Size.
   */
  function LoadColumns(rs: seq<seq<string>>, colsName: Option<seq<string>>, colsType: seq<string>): Result<Frame, Failure> {
    var maxCol := |colsType|;
    if colsName.Some? && maxCol != |colsName.value| then Err(Error)
    else if colsName.None? && rs == [] then Err(Panic)
    else
      var names := if colsName.Some? then colsName.value else rs[0];
      var data := if colsName.Some? then rs else rs[1..];
      if exists i :: 0 <= i < |data| && |data[i]| < maxCol then Err(Panic)
      else if |names| < maxCol then Err(Panic)
      else if |data| > 0 && exists j :: 0 <= j < maxCol && KindNamed(colsType[j]).None? then Err(Panic)
      else Ok(Frame(seq(maxCol, j requires 0 <= j < maxCol => LoadRecordsOf(ColumnOfRows(data, j), colsType[j], names[j]).value),
                    maxCol, |data|))
  }

  /**
    LoadRecord as written: nil rows and ragged rows are errors, and so is a
    number of ROWS different from the number of types.
   */
  function LoadRecordAsWritten(rows: Option<seq<seq<string>>>, colsName: Option<seq<string>>, colsType: seq<string>): Result<Frame, Failure> {
    match rows
    case None => Err(Error)
    case Some(rs) =>
      if !Uniform(Lengths(rs), 0) then Err(Error)
      else if |rs| != |colsType| then Err(Error)
      else LoadColumns(rs, colsName, colsType)
  }

  /**
    LoadRecord as evidently intended: the number of CELLS in a row (the
    number of columns) must be the number of types.
   */
  function LoadRecordOf(rows: Option<seq<seq<string>>>, colsName: Option<seq<string>>, colsType: seq<string>): Result<Frame, Failure> {
    match rows
    case None => Err(Error)
    case Some(rs) =>
      if !Uniform(Lengths(rs), 0) then Err(Error)
      else if |rs| > 0 && |rs[0]| != |colsType| then Err(Error)
      else LoadColumns(rs, colsName, colsType)
  }

  /** The data rows LoadRecord reads: all rows, or all but the first when the names come from it. */
  function DataRows(rs: seq<seq<string>>, colsName: Option<seq<string>>): seq<seq<string>> {
    if colsName.Some? || rs == [] then rs else rs[1..]
  }

  /** The column names LoadRecord uses. */
  function NamesUsed(rs: seq<seq<string>>, colsName: Option<seq<string>>): seq<string> {
    if colsName.Some? then colsName.value else if rs == [] then [] else rs[0]
  }

  /** Every row of uniform data whose first row has n > 0 cells has n cells. */
  lemma UniformRows(rs: seq<seq<string>>, n: nat)
    requires Uniform(Lengths(rs), 0) && |rs| > 0 && |rs[0]| == n && n > 0
    ensures forall i :: 0 <= i < |rs| ==> |rs[i]| == n
  {
    UniformMeaning(Lengths(rs), 0);
    assert forall i :: 0 < i < |rs| ==> Lengths(rs)[i] == |rs[i]|;
  }

  /**
    The corrected LoadRecord succeeds exactly for non-nil, rectangular rows
    with one cell per type, names that fit, and known types wherever there
    is data. The table is then aligned: one column per type, one row per
    data row, and column j is LoadRecords of cell j of every data row, under
    name j and type j.
   */
  lemma LoadRecordMeaning(rows: Option<seq<seq<string>>>, colsName: Option<seq<string>>, colsType: seq<string>)
    ensures LoadRecordOf(rows, colsName, colsType).Ok? <==>
      && rows.Some?
      && Uniform(Lengths(rows.value), 0)
      && (|rows.value| > 0 ==> |rows.value[0]| == |colsType|)
      && (colsName.Some? ==> |colsName.value| == |colsType|)
      && (colsName.None? ==> rows.value != [])
      && (DataRows(rows.value, colsName) != [] ==> forall j :: 0 <= j < |colsType| ==> KindNamed(colsType[j]).Some?)
    ensures LoadRecordOf(rows, colsName, colsType).Ok? ==>
      && Aligned(LoadRecordOf(rows, colsName, colsType).value)
      && LoadRecordOf(rows, colsName, colsType).value.cols == |colsType|
      && LoadRecordOf(rows, colsName, colsType).value.rows == |DataRows(rows.value, colsName)|
      && forall j :: 0 <= j < |colsType| ==>
           && Wide(DataRows(rows.value, colsName), j)
           && LoadRecordOf(rows, colsName, colsType).value.columns[j] ==
                LoadRecordsOf(ColumnOfRows(DataRows(rows.value, colsName), j), colsType[j], NamesUsed(rows.value, colsName)[j]).value
  {
    if rows.Some? && Uniform(Lengths(rows.value), 0) && (|rows.value| > 0 ==> |rows.value[0]| == |colsType|) {
      var rs := rows.value;
      if rs != [] && |colsType| > 0 {
        UniformRows(rs, |colsType|);
      }
      var data := DataRows(rs, colsName);
      assert forall i :: 0 <= i < |data| ==> |data[i]| >= |colsType| by {
        if colsName.None? && rs != [] {
          forall i | 0 <= i < |data| ensures |data[i]| >= |colsType| {
            assert data[i] == rs[i + 1];
          }
        }
      }
      if LoadRecordOf(rows, colsName, colsType).Ok? {
        var f := LoadRecordOf(rows, colsName, colsType).value;
        forall j | 0 <= j < |f.columns| ensures |f.columns[j].elements| == f.rows {
          var k := KindNamed(colsType[j]);
          if k.Some? {
            LoadRecordsMeaning(ColumnOfRows(data, j), colsType[j], NamesUsed(rs, colsName)[j], k.value);
          }
        }
      }
    }
  }

  /**
    The repository's own LoadRecord example: many rows of two cells each,
    two names and two types. As written the row count is compared with the
    type count and the call fails; the corrected check accepts it.
   */
  lemma LoadRecordAsWrittenRejects()
    ensures LoadRecordAsWritten(Some([["Join", "15963578965"], ["Join", "15963578965"], ["Join", "15963578965"]]),
                                Some(["name", "phone"]), ["string", "int"]) == Err(Error)
    ensures LoadRecordOf(Some([["Join", "15963578965"], ["Join", "15963578965"], ["Join", "15963578965"]]),
                         Some(["name", "phone"]), ["string", "int"]).Ok?
  {
    var rs := [["Join", "15963578965"], ["Join", "15963578965"], ["Join", "15963578965"]];
    assert Lengths(rs) == [2, 2, 2];
    assert Uniform([2, 2, 2], 0) by {
      assert [2, 2, 2][1..] == [2, 2] && [2, 2][1..] == [2] && [2][1..] == [];
    }
  }

  // ---------------------------------------------------------------------------
  // Set and AddRows
  // ---------------------------------------------------------------------------

  /** What Set receives: a positional []any, a map[string]any in its iteration order, or another type. */
  datatype RowValues = Positional(values: seq<Any>) | Named(entries: seq<(string, Any)>) | Unsupported

  /** Whether the change Set makes to one column succeeds. */
  predicate CellOk(c: Column, rows: nat, index: int, v: Any) {
    if index >= rows then AppendOf(c, v).1.None?
    else 0 <= index < |c.elements| && Set(c.elements[index], v).Some?
  }

  /** The column after that change: the value appended, or element `index` set from it. */
  function CellResult(c: Column, rows: nat, index: int, v: Any): Column
    requires CellOk(c, rows, index, v)
  {
    if index >= rows then AppendOf(c, v).0
    else c.(elements := c.elements[index := Set(c.elements[index], v).value])
  }

  /**
    Set on column i: at or past the recorded row count the value is appended
    (a failed Append keeps what it already appended and returns its error,
    or panics on nil);
    otherwise element `index` is set in place. A missing column, an index
    outside the column, or a non-scalar for a bool cell panics.
   */
  function SetCell(f: Frame, i: int, index: int, v: Any): (Frame, Option<Failure>) {
    if !(0 <= i < |f.columns|) then (f, Some(Panic))
    else if index >= f.rows then
      var (c, err) := AppendOf(f.columns[i], v);
      (f.(columns := f.columns[i := c]), err)
    else
      var c := f.columns[i];
      if !(0 <= index < |c.elements|) then (f, Some(Panic))
      else
        match Set(c.elements[index], v)
        case None => (f, Some(Panic))
        case Some(e) => (f.(columns := f.columns[i := c.(elements := c.elements[index := e])]), None)
  }

  /** The positional loop of Set from value i on, stopping at the first failure. */
  function SetPositional(f: Frame, index: int, vs: seq<Any>, i: nat): (Frame, Option<Failure>)
    requires i <= |vs|
    decreases |vs| - i
  {
    if i == |vs| then (f, None)
    else
      var (g, err) := SetCell(f, i, index, vs[i]);
      if err.Some? then (g, err) else SetPositional(g, index, vs, i + 1)
  }

  /** The map loop of Set from entry i on: an unknown column name is an error. */
  function SetNamed(f: Frame, index: int, entries: seq<(string, Any)>, i: nat): (Frame, Option<Failure>)
    requires i <= |entries|
    decreases |entries| - i
  {
    if i == |entries| then (f, None)
    else
      var j := IndexOfName(f.columns, entries[i].0);
      if j == -1 then (f, Some(Error))
      else
        var (g, err) := SetCell(f, j, index, entries[i].1);
        if err.Some? then (g, err) else SetNamed(g, index, entries, i + 1)
  }

  /** Size after a loop that did not fail. */
  function Finish(r: (Frame, Option<Failure>)): (Frame, Option<Failure>) {
    if r.1.None? then (Sized(r.0), None) else r
  }

  /**
    Set(index, values): a positional list must have `cols` values; a map is
    applied entry by entry; any other type is an error. Changes made before
    a failure stay; Size runs only on success.
   */
  function SetOf(f: Frame, index: int, values: RowValues): (Frame, Option<Failure>) {
    match values
    case Positional(vs) => if |vs| != f.cols then (f, Some(Error)) else Finish(SetPositional(f, index, vs, 0))
    case Named(entries) => Finish(SetNamed(f, index, entries, 0))
    case Unsupported => (f, Some(Error))
  }

  /** The columns after the positional changes from value i on. */
  function Updated(cs: seq<Column>, rows: nat, index: int, vs: seq<Any>, i: nat): (r: seq<Column>)
    requires |vs| <= |cs|
    requires forall j :: i <= j < |vs| ==> CellOk(cs[j], rows, index, vs[j])
    ensures |r| == |cs|
  {
    seq(|cs|, j requires 0 <= j < |cs| => if i <= j < |vs| then CellResult(cs[j], rows, index, vs[j]) else cs[j])
  }

  /**
    The positional loop succeeds exactly when every remaining column's change
    succeeds, and then each of those columns holds its changed value while
    the counts and the other columns stay.
   */
  lemma {:induction false} SetPositionalMeaning(f: Frame, index: int, vs: seq<Any>, i: nat)
    requires i <= |vs| <= |f.columns|
    ensures SetPositional(f, index, vs, i).1.None? <==> forall j :: i <= j < |vs| ==> CellOk(f.columns[j], f.rows, index, vs[j])
    ensures SetPositional(f, index, vs, i).1.None? ==>
      SetPositional(f, index, vs, i).0 == f.(columns := Updated(f.columns, f.rows, index, vs, i))
    ensures SetPositional(f, index, vs, i).1.Some? ==> exists j :: i <= j < |vs| && !CellOk(f.columns[j], f.rows, index, vs[j])
    decreases |vs| - i
  {
    if i < |vs| {
      var (g, err) := SetCell(f, i, index, vs[i]);
      if err.None? {
        assert g == f.(columns := f.columns[i := CellResult(f.columns[i], f.rows, index, vs[i])]);
        SetPositionalMeaning(g, index, vs, i + 1);
        if SetPositional(g, index, vs, i + 1).1.None? {
          assert Updated(g.columns, g.rows, index, vs, i + 1) == Updated(f.columns, f.rows, index, vs, i);
        }
      }
    } else {
      assert Updated(f.columns, f.rows, index, vs, i) == f.columns;
    }
  }

  /**
    Set of a whole row into an aligned table with columns: at or past the
    last row every column gains the element made from its value (one row
    more); inside the table every column's cell at `index` is set from its
    value and all other cells stay. The table stays aligned.
   */
  lemma SetRowMeaning(f: Frame, index: int, vs: seq<Any>)
    requires Aligned(f) && f.cols > 0 && |vs| == f.cols
    requires index >= f.rows ==> forall j :: 0 <= j < |vs| ==> IsScalar(vs[j]) || vs[j].Elem?
    requires index < f.rows ==> 0 <= index && forall j :: 0 <= j < |vs| ==> Set(f.columns[j].elements[index], vs[j]).Some?
    ensures SetOf(f, index, Positional(vs)).1.None?
    ensures Aligned(SetOf(f, index, Positional(vs)).0)
    ensures SetOf(f, index, Positional(vs)).0.rows == if index >= f.rows then f.rows + 1 else f.rows
    ensures SetOf(f, index, Positional(vs)).0.cols == f.cols
    ensures forall j :: 0 <= j < |vs| ==>
      SetOf(f, index, Positional(vs)).0.columns[j].elements ==
        if index >= f.rows then f.columns[j].elements + [Appended(vs[j]).value]
        else f.columns[j].elements[index := Set(f.columns[j].elements[index], vs[j]).value]
  {
    forall j | 0 <= j < |vs| ensures CellOk(f.columns[j], f.rows, index, vs[j]) {
      if index >= f.rows {
        AppendMeaning(f.columns[j], vs[j]);
        assert Flatten(vs[j]) == [vs[j]];
      }
    }
    SetPositionalMeaning(f, index, vs, 0);
    var cs := Updated(f.columns, f.rows, index, vs, 0);
    forall j | 0 <= j < |vs|
      ensures cs[j].elements == if index >= f.rows then f.columns[j].elements + [Appended(vs[j]).value]
        else f.columns[j].elements[index := Set(f.columns[j].elements[index], vs[j]).value]
    {
      if index >= f.rows {
        AppendMeaning(f.columns[j], vs[j]);
        assert Flatten(vs[j]) == [vs[j]];
        assert Made([vs[j]]) == [Appended(vs[j]).value];
      }
    }
  }

  /** The value the map gives `name` from entry i on, if any. */
  function EntryFor(entries: seq<(string, Any)>, i: nat, name: string): Option<Any>
    requires i <= |entries|
    decreases |entries| - i
  {
    if i == |entries| then None
    else if entries[i].0 == name then Some(entries[i].1)
    else EntryFor(entries, i + 1, name)
  }

  /** Whether one map entry's change succeeds: its key names a column, and the first column of that name takes the value. */
  predicate NamedOk(f: Frame, index: int, entry: (string, Any)) {
    var j := IndexOfName(f.columns, entry.0);
    j != -1 && CellOk(f.columns[j], f.rows, index, entry.1)
  }

  /**
    The columns after the map changes from entry i on: the first column of
    each name the map gives a value to holds that value's change; every
    other column stays.
   */
  function NamedUpdated(cs: seq<Column>, rows: nat, index: int, entries: seq<(string, Any)>, i: nat): (r: seq<Column>)
    requires i <= |entries|
    ensures |r| == |cs|
  {
    seq(|cs|, j requires 0 <= j < |cs| =>
      var e := EntryFor(entries, i, cs[j].name);
      if e.Some? && IndexOfName(cs, cs[j].name) == j && CellOk(cs[j], rows, index, e.value)
      then CellResult(cs[j], rows, index, e.value) else cs[j])
  }

  /** A key that no later entry repeats has no value there. */
  lemma {:induction false} EntryForAbsent(entries: seq<(string, Any)>, i: nat, name: string)
    requires i <= |entries| && forall k :: i <= k < |entries| ==> entries[k].0 != name
    ensures EntryFor(entries, i, name).None?
    decreases |entries| - i
  {
    if i < |entries| {
      EntryForAbsent(entries, i + 1, name);
    }
  }

  /** Columns with the same names, in the same order, give every name the same position. */
  lemma SameNamesSameIndex(cs: seq<Column>, ds: seq<Column>, name: string)
    requires |cs| == |ds| && forall j :: 0 <= j < |cs| ==> cs[j].name == ds[j].name
    ensures IndexOfName(cs, name) == IndexOfName(ds, name)
  {
  }

  /** The table after one successful map entry: the first column of its key changed. */
  function NamedStepOf(f: Frame, index: int, entry: (string, Any)): Frame
    requires NamedOk(f, index, entry)
  {
    var j := IndexOfName(f.columns, entry.0);
    f.(columns := f.columns[j := CellResult(f.columns[j], f.rows, index, entry.1)])
  }

  /**
    One successful entry keeps the names, so the later entries, whose keys
    differ, succeed or fail as before, and the changes still to come land
    where they would have.
   */
  lemma NamedStep(f: Frame, index: int, entries: seq<(string, Any)>, i: nat)
    requires i < |entries| && forall k :: i < k < |entries| ==> entries[k].0 != entries[i].0
    requires NamedOk(f, index, entries[i])
    ensures var g := NamedStepOf(f, index, entries[i]);
      && SetCell(f, IndexOfName(f.columns, entries[i].0), index, entries[i].1) == (g, None)
      && (forall k :: i < k < |entries| ==> NamedOk(g, index, entries[k]) == NamedOk(f, index, entries[k]))
      && NamedUpdated(g.columns, g.rows, index, entries, i + 1) == NamedUpdated(f.columns, f.rows, index, entries, i)
  {
    var name, v := entries[i].0, entries[i].1;
    var j := IndexOfName(f.columns, name);
    var g := NamedStepOf(f, index, entries[i]);
    assert g.columns[j].name == f.columns[j].name by {
      if index >= f.rows { AppendMeaning(f.columns[j], v); }
    }
    forall n { SameNamesSameIndex(g.columns, f.columns, n); }
    EntryForAbsent(entries, i + 1, name);
    var l, r := NamedUpdated(g.columns, g.rows, index, entries, i + 1), NamedUpdated(f.columns, f.rows, index, entries, i);
    forall q | 0 <= q < |l| ensures l[q] == r[q] {
      if q != j && f.columns[q].name != name {
        assert EntryFor(entries, i, f.columns[q].name) == EntryFor(entries, i + 1, f.columns[q].name);
      }
    }
  }

  /**
    With distinct keys, as a Go map has, the map loop succeeds exactly when
    every key names a column whose change succeeds; then the first column of
    each key holds its changed value while the counts and the other columns
    stay.
   */
  lemma {:induction false} SetNamedMeaning(f: Frame, index: int, entries: seq<(string, Any)>, i: nat)
    requires i <= |entries|
    requires forall a, b :: i <= a < b < |entries| ==> entries[a].0 != entries[b].0
    ensures SetNamed(f, index, entries, i).1.None? <==> forall k :: i <= k < |entries| ==> NamedOk(f, index, entries[k])
    ensures SetNamed(f, index, entries, i).1.None? ==>
      SetNamed(f, index, entries, i).0 == f.(columns := NamedUpdated(f.columns, f.rows, index, entries, i))
    decreases |entries| - i
  {
    if i == |entries| {
      assert NamedUpdated(f.columns, f.rows, index, entries, i) == f.columns;
    } else if NamedOk(f, index, entries[i]) {
      NamedStep(f, index, entries, i);
      SetNamedMeaning(NamedStepOf(f, index, entries[i]), index, entries, i + 1);
    } else {
      var j := IndexOfName(f.columns, entries[i].0);
      if j != -1 {
        assert SetCell(f, j, index, entries[i].1).1.Some?;
      }
    }
  }

  /** Set with a map naming a column the table lacks fails, whatever it applied before. */
  lemma {:induction false} SetNamedUnknown(f: Frame, index: int, entries: seq<(string, Any)>, i: nat, k: nat)
    requires i <= k < |entries| && forall j :: 0 <= j < |f.columns| ==> f.columns[j].name != entries[k].0
    ensures SetNamed(f, index, entries, i).1.Some?
    decreases |entries| - i
  {
    var j := IndexOfName(f.columns, entries[i].0);
    if i < k && j != -1 {
      var (g, err) := SetCell(f, j, index, entries[i].1);
      if err.None? {
        AppendMeaning(f.columns[j], entries[i].1);
        assert forall q :: 0 <= q < |g.columns| ==> g.columns[q].name == f.columns[q].name;
        SetNamedUnknown(g, index, entries, i + 1, k);
      }
    }
  }

  /**
    AddRows: every row must have `cols` values (equalLength with base cols),
    else an error with nothing changed; then each row is Set at the current
    row count in turn, and the first failure stops the loop, keeping the
    rows added before it.
   */
  function AddRowsOf(f: Frame, rows: seq<seq<Any>>): (Frame, Option<Failure>) {
    if !Uniform(seq(|rows|, i requires 0 <= i < |rows| => |rows[i]|), f.cols) then (f, Some(Error))
    else AddEach(f, rows, 0)
  }

  function AddEach(f: Frame, rows: seq<seq<Any>>, i: nat): (Frame, Option<Failure>)
    requires i <= |rows|
    decreases |rows| - i
  {
    if i == |rows| then (f, None)
    else
      var (g, err) := SetOf(f, f.rows, Positional(rows[i]));
      if err.Some? then (g, err) else AddEach(g, rows, i + 1)
  }

  /** Rows whose values each make one element. */
  predicate Appendable(rows: seq<seq<Any>>) {
    forall i, j :: 0 <= i < |rows| && 0 <= j < |rows[i]| ==> IsScalar(rows[i][j]) || rows[i][j].Elem?
  }

  /** The elements that value j of rows i.. makes, in row order. */
  function Added(rows: seq<seq<Any>>, j: nat, i: nat): (r: seq<Element>)
    requires i <= |rows| && Appendable(rows)
    requires forall q :: 0 <= q < |rows| ==> j < |rows[q]|
    ensures |r| == |rows| - i
    decreases |rows| - i
  {
    if i == |rows| then [] else [Appended(rows[i][j]).value] + Added(rows, j, i + 1)
  }

  /**
    AddRows of rows of `cols` scalar values into an aligned table with
    columns succeeds, keeps it aligned with one more row per added row, and
    appends to column j the elements made from value j of each row, in order.
   */
  lemma {:induction false} AddEachMeaning(f: Frame, rows: seq<seq<Any>>, i: nat)
    requires i <= |rows| && Aligned(f) && f.cols > 0 && Appendable(rows)
    requires forall r :: 0 <= r < |rows| ==> |rows[r]| == f.cols
    ensures AddEach(f, rows, i).1.None?
    ensures Aligned(AddEach(f, rows, i).0) && AddEach(f, rows, i).0.cols == f.cols
    ensures AddEach(f, rows, i).0.rows == f.rows + |rows| - i
    ensures forall j :: 0 <= j < f.cols ==>
      AddEach(f, rows, i).0.columns[j].elements == f.columns[j].elements + Added(rows, j, i)
    decreases |rows| - i
  {
    if i < |rows| {
      SetRowMeaning(f, f.rows, rows[i]);
      var g := SetOf(f, f.rows, Positional(rows[i])).0;
      AddEachMeaning(g, rows, i + 1);
    }
  }

  /** AddRows rejects a batch with a row whose length is not `cols` (when `cols` is not 0) and changes nothing. */
  lemma AddRowsRejects(f: Frame, rows: seq<seq<Any>>, r: nat)
    requires f.cols > 0 && r < |rows| && |rows[r]| != f.cols
    ensures AddRowsOf(f, rows) == (f, Some(Error))
  {
    var lengths := seq(|rows|, i requires 0 <= i < |rows| => |rows[i]|);
    UniformMeaning(lengths, f.cols);
    assert lengths[r] != f.cols;
  }

  // ---------------------------------------------------------------------------
  // AddCol, Concat, DropCols, Rename
  // ---------------------------------------------------------------------------

  /**
    What AddCol receives: a *Series, a Series value (which its type switch
    does not accept), or another value (a typed slice is accepted).
   */
  datatype ColumnArg = SeriesRef(s: Column) | SeriesValue(v: Column) | Values(values: Any)

  /** A Series' Copy, where a panic is Err(Panic). */
  function Copied(c: Column): Result<Column, Failure> {
    match CopyOf(c)
    case None => Err(Panic)
    case Some(d) => Ok(d)
  }

  /** n copies of a scalar slice value pad a typed slice; another default type panics the assertion. */
  function PadInts(ns: seq<Int64>, rows: nat, default: Option<Any>): Option<seq<Int64>> {
    if |ns| >= rows then Some(ns)
    else if default.Some? && default.value.IntV? then Some(ns + Repeat(default.value.i, rows - |ns|))
    else None
  }

  function PadStrs(ss: seq<string>, rows: nat, default: Option<Any>): Option<seq<string>> {
    if |ss| >= rows then Some(ss)
    else if default.Some? && default.value.Str? then Some(ss + Repeat(default.value.s, rows - |ss|))
    else None
  }

  function PadFloats(fs: seq<Float64>, rows: nat, default: Option<Any>): Option<seq<Float64>> {
    if |fs| >= rows then Some(fs)
    else if default.Some? && default.value.FloatV? then Some(fs + Repeat(default.value.f, rows - |fs|))
    else None
  }

  function PadBools(bs: seq<bool>, rows: nat, default: Option<Any>): Option<seq<bool>> {
    if |bs| >= rows then Some(bs)
    else if default.Some? && default.value.BoolV? then Some(bs + Repeat(default.value.b, rows - |bs|))
    else None
  }

  /** A typed slice made into a new Series; the ignored error of NewSeries would leave a nil Series (a panic). */
  function Typed(values: Any, t: string, name: string): Result<Column, Failure>
    requires IsTypedSlice(values)
  {
    match NewSeriesOf(Some(values), t, name)
    case Ok(c) => Ok(c)
    case Err(_) => Err(Panic)
  }

  /**
    The column AddCol adds. A *Series shorter than `rows` needs a default
    (an error without one) and appends `rows - Len()` copies of it; a longer
    one is cut to its first `rows` elements (SubSet, which panics for 0
    rows); then it is copied and keeps its own name. A typed slice shorter
    than `rows` is padded with the default, which must have the element
    type; only a []bool is also cut to `rows`. Anything else is an error.
   */
  function NewColumn(rows: nat, name: string, arg: ColumnArg, default: Option<Any>): Result<Column, Failure> {
    match arg
    case SeriesRef(c) =>
      if |c.elements| < rows then
        if default.None? || default.value.Nil? then Err(Error)
        else
          var (c2, err) := AppendOf(c, Anys(Repeat(default.value, rows - |c.elements|)));
          if err.None? then Copied(c2) else Err(err.value)
      else if |c.elements| > rows then
        match SubSetOf(c, Range(rows))
        case Err(_) => Err(Panic)
        case Ok(c2) => Copied(c2)
      else Copied(c)
    case SeriesValue(_) => Err(Error)
    case Values(v) =>
      match v
      case Ints(ns) => (match PadInts(ns, rows, default) case None => Err(Panic) case Some(p) => Typed(Ints(p), "int", name))
      case Strs(ss) => (match PadStrs(ss, rows, default) case None => Err(Panic) case Some(p) => Typed(Strs(p), "string", name))
      case Floats(fs) => (match PadFloats(fs, rows, default) case None => Err(Panic) case Some(p) => Typed(Floats(p), "float64", name))
      case Bools(bs) => (match PadBools(bs, rows, default) case None => Err(Panic) case Some(p) => Typed(Bools(p[..rows]), "bool", name))
      case _ => Err(Error)
  }

  /**
    AddCol: the new column replaces the first column of its name in place,
    or is appended at the end; then Size. A failure changes no column.
   */
  function AddColOf(f: Frame, name: string, arg: ColumnArg, default: Option<Any>): (Frame, Option<Failure>) {
    match NewColumn(f.rows, name, arg, default)
    case Err(e) => (f, Some(e))
    case Ok(ns) =>
      var i := IndexOfName(f.columns, ns.name);
      (Sized(f.(columns := if i == -1 then f.columns + [ns] else f.columns[i := ns])), None)
  }

  /**
    The lengths of the column AddCol makes: `rows` for a *Series and for a
    []bool, at least `rows` for the other typed slices, which are never cut.
    A padded *Series gains exactly the missing elements when its default is
    a scalar.
   */
  lemma NewColumnLength(rows: nat, name: string, arg: ColumnArg, default: Option<Any>)
    requires NewColumn(rows, name, arg, default).Ok?
    requires arg.SeriesRef? && |arg.s.elements| < rows ==> IsScalar(default.value)
    ensures arg.SeriesRef? || (arg.Values? && arg.values.Bools?) ==>
      |NewColumn(rows, name, arg, default).value.elements| == rows
    ensures arg.Values? ==>
      |NewColumn(rows, name, arg, default).value.elements| == if SliceLen(arg.values) > rows && !arg.values.Bools? then SliceLen(arg.values) else rows
  {
    var c := NewColumn(rows, name, arg, default).value;
    match arg
    case SeriesRef(s) =>
      if |s.elements| < rows {
        var pad := Anys(Repeat(default.value, rows - |s.elements|));
        AppendMeaning(s, pad);
        FlattenScalars(Repeat(default.value, rows - |s.elements|));
      }
    case SeriesValue(_) =>
    case Values(v) =>
      match v
      case Ints(ns) => NewSeriesMeaning(Some(Ints(PadInts(ns, rows, default).value)), "int", name);
      case Strs(ss) => NewSeriesMeaning(Some(Strs(PadStrs(ss, rows, default).value)), "string", name);
      case Floats(fs) => NewSeriesMeaning(Some(Floats(PadFloats(fs, rows, default).value)), "float64", name);
      case Bools(bs) => NewSeriesMeaning(Some(Bools(PadBools(bs, rows, default).value[..rows])), "bool", name);
  }

  /**
    AddCol into an aligned table with a column of `rows` elements keeps it
    aligned with the same row count; the column replaces the first column
    of its name or ends the list.
   */
  lemma AddColMeaning(f: Frame, name: string, arg: ColumnArg, default: Option<Any>)
    requires Aligned(f) && NewColumn(f.rows, name, arg, default).Ok?
    requires |NewColumn(f.rows, name, arg, default).value.elements| == f.rows
    ensures AddColOf(f, name, arg, default).1.None?
    ensures Aligned(AddColOf(f, name, arg, default).0) && AddColOf(f, name, arg, default).0.rows == f.rows
    ensures var ns := NewColumn(f.rows, name, arg, default).value;
      AddColOf(f, name, arg, default).0.columns ==
        if IndexOfName(f.columns, ns.name) == -1 then f.columns + [ns] else f.columns[IndexOfName(f.columns, ns.name) := ns]
  {
  }

  /**
    Concat: the row counts (column-wise) or column counts (row-wise) must
    agree. Row-wise it then does nothing; column-wise it hands each column
    to AddCol as a Series value, which AddCol's type switch rejects.
   */
  function ConcatFrameOf(f: Frame, d: Frame, isColumn: bool): (Frame, Option<Failure>) {
    if isColumn && f.rows != d.rows then (f, Some(Error))
    else if !isColumn && f.cols != d.cols then (f, Some(Error))
    else if isColumn then AddColumns(f, d.columns, 0)
    else (f, None)
  }

  function AddColumns(f: Frame, cs: seq<Column>, i: nat): (Frame, Option<Failure>)
    requires i <= |cs|
    decreases |cs| - i
  {
    if i == |cs| then (f, None)
    else
      var (g, err) := AddColOf(f, "", SeriesValue(cs[i]), None);
      if err.Some? then (g, err) else AddColumns(g, cs, i + 1)
  }

  /** Concat never changes the table: row-wise it is a no-op, and column-wise any column is an error. */
  lemma ConcatChangesNothing(f: Frame, d: Frame, isColumn: bool)
    ensures ConcatFrameOf(f, d, isColumn).0 == f
    ensures ConcatFrameOf(f, d, isColumn).1.None? <==>
      if isColumn then f.rows == d.rows && d.columns == [] else f.cols == d.cols
  {
  }

  /** DropCols: the columns whose name is not listed, in order. */
  function Without(cs: seq<Column>, names: seq<string>): (r: seq<Column>)
    ensures |r| <= |cs|
  {
    if cs == [] then []
    else
      var rest := Without(cs[1..], names);
      if cs[0].name in names then rest else [cs[0]] + rest
  }

  /** DropCols keeps exactly the columns whose name is not listed. */
  lemma {:induction false} WithoutMembers(cs: seq<Column>, names: seq<string>)
    ensures forall c :: c in Without(cs, names) <==> c in cs && c.name !in names
  {
    if cs != [] {
      WithoutMembers(cs[1..], names);
      assert forall c :: c in cs <==> c == cs[0] || c in cs[1..];
    }
  }

  /** DropCols keeps order: filtering a concatenation filters each part. */
  lemma {:induction false} WithoutConcat(a: seq<Column>, b: seq<Column>, names: seq<string>)
    ensures Without(a + b, names) == Without(a, names) + Without(b, names)
    decreases |a|
  {
    if a != [] {
      assert (a + b)[0] == a[0];
      assert (a + b)[1..] == a[1..] + b;
      WithoutConcat(a[1..], b, names);
    } else {
      assert a + b == b;
    }
  }

  /** The names Rename reports as not found, in column order. */
  function Unmatched(cs: seq<Column>, m: map<string, string>): (r: seq<string>)
    ensures |r| <= |cs|
  {
    if cs == [] then []
    else
      var rest := Unmatched(cs[1..], m);
      if cs[0].name in m then rest else [cs[0].name] + rest
  }

  /** Rename reports exactly the column names the map does not hold. */
  lemma {:induction false} UnmatchedMembers(cs: seq<Column>, m: map<string, string>)
    ensures forall n :: n in Unmatched(cs, m) <==> exists j :: 0 <= j < |cs| && cs[j].name == n && n !in m
  {
    if cs != [] {
      UnmatchedMembers(cs[1..], m);
      assert forall j :: 1 <= j < |cs| ==> cs[j] == cs[1..][j - 1];
    }
  }

  // ---------------------------------------------------------------------------
  // Arrange
  // ---------------------------------------------------------------------------

  /** One key of Arrange: a column name and whether to sort highest first. */
  datatype Order = Order(columnName: string, reverse: bool)

  /** InitIndex on a column value: indexes 0 .. Len()-1. */
  function Renumbered(c: Column): Column {
    c.(indexes := Range(|c.elements|))
  }

  /**
    Every column SubSet to the positions p and then renumbered; a SubSet that
    fails leaves a nil Series whose InitIndex panics.
   */
  function Reordered(cs: seq<Column>, p: seq<int>): (r: Result<seq<Column>, Failure>)
    ensures r.Err? ==> r.error == Panic
    ensures r.Ok? ==> |r.value| == |cs|
  {
    if exists j :: 0 <= j < |cs| && SubSetOf(cs[j], p).Err? then Err(Panic)
    else Ok(seq(|cs|, j requires 0 <= j < |cs| => Renumbered(SubSetOf(cs[j], p).value)))
  }

  /**
    One key of Arrange as written: the sort column's SortIndex, which lists
    the column's index labels in sorted order, is used as positions for
    every column.
   */
  function ArrangeStepAsWritten(cs: seq<Column>, o: Order): Result<seq<Column>, Failure> {
    var i := IndexOfName(cs, o.columnName);
    if i == -1 then Err(Error)
    else
      match SortIndexOf(cs[i], o.reverse)
      case None => Err(Panic)
      case Some(p) => Reordered(cs, p)
  }

  /** One key of Arrange, sorting positions: the key column is read with indexes 0 .. Len()-1. */
  function ArrangeStep(cs: seq<Column>, o: Order): Result<seq<Column>, Failure> {
    var i := IndexOfName(cs, o.columnName);
    if i == -1 then Err(Error)
    else
      match SortIndexOf(Renumbered(cs[i]), o.reverse)
      case None => Err(Panic)
      case Some(p) => Reordered(cs, p)
  }

  function ArrangeColumnsAsWritten(cs: seq<Column>, orders: seq<Order>): Result<seq<Column>, Failure>
    decreases |orders|
  {
    if orders == [] then Ok(cs)
    else
      match ArrangeStepAsWritten(cs, orders[0])
      case Err(e) => Err(e)
      case Ok(next) => ArrangeColumnsAsWritten(next, orders[1..])
  }

  function ArrangeColumns(cs: seq<Column>, orders: seq<Order>): Result<seq<Column>, Failure>
    decreases |orders|
  {
    if orders == [] then Ok(cs)
    else
      match ArrangeStep(cs, orders[0])
      case Err(e) => Err(e)
      case Ok(next) => ArrangeColumns(next, orders[1..])
  }

  /**
    Arrange: the keys are applied in order to a Copy of the table; only when
    all succeed are the columns replaced. The counts are not touched.
   */
  function ArrangeAsWritten(f: Frame, orders: seq<Order>): (Frame, Option<Failure>) {
    match ArrangeColumnsAsWritten(Sized(f).columns, orders)
    case Err(e) => (f, Some(e))
    case Ok(cs) => (f.(columns := cs), None)
  }

  function ArrangeOf(f: Frame, orders: seq<Order>): (Frame, Option<Failure>) {
    match ArrangeColumns(Sized(f).columns, orders)
    case Err(e) => (f, Some(e))
    case Ok(cs) => (f.(columns := cs), None)
  }

  /** Columns of n elements each whose indexes are 0 .. n-1, as InitIndex leaves them. */
  predicate Numbered(cs: seq<Column>, n: nat) {
    forall j :: 0 <= j < |cs| ==> |cs[j].elements| == n && cs[j].indexes == Range(n)
  }

  /** Reordering columns of n rows by n positions within them keeps every row of p[q] at q, in every column. */
  lemma ReorderedMeaning(cs: seq<Column>, p: seq<int>, n: nat)
    requires n > 0 && |p| == n && forall q :: 0 <= q < n ==> 0 <= p[q] < n
    requires forall j :: 0 <= j < |cs| ==> |cs[j].elements| == n
    ensures Reordered(cs, p).Ok? && Numbered(Reordered(cs, p).value, n)
    ensures forall j, q :: 0 <= j < |cs| && 0 <= q < n ==>
      && Reordered(cs, p).value[j].name == cs[j].name
      && Reordered(cs, p).value[j].t == cs[j].t
      && Reordered(cs, p).value[j].elements[q] == cs[j].elements[p[q]]
  {
    assert forall j :: 0 <= j < |cs| ==> SubSetOf(cs[j], p).Ok?;
  }

  /**
    One key on columns of n > 0 rows whose key column has a sortable type:
    it succeeds, and every column is rearranged by the same permutation p of
    0 .. n-1, under which the keys are sorted (highest first when reversed),
    keeping its name and type and renumbered.
   */
  lemma ArrangeStepPermutes(cs: seq<Column>, o: Order, n: nat, k: Kind)
    requires n > 0 && forall j :: 0 <= j < |cs| ==> |cs[j].elements| == n
    requires IndexOfName(cs, o.columnName) != -1
    requires KindNamed(cs[IndexOfName(cs, o.columnName)].t) == Some(k) && k != BoolKind
    ensures ArrangeStep(cs, o).Ok? && Numbered(ArrangeStep(cs, o).value, n)
    ensures var key := cs[IndexOfName(cs, o.columnName)];
      var p := SortIndexOf(Renumbered(key), o.reverse).value;
      && |p| == n && multiset(p) == multiset(Range(n))
      && (forall q1, q2 :: 0 <= q1 < q2 < n ==>
            !Before(SortKeys(k, key.elements)[p[q2]], SortKeys(k, key.elements)[p[q1]], o.reverse))
      && forall j, q :: 0 <= j < |cs| && 0 <= q < n ==>
           && ArrangeStep(cs, o).value[j].name == cs[j].name
           && ArrangeStep(cs, o).value[j].t == cs[j].t
           && ArrangeStep(cs, o).value[j].elements[q] == cs[j].elements[p[q]]
  {
    var key := Renumbered(cs[IndexOfName(cs, o.columnName)]);
    SortIndexOfPositions(key, o.reverse, k);
    var p := SortIndexOf(key, o.reverse).value;
    ReorderedMeaning(cs, p, n);
    assert ArrangeStep(cs, o) == Reordered(cs, p);
  }

  /**
    The ways one key fails: an unknown column is an error; a table with no
    rows, a bool key with two rows or more, or a key of unknown type panics.
   */
  lemma ArrangeStepFails(cs: seq<Column>, o: Order)
    requires SameLengths(cs)
    ensures IndexOfName(cs, o.columnName) == -1 ==> ArrangeStep(cs, o) == Err(Error)
    ensures IndexOfName(cs, o.columnName) != -1 ==>
      var key := cs[IndexOfName(cs, o.columnName)];
      (|key.elements| == 0 || (key.t == "bool" && |key.elements| >= 2) || (|key.elements| > 0 && KindNamed(key.t).None?))
        ==> ArrangeStep(cs, o) == Err(Panic)
  {
  }

  /** Arrange keeps every column at n rows, renumbered. */
  lemma {:induction false} ArrangeKeepsRows(cs: seq<Column>, orders: seq<Order>, n: nat)
    requires forall j :: 0 <= j < |cs| ==> |cs[j].elements| == n
    requires ArrangeColumns(cs, orders).Ok?
    ensures |ArrangeColumns(cs, orders).value| == |cs|
    ensures forall j :: 0 <= j < |cs| ==> |ArrangeColumns(cs, orders).value[j].elements| == n
    decreases |orders|
  {
    if orders != [] {
      var next := ArrangeStep(cs, orders[0]).value;
      var key := Renumbered(cs[IndexOfName(cs, orders[0].columnName)]);
      assert |SortIndexOf(key, orders[0].reverse).value| == n;
      ArrangeKeepsRows(next, orders[1..], n);
    }
  }

  /** A successful Arrange leaves an aligned table aligned, with the same counts. */
  lemma ArrangeKeepsAligned(f: Frame, orders: seq<Order>)
    requires Aligned(f) && ArrangeOf(f, orders).1.None?
    ensures Aligned(ArrangeOf(f, orders).0)
    ensures ArrangeOf(f, orders).0.cols == f.cols && ArrangeOf(f, orders).0.rows == f.rows
  {
    if f.columns != [] {
      SizeAligns(f);
      ArrangeKeepsRows(f.columns, orders, f.rows);
    }
  }

  /**
    When every column is numbered 0 .. n-1 (as after LoadRecord, or after any
    Arrange step), Arrange as written and sorting by positions agree.
   */
  lemma {:induction false} ArrangeAgrees(cs: seq<Column>, orders: seq<Order>, n: nat)
    requires Numbered(cs, n)
    ensures ArrangeColumnsAsWritten(cs, orders) == ArrangeColumns(cs, orders)
    decreases |orders|
  {
    if orders != [] {
      var i := IndexOfName(cs, orders[0].columnName);
      if i != -1 {
        assert Renumbered(cs[i]) == cs[i];
        var p := SortIndexOf(cs[i], orders[0].reverse);
        if p.Some? && Reordered(cs, p.value).Ok? {
          ArrangeAgrees(Reordered(cs, p.value).value, orders[1..], |p.value|);
        }
      }
    }
  }

  /**
    A table left by SubSet(4, 6) of a longer one: its int column holds [3, 1]
    under the labels [4, 6]. Arrange as written uses the labels as positions
    and panics; sorting by positions gives [1, 3].
   */
  lemma ArrangeAsWrittenPanics()
    ensures var c := Column("n", [IntElem(3), IntElem(1)], "int", [4, 6]);
      && ArrangeAsWritten(Frame([c], 1, 2), [Order("n", false)]) == (Frame([c], 1, 2), Some(Panic))
      && ArrangeOf(Frame([c], 1, 2), [Order("n", false)]).1.None?
  {
    var c := Column("n", [IntElem(3), IntElem(1)], "int", [4, 6]);
    assert KindNamed("int") == Some(IntKind);
    SortIndexSorts(c, false, IntKind);
    var p := SortIndexOf(c, false).value;
    assert 6 in multiset(p);
    assert SubSetOf(c, p).Err?;
    ArrangeStepPermutes([c], Order("n", false), 2, IntKind);
  }

  // ---------------------------------------------------------------------------
  // SubSet and Filter
  // ---------------------------------------------------------------------------

  /** Every column SubSet to idx, in column order; the first failure is returned (or panics). */
  function SubSetColumns(cs: seq<Column>, idx: seq<int>): (r: Result<seq<Column>, Failure>)
    ensures r.Ok? <==> forall j :: 0 <= j < |cs| ==> SubSetOf(cs[j], idx).Ok?
    ensures r.Ok? ==> |r.value| == |cs| && forall j :: 0 <= j < |cs| ==> r.value[j] == SubSetOf(cs[j], idx).value
  {
    if cs == [] then Ok([])
    else
      match SubSetOf(cs[0], idx)
      case Err(e) => Err(e)
      case Ok(c) =>
        match SubSetColumns(cs[1..], idx)
        case Err(e) => Err(e)
        case Ok(rest) =>
          assert forall j :: 1 <= j < |cs| ==> cs[j] == cs[1..][j - 1];
          Ok([c] + rest)
  }

  /** SubSetColumns fails with the error of the first column whose SubSet fails. */
  lemma {:induction false} SubSetColumnsFirstError(cs: seq<Column>, idx: seq<int>, j: nat)
    requires j < |cs| && SubSetOf(cs[j], idx).Err?
    requires forall q :: 0 <= q < j ==> SubSetOf(cs[q], idx).Ok?
    ensures SubSetColumns(cs, idx) == Err(SubSetOf(cs[j], idx).error)
    decreases j
  {
    if j > 0 {
      assert forall q :: 0 <= q < |cs| - 1 ==> cs[1..][q] == cs[q + 1];
      SubSetColumnsFirstError(cs[1..], idx, j - 1);
    }
  }

  /** DataFrame.SubSet as written: the copy is sized before the columns shrink, so it keeps the old row count. */
  function SubSetFrameAsWritten(f: Frame, idx: seq<int>): Result<Frame, Failure> {
    var g := Sized(f);
    match SubSetColumns(g.columns, idx)
    case Err(e) => Err(e)
    case Ok(cs) => Ok(g.(columns := cs))
  }

  /** DataFrame.SubSet with the counts taken after the columns shrink. */
  function SubSetFrameOf(f: Frame, idx: seq<int>): Result<Frame, Failure> {
    match SubSetColumns(f.columns, idx)
    case Err(e) => Err(e)
    case Ok(cs) => Ok(Sized(f.(columns := cs)))
  }

  /**
    SubSet of an aligned table with columns: it succeeds exactly when idx
    is non-empty and within the rows, and then row q of the result is row
    idx[q] of the table, in every column, and the table is aligned with
    |idx| rows. An index past the rows is an error; an empty or negative
    one panics.
   */
  lemma SubSetFrameMeaning(f: Frame, idx: seq<int>)
    requires Aligned(f) && f.columns != []
    ensures SubSetFrameOf(f, idx).Ok? <==> idx != [] && forall q :: 0 <= q < |idx| ==> 0 <= idx[q] < f.rows
    ensures SubSetFrameOf(f, idx).Err? ==>
      SubSetFrameOf(f, idx).error == if exists q :: 0 <= q < |idx| && idx[q] >= f.rows then Error else Panic
    ensures SubSetFrameOf(f, idx).Ok? ==>
      var g := SubSetFrameOf(f, idx).value;
      && Aligned(g) && g.cols == f.cols && g.rows == |idx|
      && forall j, q :: 0 <= j < f.cols && 0 <= q < |idx| ==>
           g.columns[j].elements[q] == f.columns[j].elements[idx[q]] && g.columns[j].indexes == idx
  {
    var r0 := SubSetOf(f.columns[0], idx);
    if !r0.Ok? {
      assert SubSetColumns(f.columns, idx) == Err(r0.error);
    }
  }

  /** SubSet(0) of a three-row table as written still reports three rows. */
  lemma SubSetFrameAsWrittenStale()
    ensures var f := Frame([Column("n", [IntElem(1), IntElem(2), IntElem(3)], "int", [0, 1, 2])], 1, 3);
      && SubSetFrameAsWritten(f, [0]).Ok? && SubSetFrameAsWritten(f, [0]).value.rows == 3
      && !Aligned(SubSetFrameAsWritten(f, [0]).value)
      && SubSetFrameOf(f, [0]).Ok? && SubSetFrameOf(f, [0]).value.rows == 1
  {
  }

  /** One condition of DataFrame.Filter: its `or` joins it to the conditions before it. */
  datatype Condition = Condition(column: string, op: Operator, values: Any, or: bool)

  /** The positions one condition selects, through Series.Filter on the named column (an empty Series when missing). */
  function Selection(cs: seq<Column>, c: Condition): Result<seq<int>, Failure> {
    match FilterOf(ColumnNamed(cs, c.column), c.op, c.values)
    case Err(e) => Err(e)
    case Ok(s) => Ok(s.indexes)
  }

  /** Each item's result in turn: all the values, or the first failure. */
  function Collect<X, T, E>(f: X -> Result<T, E>, xs: seq<X>): (r: Result<seq<T>, E>)
    ensures r.Ok? <==> forall j :: 0 <= j < |xs| ==> f(xs[j]).Ok?
    ensures r.Ok? ==> |r.value| == |xs| && forall j :: 0 <= j < |xs| ==> r.value[j] == f(xs[j]).value
  {
    if xs == [] then Ok([])
    else
      match f(xs[0])
      case Err(e) => Err(e)
      case Ok(s) =>
        match Collect(f, xs[1..])
        case Err(e) => Err(e)
        case Ok(rest) =>
          assert forall j :: 1 <= j < |xs| ==> xs[j] == xs[1..][j - 1];
          Ok([s] + rest)
  }

  /** Every condition's positions, or the first condition's failure. */
  function Selections(cs: seq<Column>, conds: seq<Condition>): (r: Result<seq<seq<int>>, Failure>)
    ensures r.Ok? <==> forall j :: 0 <= j < |conds| ==> Selection(cs, conds[j]).Ok?
    ensures r.Ok? ==> |r.value| == |conds| && forall j :: 0 <= j < |conds| ==> r.value[j] == Selection(cs, conds[j]).value
  {
    Collect(c => Selection(cs, c), conds)
  }

  /**
    A condition's positions are exactly the rows of its column that pass it,
    ascending: Series.Filter's indexes.
   */
  lemma SelectionMeaning(cs: seq<Column>, c: Condition)
    requires Selection(cs, c).Ok?
    ensures var column := ColumnNamed(cs, c.column);
      && StrictlyAscending(Selection(cs, c).value)
      && forall x :: x in Selection(cs, c).value <==>
           0 <= x < |column.elements| && Test(column.elements[x], c.op, c.values) == Some(true)
  {
    FilterSelects(ColumnNamed(cs, c.column), c.op, c.values);
  }

  /**
    The positions of Filter as written, from condition i on: the list starts
    empty, an OR appends and drops adjacent repeats (slices.Compact), an AND
    intersects.
   */
  function JoinedAsWritten(conds: seq<Condition>, sels: seq<seq<int>>, i: nat, acc: seq<int>): seq<int>
    requires i <= |conds| == |sels|
    decreases |conds| - i
  {
    if i == |conds| then acc
    else JoinedAsWritten(conds, sels, i + 1, if conds[i].or then Compact(acc + sels[i]) else Overlap(acc, sels[i]))
  }

  /** How condition i joins its positions s to the selection so far: the first starts it. */
  function Combine(i: nat, or: bool, acc: seq<int>, s: seq<int>): seq<int> {
    if i == 0 then s else if or then Union(acc, s) else Overlap(acc, s)
  }

  /**
    The positions of Filter with the first condition starting the selection,
    an OR taking the sorted union without repeats and an AND the intersection.
   */
  function Joined(conds: seq<Condition>, sels: seq<seq<int>>, i: nat, acc: seq<int>): seq<int>
    requires i <= |conds| == |sels|
    decreases |conds| - i
  {
    if i == |conds| then acc
    else Joined(conds, sels, i + 1, Combine(i, conds[i].or, acc, sels[i]))
  }

  /** Filter as written: the selections are joined, then the table is SubSet (keeping the old row count). */
  function FilterAsWritten(f: Frame, conds: seq<Condition>): Result<Frame, Failure> {
    match Selections(f.columns, conds)
    case Err(e) => Err(e)
    case Ok(sels) => SubSetFrameAsWritten(f, JoinedAsWritten(conds, sels, 0, []))
  }

  function FilterFrameOf(f: Frame, conds: seq<Condition>): Result<Frame, Failure> {
    match Selections(f.columns, conds)
    case Err(e) => Err(e)
    case Ok(sels) => SubSetFrameOf(f, Joined(conds, sels, 0, []))
  }

  /**
    The field `values` of a condition is unexported, so a condition made
    outside the package leaves it nil; Series.Filter then panics in
    reflect.TypeOf(nil).String(), and so does DataFrame.Filter, as written
    or corrected, for any non-empty list of such conditions.
   */
  lemma FilterOfNilConditions(f: Frame, conds: seq<Condition>)
    requires conds != [] && forall j :: 0 <= j < |conds| ==> conds[j].values.Nil?
    ensures FilterAsWritten(f, conds) == Err(Panic)
    ensures FilterFrameOf(f, conds) == Err(Panic)
  {
    assert Selection(f.columns, conds[0]) == Err(Panic);
  }

  /** Whether position x is in the join of selections 0 .. k-1, read left to right by their OR flags. */
  predicate Chosen(conds: seq<Condition>, sels: seq<seq<int>>, k: nat, x: int)
    requires k <= |conds| == |sels|
  {
    if k == 0 then false
    else if k == 1 then x in sels[0]
    else if conds[k - 1].or then Chosen(conds, sels, k - 1, x) || x in sels[k - 1]
    else Chosen(conds, sels, k - 1, x) && x in sels[k - 1]
  }

  /**
    The corrected join holds exactly the positions the conditions choose,
    ascending and each once.
   */
  lemma {:induction false} JoinedMeaning(conds: seq<Condition>, sels: seq<seq<int>>, i: nat, acc: seq<int>)
    requires i <= |conds| == |sels| && StrictlyAscending(acc)
    requires forall j :: 0 <= j < |sels| ==> StrictlyAscending(sels[j])
    requires i > 0 ==> forall x :: x in acc <==> Chosen(conds, sels, i, x)
    ensures StrictlyAscending(Joined(conds, sels, i, acc))
    ensures |conds| > 0 ==> forall x :: x in Joined(conds, sels, i, acc) <==> Chosen(conds, sels, |conds|, x)
    decreases |conds| - i
  {
    if i < |conds| {
      var next := Combine(i, conds[i].or, acc, sels[i]);
      if i > 0 && !conds[i].or {
        OverlapAscending(acc, sels[i]);
      }
      assert forall x :: x in next <==> Chosen(conds, sels, i + 1, x);
      JoinedMeaning(conds, sels, i + 1, next);
    }
  }

  /**
    Filter: it fails exactly when some condition's Series.Filter fails (the
    first failure is returned); otherwise the table is SubSet to the
    positions the conditions choose, ascending and each once.
   */
  lemma FilterFrameMeaning(f: Frame, conds: seq<Condition>)
    requires conds != []
    ensures (exists j :: 0 <= j < |conds| && Selection(f.columns, conds[j]).Err?) ==> FilterFrameOf(f, conds).Err?
    ensures Selections(f.columns, conds).Ok? ==>
      var sels := Selections(f.columns, conds).value;
      var idx := Joined(conds, sels, 0, []);
      && FilterFrameOf(f, conds) == SubSetFrameOf(f, idx)
      && StrictlyAscending(idx)
      && forall x :: x in idx <==> Chosen(conds, sels, |conds|, x)
  {
    if Selections(f.columns, conds).Ok? {
      var sels := Selections(f.columns, conds).value;
      forall j | 0 <= j < |sels| ensures StrictlyAscending(sels[j]) {
        SelectionMeaning(f.columns, conds[j]);
      }
      JoinedMeaning(conds, sels, 0, []);
    }
  }

  /** The ages column of the Filter examples. */
  const Ages := Column("age", [IntElem(1), IntElem(2), IntElem(3)], "int", [0, 1, 2])

  /** Of the ages, 2 and 3 are greater than 1 and 1 is not. */
  lemma AgesCompared()
    ensures Test(IntElem(1), GreaterThan, IntV(1)) == Some(false)
    ensures Test(IntElem(2), GreaterThan, IntV(1)) == Some(true)
    ensures Test(IntElem(3), GreaterThan, IntV(1)) == Some(true)
    ensures FilterAdmits(Ages, GreaterThan, IntV(1))
  {
  }

  lemma AgesOverOne()
    ensures Passing(Ages.elements, GreaterThan, IntV(1)) == [1, 2]
  {
    AgesCompared();
    forall x ensures x in [1, 2] <==> 0 <= x < 3 && Test(Ages.elements[x], GreaterThan, IntV(1)) == Some(true) {
      if 0 <= x < 3 {
        assert x == 0 || x == 1 || x == 2;
      }
    }
    PassingIs(Ages.elements, GreaterThan, IntV(1), [1, 2]);
  }

  /** Series.Filter(">", 1) on the ages keeps positions 1 and 2. */
  lemma AgesFiltered()
    ensures FilterOf(Ages, GreaterThan, IntV(1)).Ok?
    ensures FilterOf(Ages, GreaterThan, IntV(1)).value.indexes == [1, 2]
  {
    AgesCompared();
    AgesOverOne();
    FilterSelects(Ages, GreaterThan, IntV(1));
  }

  /** Selections of two conditions that both succeed. */
  lemma SelectionsPair(cs: seq<Column>, c0: Condition, c1: Condition, s0: seq<int>, s1: seq<int>)
    requires Selection(cs, c0) == Ok(s0) && Selection(cs, c1) == Ok(s1)
    ensures Selections(cs, [c0, c1]) == Ok([s0, s1])
  {
    var r := Selections(cs, [c0, c1]);
    assert r.Ok?;
    assert r.value == [s0, s1];
  }

  /** Filter as written with only AND conditions selects nothing. */
  lemma {:induction false} JoinedAsWrittenAllAnd(conds: seq<Condition>, sels: seq<seq<int>>, i: nat)
    requires i <= |conds| == |sels| && forall j :: 0 <= j < |conds| ==> !conds[j].or
    ensures JoinedAsWritten(conds, sels, i, []) == []
    decreases |conds| - i
  {
    if i < |conds| {
      JoinedAsWrittenAllAnd(conds, sels, i + 1);
    }
  }

  /**
    Filter as written on a table with columns, when every condition is an
    AND and each succeeds on its own, always panics: the selection starts
    empty, so SubSet gets no positions. With one condition the corrected
    Filter keeps exactly that condition's rows, which in an aligned table
    succeeds.
   */
  lemma FilterAsWrittenDropsFirst(f: Frame, conds: seq<Condition>)
    requires f.columns != [] && forall j :: 0 <= j < |conds| ==> !conds[j].or
    requires Selections(f.columns, conds).Ok?
    ensures FilterAsWritten(f, conds) == Err(Panic)
  {
    JoinedAsWrittenAllAnd(conds, Selections(f.columns, conds).value, 0);
  }

  /**
    Filter with one condition on a column of an aligned table keeps exactly
    the rows that pass it, which Series.Filter guarantees are some.
   */
  lemma FilterSingle(f: Frame, c: Condition)
    requires Aligned(f) && Selection(f.columns, c).Ok?
    requires exists j :: 0 <= j < |f.columns| && f.columns[j].name == c.column
    ensures FilterFrameOf(f, [c]).Ok?
    ensures FilterFrameOf(f, [c]) == SubSetFrameOf(f, Selection(f.columns, c).value)
  {
    var column := ColumnNamed(f.columns, c.column);
    var s := Selection(f.columns, c).value;
    FilterSelects(column, c.op, c.values);
    assert |column.elements| == f.rows;
    var r := Selections(f.columns, [c]);
    assert r.Ok? && |r.value| == 1 && r.value[0] == s;
    assert r.value == [s];
    assert Joined([c], [s], 0, []) == s;
    assert FilterFrameOf(f, [c]) == SubSetFrameOf(f, s);
    SubSetFrameMeaning(f, s);
  }

  /** Series.Filter on the named ages column. */
  lemma AgesSelections()
    ensures Selection([Ages], Condition("age", GreaterThan, IntV(1), true)) == Ok([1, 2])
    ensures Selection([Ages], Condition("age", LessThan, IntV(3), true)) == Ok([0, 1])
  {
    assert ColumnNamed([Ages], "age") == Ages;
    AgesFiltered();
    AgesBelowFiltered();
  }

  /** Of the ages, 1 and 2 are less than 3 and 3 is not. */
  lemma AgesComparedBelow()
    ensures Test(IntElem(1), LessThan, IntV(3)) == Some(true)
    ensures Test(IntElem(2), LessThan, IntV(3)) == Some(true)
    ensures Test(IntElem(3), LessThan, IntV(3)) == Some(false)
    ensures FilterAdmits(Ages, LessThan, IntV(3))
  {
  }

  lemma AgesUnderThree()
    ensures Passing(Ages.elements, LessThan, IntV(3)) == [0, 1]
  {
    AgesComparedBelow();
    forall x ensures x in [0, 1] <==> 0 <= x < 3 && Test(Ages.elements[x], LessThan, IntV(3)) == Some(true) {
      if 0 <= x < 3 {
        assert x == 0 || x == 1 || x == 2;
      }
    }
    PassingIs(Ages.elements, LessThan, IntV(3), [0, 1]);
  }

  /** Series.Filter("<", 3) on the ages keeps positions 0 and 1. */
  lemma AgesBelowFiltered()
    ensures FilterOf(Ages, LessThan, IntV(3)).Ok?
    ensures FilterOf(Ages, LessThan, IntV(3)).value.indexes == [0, 1]
  {
    AgesComparedBelow();
    AgesUnderThree();
    FilterSelects(Ages, LessThan, IntV(3));
  }

  /** slices.Compact leaves the repeat in [1, 2, 0, 1]: the two 1s are not adjacent. */
  lemma CompactKeepsRepeat()
    ensures Compact([1, 2]) == [1, 2]
    ensures Compact([1, 2, 0, 1]) == [1, 2, 0, 1]
  {
    var s := [1, 2, 0, 1];
    assert [1, 2][..1] == [1];
    assert [1, 2, 0][..2] == [1, 2];
    assert Compact([1, 2, 0]) == [1, 2, 0];
    assert s[..3] == [1, 2, 0];
  }

  /** The join as written of the two OR selections [1, 2] and [0, 1]. */
  lemma JoinedAsWrittenExample(conds: seq<Condition>)
    requires |conds| == 2 && conds[0].or && conds[1].or
    ensures JoinedAsWritten(conds, [[1, 2], [0, 1]], 0, []) == [1, 2, 0, 1]
  {
    var sels := [[1, 2], [0, 1]];
    CompactKeepsRepeat();
    assert JoinedAsWritten(conds, sels, 2, [1, 2, 0, 1]) == [1, 2, 0, 1];
    assert [1, 2] + [0, 1] == [1, 2, 0, 1];
    assert JoinedAsWritten(conds, sels, 1, [1, 2]) == [1, 2, 0, 1];
    assert [] + [1, 2] == [1, 2];
  }

  /** SubSet of a one-column table as written: that column SubSet, the counts kept. */
  lemma SubSetOneColumn(f: Frame, idx: seq<int>)
    requires |f.columns| == 1 && SubSetOf(f.columns[0], idx).Ok?
    ensures SubSetFrameAsWritten(f, idx) == Ok(Sized(f).(columns := [SubSetOf(f.columns[0], idx).value]))
  {
    var r := SubSetColumns(f.columns, idx);
    assert r.Ok? && |r.value| == 1 && r.value[0] == SubSetOf(f.columns[0], idx).value;
    assert r.value == [SubSetOf(f.columns[0], idx).value];
  }

  /** With two conditions joined by OR a position is chosen when either selects it. */
  lemma ChosenEither(conds: seq<Condition>, sels: seq<seq<int>>)
    requires |conds| == 2 == |sels| && conds[1].or
    ensures forall x :: Chosen(conds, sels, 2, x) <==> x in sels[0] || x in sels[1]
  {
  }

  /**
    Two OR conditions on a three-row column, the first selecting rows 1 and
    2 and the second rows 0 and 1 (the ages [1, 2, 3] with "> 1" and "< 3"): the corrected Filter keeps each row once.
   */
  lemma FilterRepeatsCorrected(f: Frame, c0: Condition, c1: Condition)
    requires Aligned(f) && |f.columns| == 1 && f.rows == 3 && c1.or
    requires Selection(f.columns, c0) == Ok([1, 2]) && Selection(f.columns, c1) == Ok([0, 1])
    ensures FilterFrameOf(f, [c0, c1]).Ok?
    ensures StrictlyAscending(FilterFrameOf(f, [c0, c1]).value.columns[0].indexes)
  {
    var conds := [c0, c1];
    var sels := [[1, 2], [0, 1]];
    SelectionsPair(f.columns, c0, c1, [1, 2], [0, 1]);
    FilterFrameMeaning(f, conds);
    var idx := Joined(conds, sels, 0, []);
    assert FilterFrameOf(f, conds) == SubSetFrameOf(f, idx);
    ChosenEither(conds, sels);
    assert forall x :: x in idx <==> x in sels[0] || x in sels[1];
    EitherBounded(idx, sels[0], sels[1]);
    SubSetFrameMeaning(f, idx);
  }

  /** The positions drawn from [1, 2] or [0, 1] are rows of a three-row frame, and there is at least one. */
  lemma EitherBounded(idx: seq<int>, a: seq<int>, b: seq<int>)
    requires a == [1, 2] && b == [0, 1]
    requires forall x :: x in idx <==> x in a || x in b
    ensures idx != [] && forall q :: 0 <= q < |idx| ==> 0 <= idx[q] < 3
  {
    assert 1 in a;
    forall q | 0 <= q < |idx| ensures 0 <= idx[q] < 3 {
      assert idx[q] in idx;
    }
  }

  /**
    The same two OR conditions with Filter as written: the positions are
    [1, 2, 0, 1], so the result holds row 1 twice.
   */
  lemma FilterAsWrittenRepeatsRows(f: Frame, c0: Condition, c1: Condition)
    requires |f.columns| == 1 && |f.columns[0].elements| == 3 && c0.or && c1.or
    requires Selection(f.columns, c0) == Ok([1, 2]) && Selection(f.columns, c1) == Ok([0, 1])
    ensures FilterAsWritten(f, [c0, c1]).Ok?
    ensures var es := f.columns[0].elements;
      && FilterAsWritten(f, [c0, c1]).value.columns[0].indexes == [1, 2, 0, 1]
      && FilterAsWritten(f, [c0, c1]).value.columns[0].elements == [es[1], es[2], es[0], es[1]]
  {
    var conds := [c0, c1];
    SelectionsPair(f.columns, c0, c1, [1, 2], [0, 1]);
    JoinedAsWrittenExample(conds);
    assert FilterAsWritten(f, conds) == SubSetFrameAsWritten(f, [1, 2, 0, 1]);
    SubSetRepeated(f.columns[0]);
    SubSetOneColumn(f, [1, 2, 0, 1]);
  }

  /** The ages frame, and the OR conditions "age > 1" and "age < 3". */
  const AgesFrame := Frame([Ages], 1, 3)
  const AgesOverOneCond := Condition("age", GreaterThan, IntV(1), true)
  const AgesUnderThreeCond := Condition("age", LessThan, IntV(3), true)

  /** As written, the ages frame filtered by "age > 1" OR "age < 3" has the positions [1, 2, 0, 1]: row 1 twice. */
  lemma AgesEitherAsWritten()
    ensures FilterAsWritten(AgesFrame, [AgesOverOneCond, AgesUnderThreeCond]).Ok?
    ensures FilterAsWritten(AgesFrame, [AgesOverOneCond, AgesUnderThreeCond]).value.columns[0].indexes == [1, 2, 0, 1]
  {
    AgesSelections();
    FilterAsWrittenRepeatsRows(AgesFrame, AgesOverOneCond, AgesUnderThreeCond);
  }

  /** Corrected, the same filter gives strictly ascending positions: each row once. */
  lemma AgesEitherCorrected()
    ensures FilterFrameOf(AgesFrame, [AgesOverOneCond, AgesUnderThreeCond]).Ok?
    ensures StrictlyAscending(FilterFrameOf(AgesFrame, [AgesOverOneCond, AgesUnderThreeCond]).value.columns[0].indexes)
  {
    AgesSelections();
    FilterRepeatsCorrected(AgesFrame, AgesOverOneCond, AgesUnderThreeCond);
  }

  lemma SubSetRepeated(c: Column)
    requires |c.elements| == 3
    ensures SubSetOf(c, [1, 2, 0, 1]).Ok?
    ensures SubSetOf(c, [1, 2, 0, 1]).value.elements == [c.elements[1], c.elements[2], c.elements[0], c.elements[1]]
  {
    var idx := [1, 2, 0, 1];
    assert forall i :: 0 <= i < |idx| ==> 0 <= idx[i] < |c.elements|;
    var es := SubSetOf(c, idx).value.elements;
    assert |es| == 4;
    assert es[0] == c.elements[1] && es[1] == c.elements[2] && es[2] == c.elements[0] && es[3] == c.elements[1];
  }

  // ---------------------------------------------------------------------------
  // The DataFrame object
  // ---------------------------------------------------------------------------

  /** A DataFrame whose fields its methods update in place. */
  class DataFrame {
    var columns: seq<Column>
    var cols: nat
    var rows: nat

    /** The DataFrame as a value. */
    function Value(): Frame
      reads this
    {
      Frame(columns, cols, rows)
    }

    /** A DataFrame literal with the given fields. */
    constructor (f: Frame)
      ensures Value() == f
    {
      columns, cols, rows := f.columns, f.cols, f.rows;
    }

    /** slices.IndexFunc by column name, as a scan from the front. */
    static method IndexOf(cs: seq<Column>, name: string) returns (i: int)
      ensures i == IndexOfName(cs, name)
    {
      i := 0;
      while i < |cs|
        invariant 0 <= i <= |cs|
        invariant IndexOfName(cs, name) == -1 || i <= IndexOfName(cs, name)
        invariant forall j :: 0 <= j < i ==> cs[j].name != name
      {
        if cs[i].name == name {
          return;
        }
        i := i + 1;
      }
      i := -1;
    }

    /** equalLength: a zero base takes the first length seen, and every length must equal the base. */
    static method EqualLength(lengths: seq<nat>, baseLen: nat) returns (b: bool)
      ensures b == Uniform(lengths, baseLen)
    {
      var base := baseLen;
      var i := 0;
      while i < |lengths|
        invariant 0 <= i <= |lengths|
        invariant Uniform(lengths, baseLen) == Uniform(lengths[i..], base)
      {
        assert lengths[i..][0] == lengths[i] && lengths[i..][1..] == lengths[i + 1..];
        if base == 0 {
          base := lengths[i];
        }
        if base != lengths[i] {
          return false;
        }
        i := i + 1;
      }
      return true;
    }

    /** Size: the counts re-derived from the columns, and returned. */
    method Size() returns (c: nat, r: nat)
      modifies this
      ensures Value() == Sized(old(Value()))
      ensures c == cols && r == rows
    {
      cols := |columns|;
      if cols > 0 {
        rows := |columns[0].elements|;
      } else {
        rows := 0;
      }
      return cols, rows;
    }

    /** Names: the column names in order. */
    method Names() returns (names: seq<string>)
      ensures names == NamesOf(columns)
    {
      names := [];
      var j := 0;
      while j < |columns|
        invariant 0 <= j <= |columns| && names == NamesOf(columns[..j])
      {
        names := names + [columns[j].name];
        j := j + 1;
      }
      assert columns[..j] == columns;
    }

    /** Types: the column types in order. */
    method Types() returns (types: seq<string>)
      ensures types == TypesOf(columns)
    {
      types := [];
      var j := 0;
      while j < |columns|
        invariant 0 <= j <= |columns| && types == TypesOf(columns[..j])
      {
        types := types + [columns[j].t];
        j := j + 1;
      }
      assert columns[..j] == columns;
    }

    /** Columns(name): a copy of the first column with the name, or the zero Series. */
    method Columns(name: string) returns (c: Column)
      ensures c == ColumnNamed(columns, name)
    {
      var i := IndexOf(columns, name);
      if i == -1 {
        return EmptyColumn;
      }
      return columns[i];
    }

    /** Cell(r, name): element r of Columns(name); None where Element panics. */
    method Cell(r: int, name: string) returns (e: Option<Element>)
      ensures e == CellOf(Value(), r, name)
    {
      var c := Columns(name);
      if 0 <= r < |c.elements| {
        return Some(c.elements[r]);
      }
      return None;
    }

    /** Rows(r): nil at or past the row count, else each column's element r under its name. */
    method Rows(r: int) returns (m: Result<Option<map<string, Element>>, Failure>)
      ensures m == RowOf(Value(), r)
    {
      if r >= rows {
        return Ok(None);
      }
      var row: map<string, Element> := map[];
      var j := 0;
      while j < |columns|
        invariant 0 <= j <= |columns| && Reaches(columns[..j], r)
        invariant row == RowMap(columns[..j], r)
      {
        if !(0 <= r < |columns[j].elements|) {
          return Err(Panic);
        }
        assert columns[..j + 1][..j] == columns[..j];
        row := row[columns[j].name := columns[j].elements[r]];
        j := j + 1;
      }
      assert columns[..j] == columns;
      return Ok(Some(row));
    }

    /**
      Records: row by row (the names first when asked for), reading element i
      of every column, or column by column through each Series' Records,
      with the name inserted in front when asked for.
     */
    method Records(isRow: bool, hasColName: bool) returns (res: Option<seq<seq<string>>>)
      ensures res == RecordsTable(Value(), isRow, hasColName)
    {
      var table: seq<seq<string>> := [];
      if isRow {
        if hasColName {
          var names := Names();
          table := [names];
        }
        var h := |table|;
        var i := 0;
        while i < rows
          invariant 0 <= i <= rows && |table| == h + i
          invariant h == if hasColName then 1 else 0
          invariant hasColName ==> table[0] == NamesOf(columns)
          invariant forall k :: 0 <= k < i ==> Reaches(columns, k) && table[h + k] == RowText(columns, k)
        {
          var record: seq<string> := [];
          var j := 0;
          while j < |columns|
            invariant 0 <= j <= |columns| && |record| == j
            invariant forall q :: 0 <= q < j ==> i < |columns[q].elements| && record[q] == Elements.Records(columns[q].elements[i])
          {
            if i >= |columns[j].elements| {
              return None;
            }
            record := record + [Elements.Records(columns[j].elements[i])];
            j := j + 1;
          }
          table := table + [record];
          i := i + 1;
        }
        ghost var want := RecordsTable(Value(), isRow, hasColName);
        assert want.Some? by {
          if rows > 0 {
            assert Reaches(columns, rows - 1);
          }
        }
        assert table == want.value;
      } else {
        var j := 0;
        while j < |columns|
          invariant 0 <= j <= |columns| && |table| == j
          invariant forall q :: 0 <= q < j ==> table[q] == ColumnText(columns[q], hasColName)
        {
          var column := new Series(columns[j]);
          var values := column.Records();
          if hasColName {
            assert values[..0] == [] && values[0..] == values;
            values := Slices.Insert(values, 0, [column.name]);
          }
          table := table + [values];
          j := j + 1;
        }
        assert table == RecordsTable(Value(), isRow, hasColName).value;
      }
      return Some(table);
    }

    /**
      LoadRecord with the corrected count check: cell j of every data row is
      collected, row by row, into values[j], and column j is LoadRecords of
      values[j] under name j and type j; the counts are set directly.
     */
    static method LoadRecord(records: Option<seq<seq<string>>>, colsName: Option<seq<string>>, colsType: seq<string>)
      returns (r: Result<DataFrame, Failure>)
      ensures r.Ok? <==> LoadRecordOf(records, colsName, colsType).Ok?
      ensures r.Ok? ==> fresh(r.value) && r.value.Value() == LoadRecordOf(records, colsName, colsType).value
      ensures r.Err? ==> r.error == LoadRecordOf(records, colsName, colsType).error
    {
      if records.None? {
        return Err(Error);
      }
      var rs := records.value;
      var uniform := EqualLength(Lengths(rs), 0);
      if !uniform {
        return Err(Error);
      }
      var maxCol := |colsType|;
      if |rs| > 0 && |rs[0]| != maxCol {
        return Err(Error);
      }
      if rs != [] && maxCol > 0 {
        UniformRows(rs, maxCol);
      }
      var names: seq<string>, data := [], rs;
      if colsName.Some? {
        if |colsName.value| != maxCol {
          return Err(Error);
        }
        names := colsName.value;
      } else {
        if rs == [] {
          return Err(Panic);
        }
        names, data := rs[0], rs[1..];
      }
      assert |names| == maxCol;
      assert forall i :: 0 <= i < |data| ==> |data[i]| >= maxCol by {
        if colsName.None? {
          forall i | 0 <= i < |data| ensures |data[i]| >= maxCol {
            assert data[i] == rs[i + 1];
          }
        }
      }
      var values := Gather(data, maxCol);
      var cs := Load(values, colsType, names);
      if cs.None? {
        return Err(Panic);
      }
      var df := new DataFrame(Frame(cs.value, maxCol, |data|));
      assert df.Value() == LoadRecordOf(records, colsName, colsType).value;
      return Ok(df);
    }

    /** The first loop of LoadRecord: values[j] collects cell j of every row, row by row. */
    static method Gather(data: seq<seq<string>>, maxCol: nat) returns (values: seq<seq<string>>)
      requires forall i :: 0 <= i < |data| ==> |data[i]| >= maxCol
      ensures |values| == maxCol
      ensures forall j :: 0 <= j < maxCol ==> Wide(data, j) && values[j] == ColumnOfRows(data, j)
    {
      values := seq(maxCol, j => []);
      var i := 0;
      while i < |data|
        invariant 0 <= i <= |data| && |values| == maxCol
        invariant forall j :: 0 <= j < maxCol ==> |values[j]| == i && forall q :: 0 <= q < i ==> values[j][q] == data[q][j]
      {
        var j := 0;
        while j < maxCol
          invariant 0 <= j <= maxCol && |values| == maxCol
          invariant forall k :: 0 <= k < j ==> |values[k]| == i + 1 && forall q :: 0 <= q <= i ==> values[k][q] == data[q][k]
          invariant forall k :: j <= k < maxCol ==> |values[k]| == i && forall q :: 0 <= q < i ==> values[k][q] == data[q][k]
        {
          values := values[j := values[j] + [data[i][j]]];
          j := j + 1;
        }
        i := i + 1;
      }
    }

    /** The second loop of LoadRecord: column j is LoadRecords of values[j], stopping at the first nil Series. */
    static method Load(values: seq<seq<string>>, colsType: seq<string>, names: seq<string>) returns (r: Option<seq<Column>>)
      requires |values| == |colsType| <= |names|
      ensures r.Some? <==> forall j :: 0 <= j < |values| ==> LoadRecordsOf(values[j], colsType[j], names[j]).Some?
      ensures r.Some? ==> |r.value| == |values|
      ensures r.Some? ==> forall j :: 0 <= j < |values| ==> r.value[j] == LoadRecordsOf(values[j], colsType[j], names[j]).value
    {
      var cs: seq<Column> := [];
      var j := 0;
      while j < |values|
        invariant 0 <= j <= |values| && |cs| == j
        invariant forall k :: 0 <= k < j ==>
          LoadRecordsOf(values[k], colsType[k], names[k]).Some? && cs[k] == LoadRecordsOf(values[k], colsType[k], names[k]).value
      {
        var s := Series.LoadRecords(values[j], colsType[j], names[j]);
        if s.None? {
          return None;
        }
        cs := cs + [s.value.Value()];
        j := j + 1;
      }
      return Some(cs);
    }

    /** Copy: a new DataFrame over a clone of the column list, then Size. */
    method Copy() returns (d: DataFrame)
      ensures fresh(d) && d.Value() == Sized(Value())
    {
      d := new DataFrame(Frame(columns, 0, 0));
      var _, _ := d.Size();
    }

    /** Set on column i at row `index`: Append at or past the row count, else Element(index).Set. */
    method SetAt(i: int, index: int, v: Any) returns (err: Option<Failure>)
      modifies this
      ensures (Value(), err) == SetCell(old(Value()), i, index, v)
    {
      if !(0 <= i < |columns|) {
        return Some(Panic);
      }
      if index >= rows {
        var column := new Series(columns[i]);
        err := column.Append(v);
        columns := columns[i := column.Value()];
        return;
      }
      var c := columns[i];
      if !(0 <= index < |c.elements|) {
        return Some(Panic);
      }
      var e := Elements.Set(c.elements[index], v);
      if e.None? {
        return Some(Panic);
      }
      columns := columns[i := c.(elements := c.elements[index := e.value])];
      return None;
    }

    /**
      Set(index, values): a positional list of `cols` values or the entries
      of a map, each applied to its column in turn; the first failure stops
      the loop and keeps the changes before it. Size runs on success.
     */
    method Set(index: int, values: RowValues) returns (err: Option<Failure>)
      modifies this
      ensures (Value(), err) == SetOf(old(Value()), index, values)
    {
      match values {
        case Positional(vs) =>
          if |vs| != cols {
            return Some(Error);
          }
          var i := 0;
          while i < |vs|
            invariant 0 <= i <= |vs|
            invariant SetPositional(old(Value()), index, vs, 0) == SetPositional(Value(), index, vs, i)
          {
            err := SetAt(i, index, vs[i]);
            if err.Some? {
              return;
            }
            i := i + 1;
          }
        case Named(entries) =>
          var i := 0;
          while i < |entries|
            invariant 0 <= i <= |entries|
            invariant SetNamed(old(Value()), index, entries, 0) == SetNamed(Value(), index, entries, i)
          {
            var j := IndexOf(columns, entries[i].0);
            if j == -1 {
              return Some(Error);
            }
            err := SetAt(j, index, entries[i].1);
            if err.Some? {
              return;
            }
            i := i + 1;
          }
        case Unsupported =>
          return Some(Error);
      }
      var _, _ := Size();
      err := None;
    }

    /** AddRows: equalLength against `cols`, then Set at the current row count for each row in turn. */
    method AddRows(values: seq<seq<Any>>) returns (err: Option<Failure>)
      modifies this
      ensures (Value(), err) == AddRowsOf(old(Value()), values)
    {
      var uniform := EqualLength(seq(|values|, i requires 0 <= i < |values| => |values[i]|), cols);
      if !uniform {
        return Some(Error);
      }
      var i := 0;
      while i < |values|
        invariant 0 <= i <= |values|
        invariant AddEach(old(Value()), values, 0) == AddEach(Value(), values, i)
      {
        err := Set(rows, Positional(values[i]));
        if err.Some? {
          return;
        }
        i := i + 1;
      }
      err := None;
    }

    /**
      AddCol: the new Series replaces the first column of its name or is
      appended; then Size. A failure changes no column.
     */
    method AddCol(name: string, values: ColumnArg, default: Option<Any>) returns (err: Option<Failure>)
      modifies this
      ensures (Value(), err) == AddColOf(old(Value()), name, values, default)
    {
      var made := MakeColumn(rows, name, values, default);
      if made.Err? {
        return Some(made.error);
      }
      var ns := made.value;
      var i := IndexOf(columns, ns.name);
      if i == -1 {
        columns := columns + [ns];
      } else {
        columns := columns[i := ns];
      }
      var _, _ := Size();
      err := None;
    }

    /**
      The type switch of AddCol: a *Series padded with Append or cut with
      SubSet to the row count and then copied; a typed slice padded with the
      default and made by NewSeries; anything else an error.
     */
    static method MakeColumn(rows: nat, name: string, values: ColumnArg, default: Option<Any>) returns (r: Result<Column, Failure>)
      ensures r == NewColumn(rows, name, values, default)
    {
      match values {
        case SeriesRef(c) =>
          r := Fitted(c, rows, default);
        case SeriesValue(_) =>
          r := Err(Error);
        case Values(v) =>
          var padded: Option<Any>, t: string;
          match v {
            case Ints(xs) =>
              padded, t := (var p := PadInts(xs, rows, default); if p.None? then None else Some(Ints(p.value))), "int";
            case Strs(xs) =>
              padded, t := (var p := PadStrs(xs, rows, default); if p.None? then None else Some(Strs(p.value))), "string";
            case Floats(xs) =>
              padded, t := (var p := PadFloats(xs, rows, default); if p.None? then None else Some(Floats(p.value))), "float64";
            case Bools(xs) =>
              padded, t := (var p := PadBools(xs, rows, default); if p.None? then None else Some(Bools(p.value[..rows]))), "bool";
            case _ =>
              return Err(Error);
          }
          if padded.None? {
            return Err(Panic);
          }
          var made := Series.NewSeries(padded, t, name);
          if made.Err? {
            return Err(Panic);
          }
          r := Ok(made.value.Value());
      }
    }

    /** A *Series brought to `rows` elements: Append of copies of the default, or SubSet of the first rows; then Copy. */
    static method Fitted(c: Column, rows: nat, default: Option<Any>) returns (r: Result<Column, Failure>)
      ensures r == NewColumn(rows, "", SeriesRef(c), default)
    {
      var value := new Series(c);
      if |value.elements| < rows {
        if default.None? || default.value.Nil? {
          return Err(Error);
        }
        var err := value.Append(Anys(Repeat(default.value, rows - |value.elements|)));
        if err.Some? {
          return Err(err.value);
        }
      } else if |value.elements| > rows {
        var cut := value.SubSet(Range(rows));
        if cut.Err? {
          return Err(Panic);
        }
        value := cut.value;
      }
      var copy := value.Copy();
      if copy.None? {
        return Err(Panic);
      }
      r := Ok(copy.value.Value());
    }

    /**
      Concat: the counts must agree; column-wise each column of d is handed
      to AddCol as a Series value, stopping at the first failure.
     */
    method Concat(d: Frame, isColumn: bool) returns (err: Option<Failure>)
      modifies this
      ensures (Value(), err) == ConcatFrameOf(old(Value()), d, isColumn)
    {
      if isColumn && rows != d.rows {
        return Some(Error);
      } else if !isColumn && cols != d.cols {
        return Some(Error);
      }
      if isColumn {
        for i := 0 to |d.columns|
          invariant AddColumns(old(Value()), d.columns, 0) == AddColumns(Value(), d.columns, i)
        {
          err := AddCol("", SeriesValue(d.columns[i]), None);
          if err.Some? {
            return;
          }
        }
      }
      err := None;
    }

    /** DropCols: the columns whose name is listed are deleted; the counts are not touched. */
    method DropCols(names: seq<string>)
      modifies this
      ensures Value() == old(Value()).(columns := Without(old(columns), names))
    {
      var kept: seq<Column> := [];
      var i := 0;
      while i < |columns|
        invariant 0 <= i <= |columns|
        invariant Without(columns, names) == kept + Without(columns[i..], names)
      {
        assert columns[i..][0] == columns[i] && columns[i..][1..] == columns[i + 1..];
        if columns[i].name !in names {
          kept := kept + [columns[i]];
        }
        i := i + 1;
      }
      columns := kept;
    }

    /**
      Rename: each column's name is looked up in the map and, when found,
      given to a copy of the column, so the table is unchanged; the names
      not found, which Go prints, are returned.
     */
    method Rename(m: map<string, string>) returns (missing: seq<string>)
      ensures missing == Unmatched(columns, m)
    {
      missing := [];
      var i := 0;
      while i < |columns|
        invariant 0 <= i <= |columns|
        invariant Unmatched(columns, m) == missing + Unmatched(columns[i..], m)
      {
        assert columns[i..][0] == columns[i] && columns[i..][1..] == columns[i + 1..];
        var column := columns[i];
        if column.name in m {
          column := column.(name := m[column.name]);
        } else {
          missing := missing + [column.name];
        }
        i := i + 1;
      }
    }

    /** Every column SubSet to the positions p and renumbered, in place; a failed SubSet panics. */
    method Reorder(p: seq<int>) returns (err: Option<Failure>)
      requires cols == |columns|
      modifies this
      ensures cols == old(cols) && rows == old(rows)
      ensures err.None? <==> Reordered(old(columns), p).Ok?
      ensures err.None? ==> columns == Reordered(old(columns), p).value
      ensures err.Some? ==> err.value == Panic
    {
      ghost var cs := columns;
      var j := 0;
      while j < cols
        invariant 0 <= j <= cols == |columns| == |cs| && rows == old(rows)
        invariant forall q :: 0 <= q < j ==> SubSetOf(cs[q], p).Ok? && columns[q] == Renumbered(SubSetOf(cs[q], p).value)
        invariant forall q :: j <= q < |cs| ==> columns[q] == cs[q]
      {
        var column := new Series(columns[j]);
        var ns := column.SubSet(p);
        if ns.Err? {
          return Some(Panic);
        }
        ns.value.InitIndex();
        columns := columns[j := ns.value.Value()];
        j := j + 1;
      }
      assert columns == Reordered(cs, p).value;
      err := None;
    }

    /**
      One key of Arrange on this (copied) table: the key column's sorted
      positions, read with indexes 0 .. Len()-1, then every column reordered
      by them.
     */
    method ArrangeBy(o: Order) returns (err: Option<Failure>)
      requires cols == |columns|
      modifies this
      ensures cols == old(cols) && rows == old(rows)
      ensures err.None? <==> ArrangeStep(old(columns), o).Ok?
      ensures err.None? ==> columns == ArrangeStep(old(columns), o).value
      ensures err.Some? ==> err.value == ArrangeStep(old(columns), o).error
    {
      var i := IndexOf(columns, o.columnName);
      if i == -1 {
        return Some(Error);
      }
      var key := new Series(columns[i]);
      key.InitIndex();
      assert key.Value() == Renumbered(columns[i]);
      var p := key.SortIndex(o.reverse);
      if p.None? {
        return Some(Panic);
      }
      err := Reorder(p.value);
    }

    /**
      Arrange: the keys are applied in order to a Copy of the table, and its
      columns replace these only when every key succeeds.
     */
    method Arrange(orders: seq<Order>) returns (err: Option<Failure>)
      modifies this
      ensures (Value(), err) == ArrangeOf(old(Value()), orders)
    {
      var frame := Copy();
      var k := 0;
      while k < |orders|
        invariant 0 <= k <= |orders| && fresh(frame) && Value() == old(Value()) && frame.cols == |frame.columns|
        invariant ArrangeColumns(Sized(old(Value())).columns, orders) == ArrangeColumns(frame.columns, orders[k..])
      {
        assert orders[k..][0] == orders[k] && orders[k..][1..] == orders[k + 1..];
        err := frame.ArrangeBy(orders[k]);
        if err.Some? {
          return;
        }
        k := k + 1;
      }
      assert orders[k..] == [];
      columns := frame.columns;
      err := None;
    }

    /** SubSet: a Copy whose columns are each SubSet to the indexes, then sized again. */
    method SubSet(indexes: seq<int>) returns (r: Result<DataFrame, Failure>)
      ensures r.Ok? <==> SubSetFrameOf(Value(), indexes).Ok?
      ensures r.Ok? ==> fresh(r.value) && r.value.Value() == SubSetFrameOf(Value(), indexes).value
      ensures r.Err? ==> r.error == SubSetFrameOf(Value(), indexes).error
    {
      var frame := Copy();
      var err := frame.SubSetEach(indexes);
      if err.Some? {
        return Err(err.value);
      }
      var _, _ := frame.Size();
      return Ok(frame);
    }

    /** The loop of SubSet on the copied table: column i replaced by its SubSet, stopping at the first failure. */
    method SubSetEach(indexes: seq<int>) returns (err: Option<Failure>)
      requires cols == |columns|
      modifies this
      ensures err.None? <==> SubSetColumns(old(columns), indexes).Ok?
      ensures err.None? ==> columns == SubSetColumns(old(columns), indexes).value
      ensures err.Some? ==> err.value == SubSetColumns(old(columns), indexes).error
    {
      ghost var cs := columns;
      var i := 0;
      while i < cols
        invariant 0 <= i <= cols == |columns| == |cs|
        invariant forall q :: 0 <= q < i ==> SubSetOf(cs[q], indexes).Ok? && columns[q] == SubSetOf(cs[q], indexes).value
        invariant forall q :: i <= q < |cs| ==> columns[q] == cs[q]
      {
        var subset := SubSetColumn(columns[i], indexes);
        if subset.Err? {
          SubSetColumnsFirstError(cs, indexes, i);
          return Some(subset.error);
        }
        columns := columns[i := subset.value];
        i := i + 1;
      }
      assert columns == SubSetColumns(cs, indexes).value;
      err := None;
    }

    /** One column of SubSet's loop: Series.SubSet on the column, kept by value. */
    static method SubSetColumn(c: Column, indexes: seq<int>) returns (r: Result<Column, Failure>)
      ensures r == SubSetOf(c, indexes)
    {
      var column := new Series(c);
      var subset := column.SubSet(indexes);
      if subset.Err? {
        return Err(subset.error);
      }
      return Ok(subset.value.Value());
    }

    /** Filter: the positions the conditions select, then SubSet of them. */
    method Filter(conds: seq<Condition>) returns (r: Result<DataFrame, Failure>)
      ensures r.Ok? <==> FilterFrameOf(Value(), conds).Ok?
      ensures r.Ok? ==> fresh(r.value) && r.value.Value() == FilterFrameOf(Value(), conds).value
      ensures r.Err? ==> r.error == FilterFrameOf(Value(), conds).error
    {
      var indexes := Selected(conds);
      if indexes.Err? {
        return Err(indexes.error);
      }
      r := SubSet(indexes.value);
    }

    /**
      The loop of Filter: each condition's positions from Series.Filter on
      its column, joined to the selection so far (the first starts it, an OR
      takes the union, an AND the intersection); the first failure is returned.
     */
    method Selected(conds: seq<Condition>) returns (r: Result<seq<int>, Failure>)
      ensures r.Ok? <==> Selections(columns, conds).Ok?
      ensures r.Ok? ==> r.value == Joined(conds, Selections(columns, conds).value, 0, [])
      ensures r.Err? ==> r.error == Selections(columns, conds).error
    {
      var indexes: seq<int> := [];
      var k := 0;
      while k < |conds|
        invariant 0 <= k <= |conds|
        invariant Selections(columns, conds[k..]).Err? ==> Selections(columns, conds) == Selections(columns, conds[k..])
        invariant Selections(columns, conds[k..]).Ok? ==>
          && Selections(columns, conds).Ok?
          && Joined(conds, Selections(columns, conds).value, 0, []) == Joined(conds, Selections(columns, conds).value, k, indexes)
      {
        assert conds[k..][0] == conds[k] && conds[k..][1..] == conds[k + 1..];
        var s := Select(conds[k]);
        if s.Err? {
          return Err(s.error);
        }
        indexes := Combine(k, conds[k].or, indexes, s.value);
        k := k + 1;
      }
      assert conds[k..] == [];
      return Ok(indexes);
    }

    /** One condition of Filter's loop: Series.Filter on a copy of the named column, keeping its indexes. */
    method Select(c: Condition) returns (r: Result<seq<int>, Failure>)
      ensures r == Selection(columns, c)
    {
      var ns := Columns(c.column);
      var column := new Series(ns);
      var s := column.Filter(c.op, c.values);
      if s.Err? {
        return Err(s.error);
      }
      return Ok(s.value.indexes);
    }
  }
}
