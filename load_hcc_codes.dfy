/** `load_hcc_codes` of packages/workflows/hcc_extractor/v0/utils/load_hcc_codes.py:
    the codes of one column of the HCC table, read row by row. The file is
    given by what reading it yields: it is missing, reading it raises, or it
    holds a header and rows as `csv.DictReader` hands them out. */
module LoadHccCodes {
  import opened Wrappers
  import opened Text
  import opened Lists

  /** A header cell of `csv.DictReader` that is absent from a short row
      reads as `None`, which is not a string. */
  type Row = map<string, PyArg>

  datatype CsvFile =
    | Missing
    | Unreadable
    | Table(fieldnames: seq<string>, rows: seq<Row>)

  const DefaultColumn := "ICD-10-CM Codes"

  /** The column the codes are read from. An empty or absent header keeps
      the default name. */
  function CodeColumn(fieldnames: seq<string>): (col: string)
    ensures fieldnames != [] && DefaultColumn !in fieldnames ==> col == fieldnames[0]
    ensures fieldnames == [] || DefaultColumn in fieldnames ==> col == DefaultColumn
    ensures fieldnames != [] ==> col in fieldnames
  {
    if fieldnames != [] && DefaultColumn !in fieldnames then fieldnames[0] else DefaultColumn
  }

  /** The row's cell in the column holds something that is not a string, so
      `.strip()` raises. */
  function Breaks(col: string): Row -> bool {
    (row: Row) => col in row && row[col].PyNonStr?
  }

  /** The row gives a code: its cell is a string that does not strip to "". */
  function GivesCode(col: string): Row -> bool {
    (row: Row) => col in row && row[col].PyStr? && Strip(row[col].text) != []
  }

  function CellCode(col: string): Row -> string {
    (row: Row) => if col in row && row[col].PyStr? then Strip(row[col].text) else ""
  }

  /** What the loop over the rows collects, or `None` once a row raises. */
  function RowsCodes(rows: seq<Row>, col: string): Option<seq<string>>
    decreases |rows|
  {
    if rows == [] then Some([])
    else
      match RowsCodes(rows[..|rows| - 1], col)
      case None => None
      case Some(codes) =>
        var row := rows[|rows| - 1];
        if col !in row then Some(codes)
        else match row[col]
          case PyNonStr => None
          case PyStr(t) => if Strip(t) != [] then Some(codes + [Strip(t)]) else Some(codes)
  }

  /** The list `load_hcc_codes` returns. */
  function LoadedCodes(file: CsvFile): seq<string> {
    match file
    case Missing => []
    case Unreadable => []
    case Table(fieldnames, rows) =>
      match RowsCodes(rows, CodeColumn(fieldnames))
      case None => []
      case Some(codes) => codes
  }

  method LoadHccCodesFrom(file: CsvFile) returns (hccCodes: seq<string>)
    ensures hccCodes == LoadedCodes(file)
  {
    if file.Missing? {
      return [];
    }
    if file.Unreadable? {
      return [];
    }
    var rows := file.rows;
    var codeColumn := CodeColumn(file.fieldnames);
    hccCodes := [];
    var i := 0;
    while i < |rows|
      invariant 0 <= i <= |rows|
      invariant RowsCodes(rows[..i], codeColumn) == Some(hccCodes)
    {
      var row := rows[i];
      assert rows[..i + 1][..i] == rows[..i];
      if codeColumn in row {
        if row[codeColumn].PyNonStr? {
          RaisedStaysRaised(rows, i + 1, codeColumn);
          return [];
        }
        var code := Strip(row[codeColumn].text);
        if code != [] {
          hccCodes := hccCodes + [code];
        }
      }
      i := i + 1;
    }
    assert rows[..|rows|] == rows;
  }

  /** A row that raises ends the read whatever follows. */
  lemma {:induction false} RaisedStaysRaised(rows: seq<Row>, i: nat, col: string)
    requires i <= |rows| && RowsCodes(rows[..i], col).None?
    ensures RowsCodes(rows, col).None?
    decreases |rows| - i
  {
    if i < |rows| {
      assert rows[..i + 1][..i] == rows[..i];
      RaisedStaysRaised(rows, i + 1, col);
    } else {
      assert rows[..i] == rows;
    }
  }

  /** The read raises exactly when some row's cell in the column is not a
      string; otherwise it collects the stripped, non-empty cells in row
      order. */
  lemma {:induction false} RowsCodesMeaning(rows: seq<Row>, col: string)
    ensures RowsCodes(rows, col).None? <==> exists k :: 0 <= k < |rows| && Breaks(col)(rows[k])
    ensures RowsCodes(rows, col).Some? ==> RowsCodes(rows, col).value == FilterMap(rows, GivesCode(col), CellCode(col))
    decreases |rows|
  {
    if rows != [] {
      var init, row := rows[..|rows| - 1], rows[|rows| - 1];
      assert rows == init + [row];
      RowsCodesMeaning(init, col);
      FilterMapSnoc(init, row, GivesCode(col), CellCode(col));
      if exists k :: 0 <= k < |init| && Breaks(col)(init[k]) {
        var k :| 0 <= k < |init| && Breaks(col)(init[k]);
        assert rows[k] == init[k];
      }
      if exists k :: 0 <= k < |rows| && Breaks(col)(rows[k]) {
        var k :| 0 <= k < |rows| && Breaks(col)(rows[k]);
        if k < |init| {
          assert init[k] == rows[k];
        }
      }
    }
  }

  /** A missing or unreadable file, and any row whose cell raises, give the
      empty list; otherwise the result is the column's stripped, non-empty
      values in row order. */
  lemma LoadedCodesMeaning(file: CsvFile)
    ensures file.Missing? || file.Unreadable? ==> LoadedCodes(file) == []
    ensures file.Table? && (exists k :: 0 <= k < |file.rows| && Breaks(CodeColumn(file.fieldnames))(file.rows[k])) ==>
      LoadedCodes(file) == []
    ensures file.Table? && (forall k :: 0 <= k < |file.rows| ==> !Breaks(CodeColumn(file.fieldnames))(file.rows[k])) ==>
      LoadedCodes(file) == FilterMap(file.rows, GivesCode(CodeColumn(file.fieldnames)), CellCode(CodeColumn(file.fieldnames)))
  {
    if file.Table? {
      RowsCodesMeaning(file.rows, CodeColumn(file.fieldnames));
    }
  }

  /** Every code loaded is non-empty and already stripped. */
  lemma LoadedCodesStripped(file: CsvFile)
    ensures forall c :: c in LoadedCodes(file) ==> c != [] && Strip(c) == c
  {
    if file.Table? {
      var col := CodeColumn(file.fieldnames);
      RowsCodesMeaning(file.rows, col);
      if RowsCodes(file.rows, col).Some? {
        FilterMapFrom(file.rows, GivesCode(col), CellCode(col));
        forall c | c in LoadedCodes(file) ensures c != [] && Strip(c) == c {
          var k :| 0 <= k < |file.rows| && GivesCode(col)(file.rows[k]) && c == CellCode(col)(file.rows[k]);
          StripProperties(file.rows[k][col].text);
        }
      }
    }
  }
}
