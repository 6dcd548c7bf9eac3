/**
  Row extractor (`read_rows_as_dicts`): turns a worksheet's cell grid into one
  record per non-blank data row, keyed by the first non-blank row.
*/
module RowExtractor {
  import opened Wrappers
  import opened Strings
  import opened Records

  /** A cell as the spreadsheet reader yields it: nothing, or its text. */
  type Cell = Option<string>

  type Row = seq<Cell>

  /** `"" if cell is None else str(cell).strip()` */
  function CellText(c: Cell): string {
    match c
    case None => ""
    case Some(s) => Strip(s)
  }

  /** A cell that is None or only whitespace. */
  predicate BlankCell(c: Cell) {
    c.None? || AllSpace(c.value)
  }

  lemma BlankCellText(c: Cell)
    ensures BlankCell(c) <==> CellText(c) == ""
  {
    if c.Some? {
      StripEmpty(c.value);
    }
  }

  /** `any(cell is not None and str(cell).strip() != "" for cell in row)` */
  predicate NonBlankRow(row: Row) {
    exists i :: 0 <= i < |row| && !BlankCell(row[i])
  }

  function FirstNonBlankFrom(rows: seq<Row>, k: nat): (o: Option<nat>)
    requires k <= |rows|
    ensures o.Some? ==> k <= o.value < |rows| && NonBlankRow(rows[o.value])
    ensures o.Some? ==> forall j :: k <= j < o.value ==> !NonBlankRow(rows[j])
    ensures o.None? ==> forall j :: k <= j < |rows| ==> !NonBlankRow(rows[j])
    decreases |rows| - k
  {
    if k == |rows| then None
    else if NonBlankRow(rows[k]) then Some(k)
    else FirstNonBlankFrom(rows, k + 1)
  }

  /** The index of the header row: the first row that is not blank. */
  function HeaderIndex(rows: seq<Row>): (o: Option<nat>)
    ensures o.Some? ==> o.value < |rows| && NonBlankRow(rows[o.value])
    ensures o.Some? ==> forall j :: 0 <= j < o.value ==> !NonBlankRow(rows[j])
    ensures o.None? ==> forall j :: 0 <= j < |rows| ==> !NonBlankRow(rows[j])
  {
    FirstNonBlankFrom(rows, 0)
  }

  /** The header for column `i`: the cell's text, or `col_<i>` when it is blank. */
  function HeaderName(c: Cell, i: nat): string {
    if CellText(c) == "" then "col_" + NatToString(i) else CellText(c)
  }

  function Headers(row: Row): seq<string> {
    seq(|row|, i requires 0 <= i < |row| => HeaderName(row[i], i))
  }

  function Min(a: nat, b: nat): nat {
    if a <= b then a else b
  }

  /** The text of each cell of a row. */
  function Texts(row: Row): (ts: seq<string>)
    ensures |ts| == |row| && forall i :: 0 <= i < |row| ==> ts[i] == CellText(row[i])
  {
    seq(|row|, i requires 0 <= i < |row| => CellText(row[i]))
  }

  /** The record of one data row: `zip` stops at the shorter of headers and row. */
  function ZipRecord(headers: seq<string>, row: Row): Record {
    Assign(headers, Texts(row), Min(|headers|, |row|))
  }

  /** The rows that are not blank, in order. */
  function DataRows(rows: seq<Row>): seq<Row> {
    if |rows| == 0 then []
    else
      var front := DataRows(rows[..|rows| - 1]);
      if NonBlankRow(rows[|rows| - 1]) then front + [rows[|rows| - 1]] else front
  }

  /** One record per row, zipped against the header names. */
  function ZipAll(headers: seq<string>, rs: seq<Row>): (recs: seq<Record>)
    ensures |recs| == |rs|
  {
    if |rs| == 0 then [] else ZipAll(headers, rs[..|rs| - 1]) + [ZipRecord(headers, rs[|rs| - 1])]
  }

  /** The records of the data rows, blank rows skipped. */
  function DataRecords(headers: seq<string>, rows: seq<Row>): seq<Record> {
    ZipAll(headers, DataRows(rows))
  }

  /** What `read_rows_as_dicts` returns for a grid. */
  function Extract(rows: seq<Row>): seq<Record> {
    match HeaderIndex(rows)
    case None => []
    case Some(h) => DataRecords(Headers(rows[h]), rows[h + 1..])
  }

  /** `read_rows_as_dicts`: find the header row, name the columns, zip the data rows. */
  method ReadRowsAsDicts(rows: seq<Row>) returns (records: seq<Record>)
    ensures records == Extract(rows)
  {
    var o := FindHeaderRow(rows);
    if o.None? {
      return [];
    }
    var h := o.value;
    var headers := HeaderRow(rows[h]);
    records := ZipDataRows(headers, rows, h + 1);
  }

  /** The header search loop: the first row with a non-blank cell. */
  method FindHeaderRow(rows: seq<Row>) returns (o: Option<nat>)
    ensures o == HeaderIndex(rows)
  {
    var h := 0;
    while h < |rows| && !NonBlankRow(rows[h])
      invariant h <= |rows|
      invariant FirstNonBlankFrom(rows, h) == HeaderIndex(rows)
    {
      h := h + 1;
    }
    if h == |rows| {
      o := None;
    } else {
      o := Some(h);
    }
  }

  /** The data loop: every non-blank row from `start` on, zipped against the headers. */
  method ZipDataRows(headers: seq<string>, rows: seq<Row>, start: nat) returns (records: seq<Record>)
    requires start <= |rows|
    ensures records == DataRecords(headers, rows[start..])
  {
    records := [];
    var k := start;
    assert rows[start..k] == [];
    while k < |rows|
      invariant start <= k <= |rows|
      invariant records == DataRecords(headers, rows[start..k])
    {
      var row := rows[k];
      DataRecordsStep(headers, rows, start, k);
      if NonBlankRow(row) {
        var entry := ZipRow(headers, row);
        records := records + [entry];
      }
      k := k + 1;
    }
    assert rows[start..k] == rows[start..];
  }

  /** The header loop: each cell's text, or `col_<i>` for a blank one. */
  method HeaderRow(headerRow: Row) returns (headers: seq<string>)
    ensures headers == Headers(headerRow)
  {
    headers := [];
    for idx := 0 to |headerRow|
      invariant headers == Headers(headerRow)[..idx]
    {
      HeadersPrefix(headerRow, idx);
      var t := CellText(headerRow[idx]);
      if t == "" {
        headers := headers + ["col_" + NatToString(idx)];
      } else {
        headers := headers + [t];
      }
    }
    assert Headers(headerRow)[..|headerRow|] == Headers(headerRow);
  }

  lemma HeadersPrefix(row: Row, i: nat)
    requires i < |row|
    ensures Headers(row)[..i + 1] == Headers(row)[..i] + [HeaderName(row[i], i)]
  {
  }

  /** One data row: each header paired with its cell, in order, assigns the cell's text to that key. */
  method ZipRow(headers: seq<string>, row: Row) returns (entry: Record)
    ensures entry == ZipRecord(headers, row)
  {
    entry := [];
    var texts := Texts(row);
    var n := Min(|headers|, |row|);
    for j := 0 to n
      invariant entry == Assign(headers, texts, j)
    {
      AssignNext(headers, texts, j);
      entry := Put(entry, headers[j], texts[j]);
    }
  }

  // ---------------------------------------------------------------------------
  // Properties

  /** A grid with no non-blank row yields no records. */
  lemma ExtractBlankGrid(rows: seq<Row>)
    requires forall j :: 0 <= j < |rows| ==> !NonBlankRow(rows[j])
    ensures Extract(rows) == []
  {
  }

  /** The indices `j` in `[lo, hi)` of non-blank rows, ascending. */
  ghost function NonBlankIndices(rows: seq<Row>, lo: nat, hi: nat): (ix: seq<nat>)
    requires lo <= hi <= |rows|
    ensures forall i :: 0 <= i < |ix| ==> lo <= ix[i] < hi
    decreases hi - lo
  {
    if lo == hi then []
    else
      var front := NonBlankIndices(rows, lo, hi - 1);
      if NonBlankRow(rows[hi - 1]) then front + [hi - 1] else front
  }

  /** They are exactly the non-blank rows of `[lo, hi)`, each once, in ascending order. */
  lemma NonBlankIndicesSpec(rows: seq<Row>, lo: nat, hi: nat)
    requires lo <= hi <= |rows|
    ensures var ix := NonBlankIndices(rows, lo, hi);
      && (forall i :: 0 <= i < |ix| ==> lo <= ix[i] < hi && NonBlankRow(rows[ix[i]]))
      && (forall i, i' :: 0 <= i < i' < |ix| ==> ix[i] < ix[i'])
      && (forall j :: lo <= j < hi && NonBlankRow(rows[j]) ==> j in ix)
  {
    NonBlankIndicesSound(rows, lo, hi);
    NonBlankIndicesAscending(rows, lo, hi);
    NonBlankIndicesComplete(rows, lo, hi);
  }

  /** Every listed index is a non-blank row. */
  lemma {:induction false} NonBlankIndicesSound(rows: seq<Row>, lo: nat, hi: nat)
    requires lo <= hi <= |rows|
    ensures forall i :: 0 <= i < |NonBlankIndices(rows, lo, hi)| ==> NonBlankRow(rows[NonBlankIndices(rows, lo, hi)[i]])
    decreases hi - lo
  {
    if lo < hi {
      NonBlankIndicesSound(rows, lo, hi - 1);
      var front := NonBlankIndices(rows, lo, hi - 1);
      assert forall i :: 0 <= i < |front| ==> NonBlankRow(rows[front[i]]);
      var ix := NonBlankIndices(rows, lo, hi);
      if NonBlankRow(rows[hi - 1]) {
        assert ix == front + [hi - 1];
        forall i | 0 <= i < |ix| ensures NonBlankRow(rows[ix[i]]) {
          if i < |front| {
            assert ix[i] == front[i];
          }
        }
      } else {
        assert ix == front;
      }
    }
  }

  /** The indices ascend. */
  lemma {:induction false} NonBlankIndicesAscending(rows: seq<Row>, lo: nat, hi: nat)
    requires lo <= hi <= |rows|
    ensures forall i, i' :: 0 <= i < i' < |NonBlankIndices(rows, lo, hi)| ==>
      NonBlankIndices(rows, lo, hi)[i] < NonBlankIndices(rows, lo, hi)[i']
    decreases hi - lo
  {
    if lo < hi {
      NonBlankIndicesAscending(rows, lo, hi - 1);
      var front := NonBlankIndices(rows, lo, hi - 1);
      assert forall i, i' :: 0 <= i < i' < |front| ==> front[i] < front[i'];
      var ix := NonBlankIndices(rows, lo, hi);
      if NonBlankRow(rows[hi - 1]) {
        assert ix == front + [hi - 1];
        forall i, i' | 0 <= i < i' < |ix| ensures ix[i] < ix[i'] {
          assert ix[i] == front[i] < hi - 1;
          if i' < |front| {
            assert ix[i'] == front[i'];
          }
        }
      } else {
        assert ix == front;
      }
    }
  }

  /** Every non-blank row of the range is listed. */
  lemma {:induction false} NonBlankIndicesComplete(rows: seq<Row>, lo: nat, hi: nat)
    requires lo <= hi <= |rows|
    ensures var ix := NonBlankIndices(rows, lo, hi);
      forall j :: lo <= j < hi && NonBlankRow(rows[j]) ==> j in ix
    decreases hi - lo
  {
    if lo < hi {
      NonBlankIndicesComplete(rows, lo, hi - 1);
      var front := NonBlankIndices(rows, lo, hi - 1);
      if NonBlankRow(rows[hi - 1]) {
        var ix := front + [hi - 1];
        assert NonBlankIndices(rows, lo, hi) == ix;
        assert ix[|ix| - 1] == hi - 1;
        forall j | lo <= j < hi && NonBlankRow(rows[j]) ensures j in ix {
          if j < hi - 1 {
            assert j in front;
          }
        }
      } else {
        assert NonBlankIndices(rows, lo, hi) == front;
      }
    }
  }

  /** One more row of the range adds it when it is not blank. */
  lemma DataRowsPrefix(rows: seq<Row>, lo: nat, k: nat)
    requires lo <= k < |rows|
    ensures NonBlankRow(rows[k]) ==> DataRows(rows[lo..k + 1]) == DataRows(rows[lo..k]) + [rows[k]]
    ensures !NonBlankRow(rows[k]) ==> DataRows(rows[lo..k + 1]) == DataRows(rows[lo..k])
  {
    var seg := rows[lo..k + 1];
    assert seg[..|seg| - 1] == rows[lo..k];
    assert seg[|seg| - 1] == rows[k];
  }

  /** One more grid row adds its record when it is not blank, and nothing otherwise. */
  lemma DataRecordsStep(headers: seq<string>, rows: seq<Row>, lo: nat, k: nat)
    requires lo <= k < |rows|
    ensures NonBlankRow(rows[k]) ==>
      DataRecords(headers, rows[lo..k + 1]) == DataRecords(headers, rows[lo..k]) + [ZipRecord(headers, rows[k])]
    ensures !NonBlankRow(rows[k]) ==> DataRecords(headers, rows[lo..k + 1]) == DataRecords(headers, rows[lo..k])
  {
    DataRowsPrefix(rows, lo, k);
    if NonBlankRow(rows[k]) {
      ZipAllSnoc(headers, DataRows(rows[lo..k]), rows[k]);
    }
  }

  lemma ZipAllSnoc(headers: seq<string>, rs: seq<Row>, row: Row)
    ensures ZipAll(headers, rs + [row]) == ZipAll(headers, rs) + [ZipRecord(headers, row)]
  {
    assert (rs + [row])[..|rs|] == rs;
  }

  /** Record `i` is row `i` zipped. */
  lemma {:induction false} ZipAllAt(headers: seq<string>, rs: seq<Row>, i: nat)
    requires i < |rs|
    ensures ZipAll(headers, rs)[i] == ZipRecord(headers, rs[i])
  {
    if i < |rs| - 1 {
      ZipAllAt(headers, rs[..|rs| - 1], i);
    }
  }

  /** The data rows of `[lo, hi)` are the rows at the non-blank indices. */
  lemma {:induction false} DataRowsAt(rows: seq<Row>, lo: nat, hi: nat)
    requires lo <= hi <= |rows|
    ensures var d, ix := DataRows(rows[lo..hi]), NonBlankIndices(rows, lo, hi);
      |d| == |ix| && forall i :: 0 <= i < |ix| ==> d[i] == rows[ix[i]]
    decreases hi - lo
  {
    if lo < hi {
      DataRowsAt(rows, lo, hi - 1);
      DataRowsPrefix(rows, lo, hi - 1);
    }
  }

  /** Record `i` of the rows in `[lo, hi)` comes from the `i`-th non-blank row. */
  lemma DataRecordsAt(headers: seq<string>, rows: seq<Row>, lo: nat, hi: nat)
    requires lo <= hi <= |rows|
    ensures var recs, ix := DataRecords(headers, rows[lo..hi]), NonBlankIndices(rows, lo, hi);
      |recs| == |ix| && forall i :: 0 <= i < |ix| ==> recs[i] == ZipRecord(headers, rows[ix[i]])
  {
    DataRowsAt(rows, lo, hi);
    var d := DataRows(rows[lo..hi]);
    forall i | 0 <= i < |d| ensures ZipAll(headers, d)[i] == ZipRecord(headers, d[i]) {
      ZipAllAt(headers, d, i);
    }
  }

  /**
    Once a header row exists, the records are exactly one per non-blank row after
    it, in row order, each zipped against the header names.
  */
  lemma ExtractOnePerDataRow(rows: seq<Row>, h: nat)
    requires HeaderIndex(rows) == Some(h)
    ensures var ix := NonBlankIndices(rows, h + 1, |rows|);
      && (forall i :: 0 <= i < |ix| ==> h + 1 <= ix[i] < |rows| && NonBlankRow(rows[ix[i]]))
      && (forall i, i' :: 0 <= i < i' < |ix| ==> ix[i] < ix[i'])
      && (forall j :: h + 1 <= j < |rows| && NonBlankRow(rows[j]) ==> j in ix)
    ensures var recs, ix := Extract(rows), NonBlankIndices(rows, h + 1, |rows|);
      |recs| == |ix| && forall i :: 0 <= i < |ix| ==> recs[i] == ZipRecord(Headers(rows[h]), rows[ix[i]])
  {
    NonBlankIndicesSpec(rows, h + 1, |rows|);
    DataRecordsAt(Headers(rows[h]), rows, h + 1, |rows|);
    assert rows[h + 1..|rows|] == rows[h + 1..];
  }

  /**
    A record holds the first `min(|headers|, |row|)` header names, each once and
    in header order; a name that repeats keeps its first position and the value
    of the last cell under it; the other names get the text of their own cell.
  */
  lemma ZipRecordFields(headers: seq<string>, row: Row)
    ensures var n, rec := Min(|headers|, |row|), ZipRecord(headers, row);
      && DistinctKeys(rec)
      && Keys(rec) == Dedup(headers[..n])
      && (forall k :: k in Keys(rec) <==> k in headers[..n])
      && forall i :: 0 <= i < n && (forall j :: i < j < n ==> headers[j] != headers[i]) ==>
           Lookup(rec, headers[i]) == Some(CellText(row[i]))
  {
    var n := Min(|headers|, |row|);
    var ts := Texts(row);
    AssignKeys(headers, ts, n);
    DedupMembers(headers[..n]);
    forall i | 0 <= i < n && (forall j :: i < j < n ==> headers[j] != headers[i])
      ensures Lookup(ZipRecord(headers, row), headers[i]) == Some(CellText(row[i]))
    {
      AssignLookup(headers, ts, n, i);
    }
  }

  /** No header name is empty, so no record has the key "". */
  lemma HeadersNonEmpty(row: Row)
    ensures forall i :: 0 <= i < |row| ==> Headers(row)[i] != ""
  {
  }
}
