/**
 * The pure part of `getSheetData`: the grid of cell strings the spreadsheet
 * read returns becomes one record per row below the header row, the header
 * and the values being paired by column position.
 */
module SheetRows {
  import opened Wrappers
  import opened JsText
  import opened Records

  type Row = seq<string>

  /** The header is the third row of the sheet. */
  const HEADER_INDEX: nat := 2

  const MSG_NO_DATA := "Nenhum dado encontrado"
  const MSG_NO_HEADER_ROW := "Header não encontrado"
  const MSG_NO_HEADER_NAME := "Nenhum header encontrado"

  /** `row && row[index] ? row[index] : ''`: a missing or empty cell reads as ''. */
  function Cell(row: Row, i: nat): string {
    if i < |row| && row[i] != "" then row[i] else ""
  }

  /** `headers.some(h => h && h.toString().trim() !== '')` */
  predicate HasHeaderName(headers: Row) {
    exists i :: 0 <= i < |headers| && Trim(headers[i]) != ""
  }

  /** The object the `forEach` over the headers builds for one row. */
  function RecordOf(headers: Row, row: Row): Record
    decreases |headers|
  {
    if headers == [] then []
    else
      var n := |headers| - 1;
      Put(RecordOf(headers[..n], row), headers[n], Cell(row, n))
  }

  /** The records for every row below the header, in grid order. */
  function RecordsOf(headers: Row, body: seq<Row>): (data: seq<Record>)
    ensures |data| == |body|
  {
    seq(|body|, j requires 0 <= j < |body| => RecordOf(headers, body[j]))
  }

  /** A record never has the same key twice. */
  lemma {:induction false} RecordOfDistinct(headers: Row, row: Row)
    ensures DistinctKeys(RecordOf(headers, row))
    decreases |headers|
  {
    if headers != [] {
      var n := |headers| - 1;
      RecordOfDistinct(headers[..n], row);
      PutDistinct(RecordOf(headers[..n], row), headers[n], Cell(row, n));
    }
  }

  /** A name that heads no column is not a field of the record. */
  lemma {:induction false} RecordOfAbsent(headers: Row, row: Row, k: string)
    requires forall i :: 0 <= i < |headers| ==> headers[i] != k
    ensures Get(RecordOf(headers, row), k) == None
    decreases |headers|
  {
    if headers != [] {
      var n := |headers| - 1;
      RecordOfAbsent(headers[..n], row, k);
    }
  }

  /**
   * The field named by column `i` holds that column's cell when no later
   * column carries the same name: with repeated header names, the later
   * column wins.
   */
  lemma {:induction false} RecordOfLastColumn(headers: Row, row: Row, i: nat)
    requires i < |headers|
    requires forall j :: i < j < |headers| ==> headers[j] != headers[i]
    ensures Get(RecordOf(headers, row), headers[i]) == Some(Cell(row, i))
    decreases |headers|
  {
    var n := |headers| - 1;
    var prefix := headers[..n];
    assert RecordOf(headers, row) == Put(RecordOf(prefix, row), headers[n], Cell(row, n));
    if i < n {
      assert prefix[i] == headers[i];
      assert forall j :: i < j < |prefix| ==> prefix[j] != prefix[i];
      RecordOfLastColumn(prefix, row, i);
      assert headers[n] != headers[i];
    }
  }

  /** Every header column becomes a field, whatever the row's length. */
  lemma EveryHeaderIsAField(headers: Row, row: Row, i: nat)
    requires i < |headers|
    ensures Get(RecordOf(headers, row), headers[i]).Some?
  {
    var k := headers[i];
    var last: nat := i;
    while last + 1 < |headers| && exists j :: last < j < |headers| && headers[j] == k
      invariant i <= last < |headers| && headers[last] == k
      decreases |headers| - last
    {
      var j :| last < j < |headers| && headers[j] == k;
      last := j;
    }
    RecordOfLastColumn(headers, row, last);
  }

  /** The loop of the source's `forEach` that fills `obj` column by column. */
  method BuildRecord(headers: Row, row: Row) returns (obj: Record)
    ensures obj == RecordOf(headers, row)
  {
    obj := [];
    for index := 0 to |headers|
      invariant obj == RecordOf(headers[..index], row)
    {
      assert headers[..index + 1][..index] == headers[..index];
      obj := Put(obj, headers[index], if index < |row| && row[index] != "" then row[index] else "");
    }
    assert headers[..|headers|] == headers;
  }

  /** What normalisation yields: nothing (with the message sent) or the header row and the records. */
  datatype Normalized = NoData(message: string) | Table(headers: Row, data: seq<Record>)

  /**
   * Lines 310-350 of `getSheetData`: no grid, an empty grid, a grid without
   * a third row, or a third row without a non-blank cell give no data;
   * otherwise every row below the header (blank rows included) gives one
   * record, in grid order, its values as read (not trimmed).
   */
  method Normalize(rows: Option<seq<Row>>) returns (n: Normalized)
    ensures (rows.None? || |rows.value| == 0) ==> n == NoData(MSG_NO_DATA)
    ensures rows.Some? && 0 < |rows.value| <= HEADER_INDEX ==> n == NoData(MSG_NO_HEADER_ROW)
    ensures (rows.Some? && |rows.value| > HEADER_INDEX && !HasHeaderName(rows.value[HEADER_INDEX]))
      ==> n == NoData(MSG_NO_HEADER_NAME)
    ensures n.Table? <==> rows.Some? && |rows.value| > HEADER_INDEX && HasHeaderName(rows.value[HEADER_INDEX])
    ensures n.Table? ==>
      && n.headers == rows.value[HEADER_INDEX]
      && |n.data| == |rows.value| - (HEADER_INDEX + 1)
      && n.data == RecordsOf(n.headers, rows.value[HEADER_INDEX + 1..])
  {
    if rows.None? || |rows.value| == 0 {
      return NoData(MSG_NO_DATA);
    }
    var grid := rows.value;
    if |grid| <= HEADER_INDEX {
      return NoData(MSG_NO_HEADER_ROW);
    }
    var headers := grid[HEADER_INDEX];
    if !HasHeaderName(headers) {
      return NoData(MSG_NO_HEADER_NAME);
    }
    var body := grid[HEADER_INDEX + 1..];
    var data: seq<Record> := [];
    for j := 0 to |body|
      invariant data == RecordsOf(headers, body[..j])
    {
      var obj := BuildRecord(headers, body[j]);
      data := data + [obj];
    }
    assert body[..|body|] == body;
    n := Table(headers, data);
  }
}
