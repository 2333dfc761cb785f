/**
 * The external spreadsheet, seen from the application: a grid of string cells,
 * read whole and extended by appending rows. The first row counts as a header
 * when its first cell is the literal marker "No".
 */
module Sheets {

  type Row = seq<string>
  type Grid = seq<Row>

  const HeaderMarker: string := "No"

  /** The row the export writes on top of an empty sheet. */
  const HeaderRow: Row := ["No", "Tanggal", "Customer", "Whatsapp", "Treatment", "Capster"]

  /** True when the sheet starts with a header row. */
  predicate HasHeader(sheet: Grid)
  {
    |sheet| > 0 && |sheet[0]| > 0 && sheet[0][0] == HeaderMarker
  }

  /** The number of data rows: the sheet length, less one when the first row is a header. */
  function DataRowCount(sheet: Grid): (n: nat)
    ensures n <= |sheet|
    ensures n == |sheet| - 1 <==> HasHeader(sheet)
    ensures n == |sheet| <==> !HasHeader(sheet)
    ensures sheet == [] ==> n == 0
  {
    if HasHeader(sheet) then |sheet| - 1 else |sheet|
  }

  /** Appending rows below a header adds exactly their number to the data-row count. */
  lemma DataRowCountAppend(sheet: Grid, rows: Grid)
    requires |sheet| > 0
    ensures DataRowCount(sheet + rows) == DataRowCount(sheet) + |rows|
  {
    assert (sheet + rows)[0] == sheet[0];
  }

  /** The names of the two settings the spreadsheet feature needs. */
  const ServiceAccountKeyVar: string := "GOOGLE_SERVICE_ACCOUNT_KEY"
  const SheetIdVar: string := "GOOGLE_SHEET_ID"

  /** Both settings are present and non-empty (a JavaScript truthiness test on each). */
  predicate Configured(env: map<string, string>)
  {
    && ServiceAccountKeyVar in env && env[ServiceAccountKeyVar] != ""
    && SheetIdVar in env && env[SheetIdVar] != ""
  }

  /** The spreadsheet service: a grid that grows by appends. Cells read back verbatim. */
  class Spreadsheet {
    var rows: Grid

    constructor (initial: Grid)
      ensures rows == initial
    {
      rows := initial;
    }

    /** Adds `batch` after the existing content, in one call. */
    method Append(batch: Grid)
      modifies this
      ensures rows == old(rows) + batch
    {
      rows := rows + batch;
    }
  }
}
