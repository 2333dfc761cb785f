/**
 * `GET /api/export/summary` (src/app/api/export/summary/route.ts): a status
 * view of today's export. It reports how many appointments the store holds for
 * today, how many data rows the sheet holds (a header row is not counted),
 * whether the sheet is configured, and short previews: the first three
 * appointments and the last three sheet rows.
 */
module ExportSummary {
  import opened Basics
  import opened Sheets

  /**
   * A joined record as the store returns it: absent, a single object, or an
   * array of objects (only the `name` field is read).
   */
  datatype Embedded = Null | Object(name: string) | Array(names: seq<string>)

  /** Today's appointment as selected by the route. */
  datatype Appointment = Appointment(id: nat, date: string, time: string, customers: Embedded, treatments: Embedded, capsters: Embedded)

  /** The name of a joined record: element 0 of an array, otherwise the object's own. */
  function NameOf(e: Embedded): (r: Option<string>)
    ensures r.None? <==> e.Null? || e == Array([])
    ensures e.Object? ==> r == Some(e.name)
    ensures e.Array? && e.names != [] ==> r == Some(e.names[0])
  {
    match e
    case Null => None
    case Object(n) => Some(n)
    case Array(ns) => if ns == [] then None else Some(ns[0])
  }

  /** Both shapes the store may return for one joined record yield the same name. */
  lemma NameOfEitherShape(n: string, more: seq<string>)
    ensures NameOf(Array([n] + more)) == NameOf(Object(n)) == Some(n)
  {
  }

  function Min(a: nat, b: nat): nat
  {
    if a <= b then a else b
  }

  const PreviewSize: nat := 3

  /** One line of the appointment preview. */
  datatype RecentAppointment = RecentAppointment(time: string, customer: Option<string>, treatment: Option<string>)

  function Preview(a: Appointment): RecentAppointment
  {
    RecentAppointment(a.time, NameOf(a.customers), NameOf(a.treatments))
  }

  /** `appointments.slice(0, 3).map(...)`: the first three appointments, in order. */
  function RecentAppointments(rows: seq<Appointment>): (r: seq<RecentAppointment>)
    ensures |r| == Min(PreviewSize, |rows|)
    ensures forall i :: 0 <= i < |r| ==> r[i] == Preview(rows[i])
  {
    seq(Min(PreviewSize, |rows|), i requires 0 <= i < Min(PreviewSize, |rows|) => Preview(rows[i]))
  }

  /** Appointments added after the first three do not change the preview. */
  lemma RecentAppointmentsStable(rows: seq<Appointment>, more: seq<Appointment>)
    requires |rows| >= PreviewSize
    ensures RecentAppointments(rows + more) == RecentAppointments(rows)
  {
    var a, b := RecentAppointments(rows + more), RecentAppointments(rows);
    assert forall i :: 0 <= i < |a| ==> a[i] == b[i];
  }

  /** A sheet cell, or `undefined` past the end of a short row. */
  function Cell(row: Row, i: nat): Option<string>
  {
    if i < |row| then Some(row[i]) else None
  }

  /** One line of the sheet preview: cells 1 to 4 of a row (the numbering cell 0 is dropped). */
  datatype SheetEntry = SheetEntry(date: Option<string>, customer: Option<string>, whatsapp: Option<string>, treatment: Option<string>)

  function Entry(row: Row): (e: SheetEntry)
    ensures |row| >= 5 ==> e == SheetEntry(Some(row[1]), Some(row[2]), Some(row[3]), Some(row[4]))
  {
    SheetEntry(Cell(row, 1), Cell(row, 2), Cell(row, 3), Cell(row, 4))
  }

  /** `existingData.slice(-3).map(...)`: the last three rows, in order (a header row too when the sheet is short). */
  function RecentSheetEntries(sheet: Grid): (r: seq<SheetEntry>)
    ensures |r| == Min(PreviewSize, |sheet|)
    ensures forall i :: 0 <= i < |r| ==> r[i] == Entry(sheet[|sheet| - |r| + i])
  {
    var tail := sheet[|sheet| - Min(PreviewSize, |sheet|)..];
    seq(|tail|, i requires 0 <= i < |tail| => Entry(tail[i]))
  }

  /** After three or more rows are appended, the preview shows only appended rows: the last three of them. */
  lemma RecentSheetEntriesAfterAppend(sheet: Grid, batch: Grid)
    requires |batch| >= PreviewSize
    ensures RecentSheetEntries(sheet + batch) == RecentSheetEntries(batch)
  {
    var a, b := RecentSheetEntries(sheet + batch), RecentSheetEntries(batch);
    assert forall i :: 0 <= i < |a| ==> a[i] == b[i] by {
      forall i | 0 <= i < |a|
        ensures a[i] == b[i]
      {
        assert (sheet + batch)[|sheet + batch| - |a| + i] == batch[|batch| - |b| + i];
      }
    }
  }

  /** The JSON body of a successful response. */
  datatype Status = Status(
    date: string,
    appointmentsInDB: nat,
    appointmentsInSheet: nat,
    sheetsConfigured: bool,
    recentAppointments: seq<RecentAppointment>,
    recentSheetEntries: seq<SheetEntry>)

  datatype StatusResponse = StoreError(error: string) | Report(status: Status)

  /**
   * The route for today's `date`, the store's answer, the environment, and the
   * sheet with whether reading it succeeded. The sheet is read only when it is
   * configured; a failed read counts as an empty sheet.
   */
  function StatusSpec(date: string, fetched: Result<seq<Appointment>>, env: map<string, string>,
                      sheet: Grid, readOk: bool): StatusResponse
  {
    if fetched.Err? then StoreError(fetched.message)
    else
      var rows := fetched.value;
      var existing := if Configured(env) && readOk then sheet else [];
      Report(Status(date, |rows|, DataRowCount(existing), Configured(env),
                    RecentAppointments(rows), RecentSheetEntries(existing)))
  }

  /**
   * What the status reports: the store's error is passed on; otherwise the
   * store count is the number of fetched rows, the sheet count is the number
   * of data rows of the sheet that was read (none when the sheet is not
   * configured or the read failed), and the previews hold at most three lines.
   */
  lemma StatusFacts(date: string, fetched: Result<seq<Appointment>>, env: map<string, string>, sheet: Grid, readOk: bool)
    ensures var r := StatusSpec(date, fetched, env, sheet, readOk);
            && (fetched.Err? <==> r.StoreError?)
            && (fetched.Err? ==> r.error == fetched.message)
            && (r.Report? ==>
                  && r.status.date == date
                  && r.status.appointmentsInDB == |fetched.value|
                  && r.status.sheetsConfigured == Configured(env)
                  && |r.status.recentAppointments| <= PreviewSize
                  && |r.status.recentSheetEntries| <= PreviewSize
                  && (Configured(env) && readOk ==>
                        && r.status.appointmentsInSheet == |sheet| - (if HasHeader(sheet) then 1 else 0)
                        && |r.status.recentSheetEntries| == Min(PreviewSize, |sheet|))
                  && (!(Configured(env) && readOk) ==>
                        r.status.appointmentsInSheet == 0 && r.status.recentSheetEntries == []))
  {
  }

  /** A sheet holding only its header reports no data rows, and its preview shows the header's cells. */
  lemma HeaderOnlySheet(date: string, rows: seq<Appointment>, env: map<string, string>)
    requires Configured(env)
    ensures var r := StatusSpec(date, Ok(rows), env, [HeaderRow], true);
            && r.status.appointmentsInSheet == 0
            && r.status.recentSheetEntries == [SheetEntry(Some("Tanggal"), Some("Customer"), Some("Whatsapp"), Some("Treatment"))]
  {
    assert HasHeader([HeaderRow]);
  }
}
