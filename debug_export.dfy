/**
 * `GET /api/export/debug-export` (src/app/api/export/debug-export/route.ts):
 * a read-only dry run of the export. It groups the day's rows with the same
 * `groupAppointments` as the export route, reads the sheet, and reports which
 * visits would be exported. Its identifier is weaker than the export's (date,
 * customer and phone, no capster) and its row filter looser (four cells
 * suffice).
 */
module DebugExport {
  import opened Basics
  import opened Text
  import opened Sheets
  import G = ExportGrouping
  import E = Export

  /** A sheet row the dry run reads an identifier from: at least four cells, and not a header, blank or placeholder row. */
  predicate IsAcceptedRow(row: Row)
  {
    |row| >= 4 && row[0] != HeaderMarker && row[0] != "" && row[0] != "Column 1"
  }

  /** The three-field identifier: date, customer and phone joined by "-". */
  function Identifier(date: string, customer: string, phone: string): string
  {
    date + "-" + customer + "-" + phone
  }

  /** The identifier of an accepted sheet row: cells 1 and 2 trimmed, cell 3 normalised. */
  function RowIdentifier(row: Row): string
    requires |row| >= 4
  {
    Identifier(Trim(row[1]), Trim(row[2]), E.NormalizeWhatsApp(row[3]))
  }

  /** The identifier of a visit: its date and customer name trimmed, its phone normalised. */
  function GroupIdentifier(g: G.Group): string
  {
    Identifier(Trim(g.date), Trim(G.CustomerName(g.customer)), E.NormalizeWhatsApp(G.WhatsApp(g.customer)))
  }

  /** `existingIdentifiers`: the identifier of every accepted row, in sheet order, repeats kept. */
  function AcceptedIds(sheet: Grid): (ids: seq<string>)
    ensures |ids| <= |sheet|
  {
    if sheet == [] then []
    else
      var last := sheet[|sheet| - 1];
      AcceptedIds(sheet[..|sheet| - 1]) + (if IsAcceptedRow(last) then [RowIdentifier(last)] else [])
  }

  /** `existingAppointments`: the identifiers as a set. */
  function IdSet(ids: seq<string>): (s: set<string>)
    ensures forall id :: id in s <==> id in ids
  {
    set id | id in ids
  }

  /** The row is accepted and its identifier is `id`. */
  predicate Carries(row: Row, id: string)
  {
    IsAcceptedRow(row) && RowIdentifier(row) == id
  }

  /** An identifier is listed exactly when some accepted row of the sheet carries it. */
  lemma AcceptedIdsMembers(sheet: Grid, id: string)
    ensures id in AcceptedIds(sheet) <==> exists i :: 0 <= i < |sheet| && Carries(sheet[i], id)
  {
    if id in AcceptedIds(sheet) {
      ListedIdHasRow(sheet, id);
    }
    if exists i :: 0 <= i < |sheet| && Carries(sheet[i], id) {
      var i :| 0 <= i < |sheet| && Carries(sheet[i], id);
      RowIdIsListed(sheet, i, id);
    }
  }

  /** A listed identifier comes from some accepted row. */
  lemma {:induction false} ListedIdHasRow(sheet: Grid, id: string)
    requires id in AcceptedIds(sheet)
    ensures exists i :: 0 <= i < |sheet| && Carries(sheet[i], id)
  {
    var init := sheet[..|sheet| - 1];
    AcceptedIdsLast(sheet, id);
    if id in AcceptedIds(init) {
      ListedIdHasRow(init, id);
      var i :| 0 <= i < |init| && Carries(init[i], id);
      assert sheet[i] == init[i];
    } else {
      assert Carries(sheet[|sheet| - 1], id);
    }
  }

  /** The identifier of every accepted row is listed. */
  lemma {:induction false} RowIdIsListed(sheet: Grid, i: nat, id: string)
    requires i < |sheet| && Carries(sheet[i], id)
    ensures id in AcceptedIds(sheet)
  {
    var init := sheet[..|sheet| - 1];
    AcceptedIdsLast(sheet, id);
    if i < |init| {
      assert init[i] == sheet[i];
      RowIdIsListed(init, i, id);
    }
  }

  /** One step of `AcceptedIds`: the last row adds its identifier when it is accepted. */
  lemma AcceptedIdsLast(sheet: Grid, id: string)
    requires sheet != []
    ensures id in AcceptedIds(sheet) <==> id in AcceptedIds(sheet[..|sheet| - 1]) || Carries(sheet[|sheet| - 1], id)
  {
  }

  /** The list grows by concatenation: the rows of `a` and then those of `b`. */
  lemma {:induction false} AcceptedIdsAppend(a: Grid, b: Grid)
    ensures AcceptedIds(a + b) == AcceptedIds(a) + AcceptedIds(b)
  {
    if b == [] {
      assert a + b == a;
    } else {
      var init := b[..|b| - 1];
      AcceptedIdsAppend(a, init);
      assert (a + b)[..|a + b| - 1] == a + init;
    }
  }

  /**
   * `existingInSheet` counts rows, not identifiers: two copies of an accepted
   * row count twice although they add one identifier to the set.
   */
  lemma DuplicatesCounted(row: Row)
    requires IsAcceptedRow(row)
    ensures |AcceptedIds([row, row])| == 2
    ensures |IdSet(AcceptedIds([row, row]))| == 1
  {
    var id := RowIdentifier(row);
    assert [row, row][..1] == [row];
    assert AcceptedIds([row]) == [id];
    assert AcceptedIds([row, row]) == [id, id];
    assert IdSet([id, id]) == {id};
  }

  /**
   * The `forEach` over the sheet: accepted rows add their identifier to the
   * set and push it onto the list.
   */
  method CollectIdentifiers(sheet: Grid) returns (ids: set<string>, list: seq<string>)
    ensures list == AcceptedIds(sheet)
    ensures ids == IdSet(list)
  {
    ids, list := {}, [];
    var i := 0;
    while i < |sheet|
      invariant 0 <= i <= |sheet|
      invariant list == AcceptedIds(sheet[..i])
      invariant ids == IdSet(list)
    {
      var row := sheet[i];
      assert sheet[..i + 1][..i] == sheet[..i];
      if |row| >= 4 && row[0] != HeaderMarker && row[0] != "" && row[0] != "Column 1" {
        var id := RowIdentifier(row);
        ids := ids + {id};
        list := list + [id];
      }
      i := i + 1;
    }
    assert sheet[..i] == sheet;
  }

  /** One entry of `appointmentChecks`. */
  datatype Check = Check(appointment: G.Group, identifier: string, isExisting: bool,
                         date: string, customer: string, whatsapp: string)

  /** The check of one visit against the identifier set. */
  function CheckOf(g: G.Group, ids: set<string>): (c: Check)
    ensures c.appointment == g && c.identifier == GroupIdentifier(g)
    ensures c.isExisting <==> GroupIdentifier(g) in ids
  {
    var date := Trim(g.date);
    var customer := Trim(G.CustomerName(g.customer));
    var whatsapp := E.NormalizeWhatsApp(G.WhatsApp(g.customer));
    var identifier := Identifier(date, customer, whatsapp);
    Check(g, identifier, identifier in ids, date, customer, whatsapp)
  }

  /** `groupedAppointments.map(...)`: one check per visit, in order. */
  function Checks(groups: seq<G.Group>, ids: set<string>): (cs: seq<Check>)
    ensures |cs| == |groups|
    ensures forall i :: 0 <= i < |groups| ==> cs[i] == CheckOf(groups[i], ids)
  {
    seq(|groups|, i requires 0 <= i < |groups| => CheckOf(groups[i], ids))
  }

  /** `checks.filter(c => !c.isExisting).map(c => c.appointment)`. */
  function NotExisting(cs: seq<Check>): seq<G.Group>
  {
    if cs == [] then []
    else (if cs[0].isExisting then [] else [cs[0].appointment]) + NotExisting(cs[1..])
  }

  /** The visits the checks keep are the visits whose identifier is unknown, in order. */
  lemma {:induction false} NotExistingIsUnseen(groups: seq<G.Group>, ids: set<string>)
    ensures NotExisting(Checks(groups, ids)) == E.Unseen(groups, ids, GroupIdentifier)
  {
    if groups != [] {
      NotExistingIsUnseen(groups[1..], ids);
      assert Checks(groups, ids)[1..] == Checks(groups[1..], ids);
    }
  }

  /** The `summary` object. */
  datatype Summary = Summary(totalFromDB: nat, groupedCount: nat, existingInSheet: nat, newToExport: nat)

  /** The JSON body of the response. */
  datatype DebugResponse =
    | StoreError(error: string)
    | NoAppointments(message: string, date: string)
    | NotConfigured(message: string, date: string, raw: seq<G.AppointmentRow>, grouped: seq<G.Group>)
    | Report(date: string, raw: seq<G.AppointmentRow>, grouped: seq<G.Group>, existingData: Grid,
             existingIdentifiers: seq<string>, checks: seq<Check>, newAppointments: seq<G.Group>,
             summary: Summary)

  const NoAppointmentsMessage: string := "Tidak ada appointment hari ini"

  /**
   * `GET /api/export/debug-export` for `date`, given the store's answer, the
   * environment, the sheet's content and whether reading it succeeded (a
   * failed read counts as an empty sheet).
   */
  function DebugSpec(date: string, fetched: Result<seq<G.AppointmentRow>>, env: map<string, string>,
                     sheet: Grid, readOk: bool): DebugResponse
  {
    if fetched.Err? then StoreError(fetched.message)
    else if fetched.value == [] then NoAppointments(NoAppointmentsMessage, date)
    else
      var groups := G.Grouped(fetched.value);
      if !Configured(env) then NotConfigured(E.NotConfiguredMessage, date, fetched.value, groups)
      else
        var existing := if readOk then sheet else [];
        var list := AcceptedIds(existing);
        var checks := Checks(groups, IdSet(list));
        var newGroups := NotExisting(checks);
        Report(date, fetched.value, groups, existing, list, checks, newGroups,
               Summary(|fetched.value|, |groups|, |list|, |newGroups|))
  }

  /**
   * The route handler. It has no `modifies` clause: the sheet is only read.
   */
  method DebugExport(date: string, fetched: Result<seq<G.AppointmentRow>>, env: map<string, string>,
                     readOk: bool, sheet: Spreadsheet) returns (response: DebugResponse)
    ensures response == DebugSpec(date, fetched, env, sheet.rows, readOk)
  {
    if fetched.Err? {
      return StoreError(fetched.message);
    }
    var appointments := fetched.value;
    if |appointments| == 0 {
      return NoAppointments(NoAppointmentsMessage, date);
    }
    var groups := G.GroupAppointments(appointments);
    if !Configured(env) {
      return NotConfigured(E.NotConfiguredMessage, date, appointments, groups);
    }
    var existing: Grid := if readOk then sheet.rows else [];
    var ids, list := CollectIdentifiers(existing);
    var checks := Checks(groups, ids);
    var newGroups := NotExisting(checks);
    response := Report(date, appointments, groups, existing, list, checks, newGroups,
                       Summary(|appointments|, |groups|, |list|, |newGroups|));
  }

  /**
   * The counts of a report: the visits split into new and found, the new ones
   * an order-preserving subsequence of the grouping, and the sheet count the
   * number of accepted rows.
   */
  lemma ReportCounts(date: string, rows: seq<G.AppointmentRow>, env: map<string, string>, sheet: Grid, readOk: bool)
    requires rows != [] && Configured(env)
    ensures var r := DebugSpec(date, Ok(rows), env, sheet, readOk);
            var ids := IdSet(r.existingIdentifiers);
            && r.Report?
            && r.newAppointments == E.Unseen(r.grouped, ids, GroupIdentifier)
            && E.IsSubsequence(r.newAppointments, r.grouped)
            && r.summary.newToExport + |E.Seen(r.grouped, ids, GroupIdentifier)| == r.summary.groupedCount
            && r.summary.groupedCount <= r.summary.totalFromDB
            && r.summary.existingInSheet == |r.existingIdentifiers| <= |r.existingData|
            && (forall g :: g in r.newAppointments <==> g in r.grouped && GroupIdentifier(g) !in ids)
  {
    var r := DebugSpec(date, Ok(rows), env, sheet, readOk);
    var ids := IdSet(r.existingIdentifiers);
    NotExistingIsUnseen(r.grouped, ids);
    E.UnseenPartition(r.grouped, ids, GroupIdentifier);
    G.GroupedCoversRows(rows);
  }

  /** An empty day is answered before grouping; missing settings are answered after it, with the grouping. */
  lemma DebugEarlyExits(date: string, fetched: Result<seq<G.AppointmentRow>>, env: map<string, string>, sheet: Grid, readOk: bool)
    ensures var r := DebugSpec(date, fetched, env, sheet, readOk);
            && (fetched.Ok? && fetched.value == [] ==> r == NoAppointments(NoAppointmentsMessage, date))
            && (fetched.Ok? && fetched.value != [] && !Configured(env) ==>
                  r.NotConfigured? && r.grouped == G.Grouped(fetched.value) && r.raw == fetched.value)
            && (r.Report? <==> fetched.Ok? && fetched.value != [] && Configured(env))
  {
  }

  /**
   * The identifier ignores capster and time: one sheet row for a customer on
   * a date marks every visit of that customer with that phone on that date as
   * existing, whatever its time or capster.
   */
  lemma CapsterBlind(g: G.Group, h: G.Group, sheet: Grid, i: nat)
    requires g.date == h.date && g.customer == h.customer
    requires i < |sheet| && Carries(sheet[i], GroupIdentifier(g))
    ensures GroupIdentifier(h) in IdSet(AcceptedIds(sheet))
  {
    AcceptedIdsMembers(sheet, GroupIdentifier(h));
  }
}
