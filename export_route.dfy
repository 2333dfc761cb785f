/**
 * The export route (src/app/api/export/route.ts): today's appointments are
 * grouped into visits, compared against the rows already in the spreadsheet
 * through a normalised identifier, and only the visits not yet present are
 * appended, numbered on from the sheet's existing data rows.
 */
module Export {
  import opened Basics
  import opened Text
  import opened Sheets
  import G = ExportGrouping

  // ---------------------------------------------------------------------
  // Phone numbers

  /** The test `/^\+62/`: the number starts with the Indonesian country code. */
  predicate HasCountryCode(w: string)
  {
    |w| >= 3 && w[0] == '+' && w[1] == '6' && w[2] == '2'
  }

  /** The test `/^\+/`. */
  predicate HasPlus(w: string)
  {
    |w| >= 1 && w[0] == '+'
  }

  /**
   * `normalizeWhatsApp`: a leading "+62" becomes "0", otherwise one leading
   * "+" is dropped, and the result is trimmed (last).
   */
  function NormalizeWhatsApp(w: string): (r: string)
    ensures Trimmed(r)
    ensures |r| <= |w|
  {
    var national := if HasCountryCode(w) then "0" + w[3..] else w;
    var bare := if HasPlus(national) then national[1..] else national;
    Trim(bare)
  }

  /** The Indonesian country code becomes the national trunk prefix "0". */
  lemma NormalizeCountryCode(rest: string)
    requires rest == [] || !IsSpace(rest[|rest| - 1])
    ensures NormalizeWhatsApp("+62" + rest) == "0" + rest
  {
    var w, n := "+62" + rest, "0" + rest;
    assert HasCountryCode(w) && w[3..] == rest;
    assert !HasPlus(n) && n[0] == '0';
    assert Trimmed(n) by {
      if rest != [] {
        assert n[|n| - 1] == rest[|rest| - 1];
      }
    }
    TrimTrimmed(n);
  }

  /** Any other leading "+" is dropped and the rest trimmed. */
  lemma NormalizeOtherPlus(rest: string)
    requires !(|rest| >= 2 && rest[0] == '6' && rest[1] == '2')
    ensures NormalizeWhatsApp("+" + rest) == Trim(rest)
  {
    var w := "+" + rest;
    assert w[1..] == rest;
  }

  /** A number without a leading "+" and without surrounding white space is left as it is. */
  lemma NormalizeFixesNationalForm(w: string)
    requires !HasPlus(w)
    requires Trimmed(w)
    ensures NormalizeWhatsApp(w) == w
  {
    TrimTrimmed(w);
  }

  /** The documented example of an Indonesian number in international form. */
  lemma NormalizeExampleCountryCode()
    ensures NormalizeWhatsApp("+628123456789") == "08123456789"
  {
    var w, n := "+628123456789", "08123456789";
    assert HasCountryCode(w);
    assert "0" + w[3..] == n;
    assert !HasPlus(n);
    TrimTrimmed(n);
  }

  /** The documented example of a foreign number: only the "+" goes. */
  lemma NormalizeExampleForeign()
    ensures NormalizeWhatsApp("+18005551234") == "18005551234"
  {
    var w, n := "+18005551234", "18005551234";
    assert !HasCountryCode(w);
    assert HasPlus(w) && w[1..] == n;
    TrimTrimmed(n);
  }

  /** The documented example of a number already in national form. */
  lemma NormalizeExampleNational()
    ensures NormalizeWhatsApp("08123456789") == "08123456789"
  {
    var w := "08123456789";
    assert !HasCountryCode(w) && !HasPlus(w);
    TrimTrimmed(w);
  }

  /** Normalising twice gives the same as once exactly when the first result does not start with "+". */
  lemma NormalizeIdempotentIff(w: string)
    ensures var r := NormalizeWhatsApp(w);
            NormalizeWhatsApp(r) == r <==> !HasPlus(r)
  {
    var r := NormalizeWhatsApp(w);
    if !HasPlus(r) {
      NormalizeFixesNationalForm(r);
    } else if HasCountryCode(r) {
      var n := NormalizeWhatsApp(r);
      assert ("0" + r[3..])[0] == '0';
      assert n != [] && n[0] == '0';
    } else {
      assert |NormalizeWhatsApp(r)| < |r|;
    }
  }

  /** Without a leading "+", normalising only trims. */
  lemma NormalizeWithoutPlus(w: string)
    requires !HasPlus(w)
    ensures NormalizeWhatsApp(w) == Trim(w)
  {
  }

  /**
   * White space before the "+" survives the prefix rules: " +628" normalises
   * to "+628", and a second pass turns that into "08", so normalising is not
   * idempotent in general.
   */
  lemma NormalizeNotIdempotentExample(w: string)
    requires |w| == 5 && w[0] == ' ' && w[1] == '+' && w[2] == '6' && w[3] == '2' && w[4] == '8'
    ensures NormalizeWhatsApp(w) == w[1..]
    ensures NormalizeWhatsApp(w[1..]) == ['0', '8']
  {
    var v := w[1..];
    NormalizeWithoutPlus(w);
    TrimLeadingSpace(w);
    TrimTrimmed(v);
    assert v == "+62" + v[3..];
    NormalizeCountryCode(v[3..]);
    assert "0" + v[3..] == ['0', '8'];
  }

  // ---------------------------------------------------------------------
  // Identifiers

  /** Rows that count as exported appointments: six cells or more, and a first cell that is not the header marker, empty or "Column 1". */
  predicate IsDataRow(row: Row)
  {
    |row| >= 6 && row[0] != HeaderMarker && row[0] != "" && row[0] != "Column 1"
  }

  /** The de-duplication identifier: date, customer, phone and capster joined by "-". */
  function Identifier(date: string, customer: string, phone: string, capster: string): string
  {
    date + "-" + customer + "-" + phone + "-" + capster
  }

  /** The identifier of an exported row: cells 1, 2 and 5 trimmed, cell 3 normalised (cell 4, the treatments, is ignored). */
  function RowIdentifier(row: Row): string
    requires |row| >= 6
  {
    Identifier(Trim(row[1]), Trim(row[2]), NormalizeWhatsApp(row[3]), Trim(row[5]))
  }

  /** The identifier of a visit, built from the same fields the export writes. */
  function GroupIdentifier(g: G.Group): string
  {
    Identifier(Trim(g.date), Trim(G.CustomerName(g.customer)), NormalizeWhatsApp(G.WhatsApp(g.customer)), Trim(G.CapsterName(g.capster)))
  }

  /** The identifiers of the data rows of `sheet`. */
  function ExistingIds(sheet: Grid): set<string>
  {
    if sheet == [] then {}
    else
      var last := sheet[|sheet| - 1];
      ExistingIds(sheet[..|sheet| - 1]) + (if IsDataRow(last) then {RowIdentifier(last)} else {})
  }

  /** The row is a data row whose identifier is `id`. */
  predicate Carries(row: Row, id: string)
  {
    IsDataRow(row) && RowIdentifier(row) == id
  }

  /** One step of `ExistingIds`: the last row adds its identifier when it is a data row. */
  lemma ExistingIdsLast(sheet: Grid, id: string)
    requires sheet != []
    ensures id in ExistingIds(sheet) <==> id in ExistingIds(sheet[..|sheet| - 1]) || Carries(sheet[|sheet| - 1], id)
  {
  }

  /** An identifier is known exactly when some data row of the sheet carries it. */
  lemma {:induction false} ExistingIdsMembers(sheet: Grid, id: string)
    ensures id in ExistingIds(sheet) <==> exists i :: 0 <= i < |sheet| && Carries(sheet[i], id)
  {
    if sheet != [] {
      var init := sheet[..|sheet| - 1];
      ExistingIdsMembers(init, id);
      ExistingIdsLast(sheet, id);
      if id in ExistingIds(init) {
        var i :| 0 <= i < |init| && Carries(init[i], id);
        assert sheet[i] == init[i];
      }
      forall i | 0 <= i < |init| && Carries(sheet[i], id)
        ensures id in ExistingIds(init)
      {
        assert init[i] == sheet[i];
      }
    }
  }

  /** Appending rows adds their identifiers and removes none. */
  lemma {:induction false} ExistingIdsAppend(a: Grid, b: Grid)
    ensures ExistingIds(a + b) == ExistingIds(a) + ExistingIds(b)
  {
    if b == [] {
      assert a + b == a;
    } else {
      var init := b[..|b| - 1];
      ExistingIdsAppend(a, init);
      assert (a + b)[..|a + b| - 1] == a + init;
    }
  }

  /** The `forEach` that fills `existingAppointments` with `Set.add`. */
  method CollectExistingIdentifiers(sheet: Grid) returns (ids: set<string>)
    ensures ids == ExistingIds(sheet)
  {
    ids := {};
    var i := 0;
    while i < |sheet|
      invariant 0 <= i <= |sheet|
      invariant ids == ExistingIds(sheet[..i])
    {
      var row := sheet[i];
      assert sheet[..i + 1][..i] == sheet[..i];
      if |row| >= 6 && row[0] != HeaderMarker && row[0] != "" && row[0] != "Column 1" {
        ids := ids + {RowIdentifier(row)};
      }
      i := i + 1;
    }
    assert sheet[..|sheet|] == sheet;
  }

  // ---------------------------------------------------------------------
  // Filtering

  /** `a` is `b` with some elements removed, the rest in their order. */
  predicate IsSubsequence<T(==)>(a: seq<T>, b: seq<T>)
    decreases |b|
  {
    if a == [] then true
    else if b == [] then false
    else if a[0] == b[0] then IsSubsequence(a[1..], b[1..])
    else IsSubsequence(a, b[1..])
  }

  /** `groups.filter(g => !ids.has(idOf(g)))`. */
  function Unseen(groups: seq<G.Group>, ids: set<string>, idOf: G.Group -> string): (r: seq<G.Group>)
    ensures |r| <= |groups|
    ensures forall g :: g in r <==> g in groups && idOf(g) !in ids
  {
    if groups == [] then []
    else (if idOf(groups[0]) in ids then [] else [groups[0]]) + Unseen(groups[1..], ids, idOf)
  }

  /** The groups whose identifier is known: the complement of `Unseen`. */
  function Seen(groups: seq<G.Group>, ids: set<string>, idOf: G.Group -> string): (r: seq<G.Group>)
    ensures forall g :: g in r <==> g in groups && idOf(g) in ids
  {
    if groups == [] then []
    else (if idOf(groups[0]) in ids then [groups[0]] else []) + Seen(groups[1..], ids, idOf)
  }

  /** When every identifier is known, nothing is kept. */
  lemma UnseenNone(groups: seq<G.Group>, ids: set<string>, idOf: G.Group -> string)
    requires forall g :: g in groups ==> idOf(g) in ids
    ensures Unseen(groups, ids, idOf) == []
  {
  }

  /** The kept groups keep their order, and kept and dropped groups together account for every group. */
  lemma {:induction false} UnseenPartition(groups: seq<G.Group>, ids: set<string>, idOf: G.Group -> string)
    ensures IsSubsequence(Unseen(groups, ids, idOf), groups)
    ensures IsSubsequence(Seen(groups, ids, idOf), groups)
    ensures |Unseen(groups, ids, idOf)| + |Seen(groups, ids, idOf)| == |groups|
  {
    if groups != [] {
      UnseenPartition(groups[1..], ids, idOf);
      var u, s := Unseen(groups, ids, idOf), Seen(groups, ids, idOf);
      if idOf(groups[0]) in ids {
        assert u == Unseen(groups[1..], ids, idOf);
        assert u == [] || u[0] != groups[0] by {
          if u != [] {
            assert u[0] in u;
          }
        }
        assert s[1..] == Seen(groups[1..], ids, idOf);
      } else {
        assert s == Seen(groups[1..], ids, idOf);
        assert s == [] || s[0] != groups[0] by {
          if s != [] {
            assert s[0] in s;
          }
        }
        assert u[1..] == Unseen(groups[1..], ids, idOf);
      }
    }
  }

  // ---------------------------------------------------------------------
  // New rows

  /** The row written for a visit: number, date, customer name, normalised phone, treatments joined by ", ", capster name. */
  function FormatRow(g: G.Group, n: nat): (row: Row)
    ensures |row| == 6 && IsDataRow(row)
    ensures (forall i :: 0 <= i < |row[0]| ==> IsDigit(row[0][i])) && DecimalValue(row[0]) == n
  {
    NumeralIsNotWord(n, HeaderMarker);
    NumeralIsNotWord(n, "");
    NumeralIsNotWord(n, "Column 1");
    DecimalRoundTrip(n);
    [NatToString(n), g.date, G.CustomerName(g.customer), NormalizeWhatsApp(G.WhatsApp(g.customer)),
     Join(g.treatments, ", "), G.CapsterName(g.capster)]
  }

  /** A written row is recognised on the next read as the visit it came from, provided its phone does not start with "+". */
  lemma WrittenRowIsRecognised(g: G.Group, n: nat)
    requires !HasPlus(NormalizeWhatsApp(G.WhatsApp(g.customer)))
    ensures IsDataRow(FormatRow(g, n)) && RowIdentifier(FormatRow(g, n)) == GroupIdentifier(g)
  {
    NormalizeIdempotentIff(G.WhatsApp(g.customer));
  }

  /** The rows for the new visits, numbered `existing + 1`, `existing + 2`, … */
  function NewRows(newGroups: seq<G.Group>, existing: nat): (rows: seq<Row>)
    ensures |rows| == |newGroups|
  {
    seq(|newGroups|, i requires 0 <= i < |newGroups| => FormatRow(newGroups[i], existing + i + 1))
  }

  /** New rows carry consecutive numbers starting after the existing count, and every one is a data row. */
  lemma NewRowsNumbered(newGroups: seq<G.Group>, existing: nat)
    ensures var rows := NewRows(newGroups, existing);
            forall i :: 0 <= i < |rows| ==> IsDataRow(rows[i]) && rows[i][0] == NatToString(existing + i + 1)
  {
  }

  /** The header goes on top only when the sheet is empty. */
  function RowsToWrite(existing: Grid, newRows: seq<Row>): seq<Row>
  {
    (if |existing| == 0 then [HeaderRow] else []) + newRows
  }

  /** What the export decides once it has the visits and the sheet's rows. */
  datatype Plan = Plan(newGroups: seq<G.Group>, newRows: seq<Row>, toWrite: Grid)

  /** Keep the visits not yet in the sheet, format them numbered on from the sheet's count, and put a header on an empty sheet. */
  function PlanExport(groups: seq<G.Group>, existing: Grid): Plan
  {
    var newGroups := Unseen(groups, ExistingIds(existing), GroupIdentifier);
    var newRows := NewRows(newGroups, DataRowCount(existing));
    Plan(newGroups, newRows, RowsToWrite(existing, newRows))
  }

  /**
   * The reconciliation as the route runs it: the identifier set is filled by
   * a loop, the new visits and rows come from `filter` and `map`, and the
   * batch to write is built by `push`.
   */
  method BuildPlan(groups: seq<G.Group>, existing: Grid) returns (plan: Plan)
    ensures plan == PlanExport(groups, existing)
  {
    var ids := CollectExistingIdentifiers(existing);
    var newGroups := Unseen(groups, ids, GroupIdentifier);
    var newRows := NewRows(newGroups, DataRowCount(existing));
    var rowsToExport: seq<Row> := [];
    if |existing| == 0 {
      rowsToExport := rowsToExport + [HeaderRow];
    }
    if |newRows| > 0 {
      rowsToExport := rowsToExport + newRows;
    }
    plan := Plan(newGroups, newRows, rowsToExport);
  }

  /**
   * The write rules: the header is written exactly when the sheet is empty,
   * something is written exactly when the sheet is empty or a visit is new,
   * and the new visits are, in order, exactly those whose identifier is not
   * in the sheet, one row each.
   */
  lemma PlanWriteRules(groups: seq<G.Group>, existing: Grid)
    ensures var p := PlanExport(groups, existing);
            && (existing == [] <==> p.toWrite != [] && p.toWrite[0] == HeaderRow)
            && (p.toWrite == [] <==> existing != [] && p.newGroups == [])
            && |p.newRows| == |p.newGroups| <= |groups|
            && (forall g :: g in p.newGroups <==> g in groups && GroupIdentifier(g) !in ExistingIds(existing))
            && IsSubsequence(p.newGroups, groups)
  {
    var p := PlanExport(groups, existing);
    UnseenPartition(groups, ExistingIds(existing), GroupIdentifier);
    if existing != [] && p.newRows != [] {
      assert p.toWrite[0] == p.newRows[0];
      assert IsDataRow(p.newRows[0]);
    }
  }

  /** The rows written are numbered on from the sheet's count, and the count afterwards includes exactly them. */
  lemma PlanNumbering(groups: seq<G.Group>, existing: Grid)
    ensures var p := PlanExport(groups, existing);
            var offset := if existing == [] then 1 else 0;
            && |p.toWrite| == offset + |p.newRows|
            && (forall i :: 0 <= i < |p.newRows| ==> p.toWrite[offset + i] == p.newRows[i])
            && (forall i :: 0 <= i < |p.newRows| ==> IsDataRow(p.newRows[i]) && p.newRows[i][0] == NatToString(DataRowCount(existing) + i + 1))
            && DataRowCount(existing + p.toWrite) == DataRowCount(existing) + |p.newRows|
  {
    var p := PlanExport(groups, existing);
    NewRowsNumbered(p.newGroups, DataRowCount(existing));
    if existing == [] {
      assert existing + p.toWrite == [HeaderRow] + p.newRows;
    } else {
      DataRowCountAppend(existing, p.toWrite);
    }
  }

  /** A sheet with a header and five data rows numbers the next exported visit 6. */
  lemma NumberingExample(sheet: Grid, g: G.Group)
    requires |sheet| == 6 && HasHeader(sheet)
    ensures NewRows([g], DataRowCount(sheet))[0][0] == "6"
  {
  }

  /** Every visit exported is recognised in the rows written for it, provided its phone does not normalise to a "+" form. */
  lemma NewRowsRecognised(newGroups: seq<G.Group>, existing: nat)
    requires forall g :: g in newGroups ==> !HasPlus(NormalizeWhatsApp(G.WhatsApp(g.customer)))
    ensures forall g :: g in newGroups ==> GroupIdentifier(g) in ExistingIds(NewRows(newGroups, existing))
  {
    var rows := NewRows(newGroups, existing);
    forall g | g in newGroups
      ensures GroupIdentifier(g) in ExistingIds(rows)
    {
      var i :| 0 <= i < |newGroups| && newGroups[i] == g;
      WrittenRowIsRecognised(g, existing + i + 1);
      assert rows[i] == FormatRow(g, existing + i + 1);
      ExistingIdsMembers(rows, GroupIdentifier(g));
    }
  }

  /**
   * The identifier leaves out the time: two visits that differ only in their
   * time share it, so once one of them is in the sheet the other is never
   * exported.
   */
  lemma TimeBlindIdentifier(g: G.Group, h: G.Group, groups: seq<G.Group>, existing: Grid)
    requires g.date == h.date && g.customer == h.customer && g.capster == h.capster
    requires GroupIdentifier(g) in ExistingIds(existing)
    ensures GroupIdentifier(h) == GroupIdentifier(g)
    ensures h !in PlanExport(groups, existing).newGroups
  {
  }

  /**
   * Idempotence of the reconciliation: append what it wrote, plan again over
   * the same visits, and nothing is new and nothing is written, provided
   * cells read back as written and no visit's normalised phone starts with "+".
   */
  lemma PlanIdempotent(groups: seq<G.Group>, existing: Grid)
    requires forall g :: g in groups ==> !HasPlus(NormalizeWhatsApp(G.WhatsApp(g.customer)))
    ensures var p := PlanExport(groups, existing);
            var again := PlanExport(groups, existing + p.toWrite);
            again.newGroups == [] && again.newRows == [] && again.toWrite == []
  {
    var p := PlanExport(groups, existing);
    var ids := ExistingIds(existing);
    var header: Grid := if existing == [] then [HeaderRow] else [];
    var after := existing + p.toWrite;
    assert p.toWrite == header + p.newRows;
    ExistingIdsAppend(existing, p.toWrite);
    ExistingIdsAppend(header, p.newRows);
    NewRowsRecognised(p.newGroups, DataRowCount(existing));
    var later := ExistingIds(after);
    forall g | g in groups
      ensures GroupIdentifier(g) in later
    {
      if GroupIdentifier(g) !in ids {
        assert g in p.newGroups;
      }
    }
    UnseenNone(groups, later, GroupIdentifier);
    assert after != [] by {
      if existing == [] {
        assert after[0] == HeaderRow;
      }
    }
  }

  /** With date, customer and capster fixed, the identifier tells phone numbers apart. */
  lemma IdentifierPhoneInjective(date: string, customer: string, x: string, y: string, capster: string)
    ensures Identifier(date, customer, x, capster) == Identifier(date, customer, y, capster) ==> x == y
  {
    var a, b := Identifier(date, customer, x, capster), Identifier(date, customer, y, capster);
    var n := |date + "-" + customer + "-"|;
    if a == b {
      assert |x| == |y|;
      assert a[n..n + |x|] == x;
      assert b[n..n + |y|] == y;
    }
  }

  /**
   * A phone that normalises to a "+" form is written in that form, read back
   * normalised once more, and so never matches its visit: the visit is
   * exported again on every run.
   */
  lemma PlusPhoneReexported(g: G.Group, existing: Grid)
    requires HasPlus(NormalizeWhatsApp(G.WhatsApp(g.customer)))
    requires GroupIdentifier(g) !in ExistingIds(existing)
    ensures var p := PlanExport([g], existing);
            var again := PlanExport([g], existing + p.toWrite);
            && p.newGroups == [g]
            && GroupIdentifier(g) !in ExistingIds(existing + p.toWrite)
            && again.newGroups == [g] && again.toWrite != []
  {
    var p := PlanExport([g], existing);
    var header: Grid := if existing == [] then [HeaderRow] else [];
    var row := FormatRow(g, DataRowCount(existing) + 1);
    assert p.newGroups == [g];
    assert p.toWrite == header + [row];
    ExistingIdsAppend(existing, p.toWrite);
    SingleRowIds(header, row);
    WrittenPlusRowMismatch(g, DataRowCount(existing) + 1);
  }

  /** A header (or nothing) followed by one data row carries only that row's identifier. */
  lemma SingleRowIds(header: Grid, row: Row)
    requires header == [] || header == [HeaderRow]
    requires IsDataRow(row)
    ensures ExistingIds(header + [row]) == {RowIdentifier(row)}
  {
    ExistingIdsAppend(header, [row]);
    assert [row][..0] == [];
    if header != [] {
      assert header[..0] == [];
    }
  }

  /** The row written for a visit whose normalised phone starts with "+" reads back under another identifier. */
  lemma WrittenPlusRowMismatch(g: G.Group, n: nat)
    requires HasPlus(NormalizeWhatsApp(G.WhatsApp(g.customer)))
    ensures RowIdentifier(FormatRow(g, n)) != GroupIdentifier(g)
  {
    var w := G.WhatsApp(g.customer);
    NormalizeIdempotentIff(w);
    IdentifierPhoneInjective(Trim(g.date), Trim(G.CustomerName(g.customer)), NormalizeWhatsApp(NormalizeWhatsApp(w)),
                             NormalizeWhatsApp(w), Trim(G.CapsterName(g.capster)));
  }

  /** " +628": the white space before the "+" survives the prefix rules, so the stored form keeps its "+". */
  lemma LeadingSpacePlusPhone()
    ensures HasPlus(NormalizeWhatsApp(" +628"))
  {
    NormalizeNotIdempotentExample(" +628");
  }

  const AllExportedMessage: string := "Semua appointment hari ini sudah di-export sebelumnya"
  const NoAppointmentsMessage: string := "Tidak ada appointment hari ini untuk di-export"
  const NotConfiguredMessage: string := "Google Sheets not configured"

  /** The response message for `n` new rows. */
  function Message(n: nat): string
  {
    if n == 0 then AllExportedMessage
    else NatToString(n) + " appointment baru berhasil di-export ke Google Sheets"
  }

  /** The "already exported" message appears exactly when nothing new was exported. */
  lemma MessageSaysNothingNew(n: nat)
    ensures Message(n) == AllExportedMessage <==> n == 0
  {
    if n != 0 {
      assert |Message(n)| > |AllExportedMessage|;
    }
  }

  // ---------------------------------------------------------------------
  // The request

  /** The JSON body of the response (the raw append result is reduced to whether an append happened). */
  datatype ExportResponse =
    | StoreError(error: string)
    | NothingToExport(message: string)
    | NotConfigured(message: string, data: seq<G.AppointmentRow>)
    | Exported(exported: seq<G.Group>, message: string, totalAppointments: nat,
               newExports: nat, existingInSheet: nat, date: string, wrote: bool)

  /** What the request answers and what it appends to the sheet. */
  datatype ExportOutcome = ExportOutcome(response: ExportResponse, appended: Grid)

  /**
   * `POST /api/export` for `date`, given the store's answer, the environment,
   * the sheet's content and whether reading it succeeded (a failed read
   * counts as an empty sheet).
   */
  function ExportSpec(date: string, fetched: Result<seq<G.AppointmentRow>>, env: map<string, string>,
                      sheet: Grid, readOk: bool): ExportOutcome
  {
    if fetched.Err? then ExportOutcome(StoreError(fetched.message), [])
    else if fetched.value == [] then ExportOutcome(NothingToExport(NoAppointmentsMessage), [])
    else if !Configured(env) then ExportOutcome(NotConfigured(NotConfiguredMessage, fetched.value), [])
    else
      var groups := G.Grouped(fetched.value);
      var existing := if readOk then sheet else [];
      var p := PlanExport(groups, existing);
      ExportOutcome(Exported(p.newGroups, Message(|p.newRows|), |groups|, |p.newRows|, DataRowCount(existing), date, p.toWrite != []),
                    p.toWrite)
  }

  /**
   * The route handler: store query result, environment and today's date are
   * inputs; the spreadsheet is read once and appended to at most once.
   */
  method ExportToday(date: string, fetched: Result<seq<G.AppointmentRow>>, env: map<string, string>,
                     readOk: bool, sheet: Spreadsheet) returns (response: ExportResponse)
    modifies sheet
    ensures var out := ExportSpec(date, fetched, env, old(sheet.rows), readOk);
            response == out.response && sheet.rows == old(sheet.rows) + out.appended
  {
    if fetched.Err? {
      return StoreError(fetched.message);
    }
    var appointments := fetched.value;
    if |appointments| == 0 {
      return NothingToExport(NoAppointmentsMessage);
    }
    if !Configured(env) {
      return NotConfigured(NotConfiguredMessage, appointments);
    }
    var groups := G.GroupAppointments(appointments);
    var existing: Grid := if readOk then sheet.rows else [];
    var plan := BuildPlan(groups, existing);
    var wrote := false;
    if |plan.toWrite| > 0 {
      sheet.Append(plan.toWrite);
      wrote := true;
    }
    response := Exported(plan.newGroups, Message(|plan.newRows|), |groups|, |plan.newRows|, DataRowCount(existing), date, wrote);
  }

  /** No appointments, a store error or missing settings: nothing is written; an empty day is reported before the settings are looked at. */
  lemma ExportEarlyExits(date: string, fetched: Result<seq<G.AppointmentRow>>, env: map<string, string>, sheet: Grid, readOk: bool)
    ensures var out := ExportSpec(date, fetched, env, sheet, readOk);
            && (fetched.Err? || fetched.value == [] || !Configured(env) <==> !out.response.Exported?)
            && (!out.response.Exported? ==> out.appended == [])
            && (fetched.Ok? && fetched.value == [] ==> out.response == NothingToExport(NoAppointmentsMessage))
            && (fetched.Ok? && fetched.value != [] && !Configured(env) ==> out.response.NotConfigured? && out.response.data == fetched.value)
  {
  }

  /**
   * The response of a run that reaches the sheet: the message says "already
   * exported" exactly when nothing is new, an append is reported exactly when
   * one happened, and the counts are those of the visits, the new visits and
   * the sheet's data rows.
   */
  lemma ExportResponseRules(date: string, rows: seq<G.AppointmentRow>, env: map<string, string>, sheet: Grid, readOk: bool)
    requires rows != [] && Configured(env)
    ensures var out := ExportSpec(date, Ok(rows), env, sheet, readOk);
            var existing := if readOk then sheet else [];
            var r := out.response;
            && r.Exported?
            && r.exported == PlanExport(G.Grouped(rows), existing).newGroups
            && out.appended == PlanExport(G.Grouped(rows), existing).toWrite
            && (r.wrote <==> out.appended != [])
            && (r.message == AllExportedMessage <==> r.newExports == 0)
            && r.newExports == |r.exported| <= r.totalAppointments
            && r.totalAppointments >= 1
            && r.existingInSheet == DataRowCount(existing)
  {
    var existing := if readOk then sheet else [];
    var groups := G.Grouped(rows);
    var p := PlanExport(groups, existing);
    assert 1 <= |groups| <= |rows| by {
      G.GroupedCoversRows(rows);
    }
    MessageSaysNothingNew(|p.newRows|);
    PlanWriteRules(groups, existing);
  }

  /**
   * Idempotence of the route: append what a run wrote, run it again over the
   * same appointments, and nothing is new and nothing is written, provided
   * cells read back as written and no visit's normalised phone starts with "+".
   */
  lemma ExportIdempotent(date: string, rows: seq<G.AppointmentRow>, env: map<string, string>, sheet: Grid)
    requires rows != [] && Configured(env)
    requires forall g :: g in G.Grouped(rows) ==> !HasPlus(NormalizeWhatsApp(G.WhatsApp(g.customer)))
    ensures var first := ExportSpec(date, Ok(rows), env, sheet, true);
            var second := ExportSpec(date, Ok(rows), env, sheet + first.appended, true);
            && second.response.Exported?
            && second.response.newExports == 0
            && second.response.exported == []
            && second.response.message == AllExportedMessage
            && second.appended == []
  {
    PlanIdempotent(G.Grouped(rows), sheet);
  }

  /**
   * The route is not idempotent for a visit whose phone normalises to a "+"
   * form (such as " +628"): a run exports it, and the run after exports it
   * again and appends another row.
   */
  lemma ExportRepeatsPlusPhone(date: string, rows: seq<G.AppointmentRow>, env: map<string, string>, sheet: Grid)
    requires rows != [] && Configured(env)
    requires |G.Grouped(rows)| == 1
    requires HasPlus(NormalizeWhatsApp(G.WhatsApp(G.Grouped(rows)[0].customer)))
    requires GroupIdentifier(G.Grouped(rows)[0]) !in ExistingIds(sheet)
    ensures var first := ExportSpec(date, Ok(rows), env, sheet, true);
            var second := ExportSpec(date, Ok(rows), env, sheet + first.appended, true);
            && first.response.Exported? && first.response.newExports == 1
            && second.response.Exported? && second.response.newExports == 1
            && second.response.exported == G.Grouped(rows)
            && second.appended != []
  {
    var groups := G.Grouped(rows);
    assert groups == [groups[0]];
    PlusPhoneReexported(groups[0], sheet);
  }
}
