/**
 * `GET /api/summary` (src/app/api/summary/route.ts): the appointments of the
 * current week (from Monday) or month (from day 1), summarised as totals, the
 * number of distinct customers, and three counting dictionaries: by date, by
 * treatment name and by capster name. "Today" is an input; calendar rollover
 * and the UTC shift of the date strings are not modelled.
 */
module PeriodSummary {
  import opened Basics

  // ---------------------------------------------------------------------
  // The window

  /** Today, as the route reads it from the clock. `dayOfWeek` is 0 for Sunday. */
  datatype Today = Today(year: int, month: nat, day: nat, dayOfWeek: nat)

  /** Where the window starts: some days back from today, or day 1 of a month. */
  datatype Window = DaysBack(days: nat) | MonthStart(year: int, month: nat)

  const Weekly: string := "weekly"

  /** `searchParams.get("type") || "weekly"`: a missing or empty parameter means weekly. */
  function PeriodOf(param: Option<string>): (p: string)
    ensures param.None? || param.value == "" ==> p == Weekly
    ensures param.Some? && param.value != "" ==> p == param.value
  {
    if param.Some? && param.value != "" then param.value else Weekly
  }

  /** How many days back the week's Monday is: 6 on a Sunday, otherwise the day number less one. */
  function WeekStartOffset(dayOfWeek: nat): nat
    requires dayOfWeek < 7
  {
    if dayOfWeek == 0 then 6 else dayOfWeek - 1
  }

  /** The week starts on the most recent Monday, today included: at most six days back, and no later Monday lies in between. */
  lemma WeekStartIsMonday(dayOfWeek: nat)
    requires dayOfWeek < 7
    ensures var off := WeekStartOffset(dayOfWeek);
            && off <= 6
            && DayBack(dayOfWeek, off) == 1
            && forall d: nat :: d < off ==> DayBack(dayOfWeek, d) != 1
  {
  }

  /** The day of the week `d` days before a day whose number is `dayOfWeek`. */
  function DayBack(dayOfWeek: nat, d: nat): int
  {
    (dayOfWeek - d) % 7
  }

  /** The start of the window: the week's Monday for "weekly", day 1 of the current month for anything else. */
  function WindowOf(period: string, today: Today): (w: Window)
    requires today.dayOfWeek < 7
    ensures period == Weekly <==> w.DaysBack?
    ensures w.DaysBack? ==> w.days <= 6 && DayBack(today.dayOfWeek, w.days) == 1
    ensures w.DaysBack? ==> forall d: nat :: d < w.days ==> DayBack(today.dayOfWeek, d) != 1
    ensures w.MonthStart? ==> w.year == today.year && w.month == today.month
  {
    WeekStartIsMonday(today.dayOfWeek);
    if period == Weekly then DaysBack(WeekStartOffset(today.dayOfWeek)) else MonthStart(today.year, today.month)
  }

  /** The week's window is used exactly when `type` is missing, empty or "weekly"; any other value selects the month. */
  lemma WeeklyUnlessOtherType(param: Option<string>, today: Today)
    requires today.dayOfWeek < 7
    ensures WindowOf(PeriodOf(param), today).DaysBack? <==> param.None? || param.value == "" || param.value == Weekly
  {
  }

  // ---------------------------------------------------------------------
  // Counting

  /** One appointment row of the window (the columns the summary reads). */
  datatype Named = Named(name: string)
  datatype Appointment = Appointment(date: string, customerId: nat, treatment: Option<Named>, capster: Option<Named>)

  /** What a dictionary counts by. */
  datatype Field = ByDate | ByTreatment | ByCapster

  /** The key a row is counted under: its date always; its treatment or capster name only when truthy. */
  function KeyOf(a: Appointment, f: Field): Option<string>
  {
    match f
    case ByDate => Some(a.date)
    case ByTreatment => if a.treatment.Some? && a.treatment.value.name != "" then Some(a.treatment.value.name) else None
    case ByCapster => if a.capster.Some? && a.capster.value.name != "" then Some(a.capster.value.name) else None
  }

  /** The dictionary after the rows `rows`: each counted row increments its key's entry. */
  function Tally(rows: seq<Appointment>, f: Field): map<string, nat>
  {
    if rows == [] then map[]
    else
      var m := Tally(rows[..|rows| - 1], f);
      match KeyOf(rows[|rows| - 1], f)
      case None => m
      case Some(k) => Bump(m, k)
  }

  /** `counts[k] = (counts[k] || 0) + 1`. */
  function Bump(m: map<string, nat>, k: string): map<string, nat>
  {
    m[k := (if k in m then m[k] else 0) + 1]
  }

  /** A key joins the insertion order the first time it is counted. */
  function Enlist(ks: seq<string>, k: string): seq<string>
  {
    if k in ks then ks else ks + [k]
  }

  /** The dictionary's keys in insertion order (the order of the JSON object). */
  function TallyOrder(rows: seq<Appointment>, f: Field): seq<string>
  {
    if rows == [] then []
    else
      var ks := TallyOrder(rows[..|rows| - 1], f);
      match KeyOf(rows[|rows| - 1], f)
      case None => ks
      case Some(k) => Enlist(ks, k)
  }

  /** The number of rows counted under `k`. */
  function Occurrences(rows: seq<Appointment>, f: Field, k: string): nat
  {
    if rows == [] then 0
    else Occurrences(rows[..|rows| - 1], f, k) + (if KeyOf(rows[|rows| - 1], f) == Some(k) then 1 else 0)
  }

  /** The number of rows counted at all. */
  function Counted(rows: seq<Appointment>, f: Field): (n: nat)
    ensures n <= |rows|
    ensures f == ByDate ==> n == |rows|
  {
    if rows == [] then 0
    else Counted(rows[..|rows| - 1], f) + (if KeyOf(rows[|rows| - 1], f).Some? then 1 else 0)
  }

  /** A key has an entry exactly when some row is counted under it, and the entry is the number of such rows. */
  lemma {:induction false} TallyEntries(rows: seq<Appointment>, f: Field, k: string)
    ensures k in Tally(rows, f) <==> Occurrences(rows, f, k) > 0
    ensures k in Tally(rows, f) ==> Tally(rows, f)[k] == Occurrences(rows, f, k)
  {
    if rows != [] {
      TallyEntries(rows[..|rows| - 1], f, k);
    }
  }

  /** The listed keys are the dictionary's keys, each once. */
  lemma {:induction false} TallyOrderKeys(rows: seq<Appointment>, f: Field)
    ensures forall k :: k in TallyOrder(rows, f) <==> k in Tally(rows, f)
    ensures forall i, j :: 0 <= i < j < |TallyOrder(rows, f)| ==> TallyOrder(rows, f)[i] != TallyOrder(rows, f)[j]
  {
    if rows != [] {
      TallyOrderKeys(rows[..|rows| - 1], f);
    }
  }

  /** The sum of the entries of the listed keys (a key without an entry adds nothing). */
  function ListedSum(order: seq<string>, m: map<string, nat>): nat
  {
    if order == [] then 0
    else
      var k := order[|order| - 1];
      ListedSum(order[..|order| - 1], m) + (if k in m then m[k] else 0)
  }

  lemma {:induction false} ListedSumOther(order: seq<string>, m: map<string, nat>, k: string, v: nat)
    requires k !in order
    ensures ListedSum(order, m[k := v]) == ListedSum(order, m)
  {
    if order != [] {
      ListedSumOther(order[..|order| - 1], m, k, v);
    }
  }

  lemma ListedSumAppend(order: seq<string>, m: map<string, nat>, k: string)
    requires k in m
    ensures ListedSum(order + [k], m) == ListedSum(order, m) + m[k]
  {
    assert (order + [k])[..|order|] == order;
  }

  /** Incrementing the entry of a key listed once adds one to the sum. */
  lemma {:induction false} ListedSumIncrement(order: seq<string>, m: map<string, nat>, k: string)
    requires forall i, j :: 0 <= i < j < |order| ==> order[i] != order[j]
    requires k in order && k in m
    ensures ListedSum(order, Bump(m, k)) == ListedSum(order, m) + 1
  {
    var init, last := order[..|order| - 1], order[|order| - 1];
    if last == k {
      assert k !in init;
      ListedSumOther(init, m, k, m[k] + 1);
    } else {
      assert k in init by {
        var i :| 0 <= i < |order| && order[i] == k;
        assert init[i] == k;
      }
      ListedSumIncrement(init, m, k);
    }
  }

  /** Counting one more row under a listed key raises the sum over the listed keys by one. */
  lemma CountSeen(ks: seq<string>, m: map<string, nat>, k: string)
    requires forall i, j :: 0 <= i < j < |ks| ==> ks[i] != ks[j]
    requires k in ks && k in m
    ensures ListedSum(Enlist(ks, k), Bump(m, k)) == ListedSum(ks, m) + 1
  {
    assert Enlist(ks, k) == ks;
    ListedSumIncrement(ks, m, k);
  }

  /** Counting a first row under a new key lists the key and raises the sum by one. */
  lemma CountNew(ks: seq<string>, m: map<string, nat>, k: string)
    requires k !in ks && k !in m
    ensures ListedSum(Enlist(ks, k), Bump(m, k)) == ListedSum(ks, m) + 1
  {
    ListedSumAppend(ks, m[k := 1], k);
    ListedSumOther(ks, m, k, 1);
  }

  /** One more row raises the sum over the listed keys by one exactly when the row is counted. */
  lemma TallySumStep(ks: seq<string>, m: map<string, nat>, k: string)
    requires forall i, j :: 0 <= i < j < |ks| ==> ks[i] != ks[j]
    requires forall x :: x in ks <==> x in m
    ensures ListedSum(Enlist(ks, k), Bump(m, k)) == ListedSum(ks, m) + 1
  {
    if k in ks {
      CountSeen(ks, m, k);
    } else {
      CountNew(ks, m, k);
    }
  }

  /** The entries add up to the number of counted rows. */
  lemma {:induction false} TallySum(rows: seq<Appointment>, f: Field)
    ensures ListedSum(TallyOrder(rows, f), Tally(rows, f)) == Counted(rows, f)
  {
    if rows != [] {
      var init := rows[..|rows| - 1];
      TallySum(init, f);
      match KeyOf(rows[|rows| - 1], f)
      case None =>
      case Some(k) =>
        TallyOrderKeys(init, f);
        TallySumStep(TallyOrder(init, f), Tally(init, f), k);
    }
  }

  /** One of the three `forEach` loops: each counted row increments its key's entry. */
  method CountBy(rows: seq<Appointment>, f: Field) returns (counts: map<string, nat>, order: seq<string>)
    ensures counts == Tally(rows, f) && order == TallyOrder(rows, f)
  {
    counts, order := map[], [];
    var i := 0;
    while i < |rows|
      invariant 0 <= i <= |rows|
      invariant counts == Tally(rows[..i], f) && order == TallyOrder(rows[..i], f)
    {
      assert rows[..i + 1][..i] == rows[..i];
      var key := KeyOf(rows[i], f);
      if key.Some? {
        var k := key.value;
        counts := counts[k := (if k in counts then counts[k] else 0) + 1];
        if k !in order {
          order := order + [k];
        }
      }
      i := i + 1;
    }
    assert rows[..i] == rows;
  }

  // ---------------------------------------------------------------------
  // The summary

  /** `new Set(appointments.map(a => a.customer_id))`. */
  function CustomerIds(rows: seq<Appointment>): set<nat>
  {
    if rows == [] then {} else CustomerIds(rows[..|rows| - 1]) + {rows[|rows| - 1].customerId}
  }

  /** The distinct customers are exactly the ids of the rows. */
  lemma {:induction false} CustomerIdsMembers(rows: seq<Appointment>)
    ensures forall c :: c in CustomerIds(rows) <==> exists i :: 0 <= i < |rows| && rows[i].customerId == c
  {
    if rows != [] {
      var init := rows[..|rows| - 1];
      CustomerIdsMembers(init);
      assert forall i :: 0 <= i < |init| ==> init[i] == rows[i];
    }
  }

  /** There are never more distinct customers than rows, and at least one when there is a row. */
  lemma {:induction false} CustomerIdsBound(rows: seq<Appointment>)
    ensures |CustomerIds(rows)| <= |rows|
    ensures rows != [] ==> |CustomerIds(rows)| >= 1
  {
    if rows != [] {
      var init := rows[..|rows| - 1];
      CustomerIdsBound(init);
      assert rows[|rows| - 1].customerId in CustomerIds(rows);
    }
  }

  /** A counting dictionary with its keys in insertion order. */
  datatype Counts = Counts(entries: map<string, nat>, order: seq<string>)

  /** The JSON body of a successful response. */
  datatype Summary = Summary(
    period: string,
    window: Window,
    totalAppointments: nat,
    totalCustomers: nat,
    totalTreatments: nat,
    dailyBreakdown: Counts,
    popularTreatments: Counts,
    popularCapsters: Counts,
    revenue: nat)

  /** The response: the store's error, or the summary. */
  datatype SummaryResponse = StoreError(error: string) | Summarized(summary: Summary)

  /** What the route answers for the `type` parameter, today and the store's answer for the window. */
  function SummarySpec(param: Option<string>, today: Today, fetched: Result<seq<Appointment>>): SummaryResponse
    requires today.dayOfWeek < 7
  {
    if fetched.Err? then StoreError(fetched.message)
    else
      var rows := fetched.value;
      var period := PeriodOf(param);
      Summarized(Summary(period, WindowOf(period, today), |rows|, |CustomerIds(rows)|, |rows|,
                         Counts(Tally(rows, ByDate), TallyOrder(rows, ByDate)),
                         Counts(Tally(rows, ByTreatment), TallyOrder(rows, ByTreatment)),
                         Counts(Tally(rows, ByCapster), TallyOrder(rows, ByCapster)),
                         0))
  }

  /** The route handler: the three dictionaries are filled by three passes over the rows. */
  method Summarize(param: Option<string>, today: Today, fetched: Result<seq<Appointment>>) returns (response: SummaryResponse)
    requires today.dayOfWeek < 7
    ensures response == SummarySpec(param, today, fetched)
  {
    if fetched.Err? {
      return StoreError(fetched.message);
    }
    var rows := fetched.value;
    var period := PeriodOf(param);
    var daily, dailyOrder := CountBy(rows, ByDate);
    var treatments, treatmentOrder := CountBy(rows, ByTreatment);
    var capsters, capsterOrder := CountBy(rows, ByCapster);
    response := Summarized(Summary(period, WindowOf(period, today), |rows|, |CustomerIds(rows)|, |rows|,
                                   Counts(daily, dailyOrder), Counts(treatments, treatmentOrder),
                                   Counts(capsters, capsterOrder), 0));
  }

  /**
   * The summary's promises: both totals are the number of rows, there are no
   * more distinct customers than rows, each dictionary entry is the number of
   * rows counted under its key, the daily entries add up to the total and the
   * treatment and capster entries to at most the total, and revenue is 0.
   */
  lemma SummaryFacts(param: Option<string>, today: Today, rows: seq<Appointment>, k: string)
    requires today.dayOfWeek < 7
    ensures var s := SummarySpec(param, today, Ok(rows)).summary;
            && s.totalAppointments == s.totalTreatments == |rows|
            && s.totalCustomers <= s.totalAppointments
            && (rows != [] ==> s.totalCustomers >= 1)
            && (k in s.dailyBreakdown.entries <==> Occurrences(rows, ByDate, k) > 0)
            && (k in s.dailyBreakdown.entries ==> s.dailyBreakdown.entries[k] == Occurrences(rows, ByDate, k))
            && (k in s.popularTreatments.entries ==> s.popularTreatments.entries[k] == Occurrences(rows, ByTreatment, k) && k != "")
            && (k in s.popularCapsters.entries ==> s.popularCapsters.entries[k] == Occurrences(rows, ByCapster, k) && k != "")
            && ListedSum(s.dailyBreakdown.order, s.dailyBreakdown.entries) == s.totalAppointments
            && ListedSum(s.popularTreatments.order, s.popularTreatments.entries) <= s.totalAppointments
            && ListedSum(s.popularCapsters.order, s.popularCapsters.entries) <= s.totalAppointments
            && s.revenue == 0
  {
    CustomerIdsBound(rows);
    TallyEntries(rows, ByDate, k);
    TallyEntries(rows, ByTreatment, k);
    TallyEntries(rows, ByCapster, k);
    if Occurrences(rows, ByTreatment, k) > 0 {
      NamedKeysNonEmpty(rows, ByTreatment, k);
    }
    if Occurrences(rows, ByCapster, k) > 0 {
      NamedKeysNonEmpty(rows, ByCapster, k);
    }
    TallySum(rows, ByDate);
    TallySum(rows, ByTreatment);
    TallySum(rows, ByCapster);
  }

  /** A name that is counted is never empty. */
  lemma {:induction false} NamedKeysNonEmpty(rows: seq<Appointment>, f: Field, k: string)
    requires f != ByDate && Occurrences(rows, f, k) > 0
    ensures k != ""
  {
    var init := rows[..|rows| - 1];
    if Occurrences(init, f, k) > 0 {
      NamedKeysNonEmpty(init, f, k);
    }
  }
}
