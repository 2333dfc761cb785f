/**
 * The board's arithmetic and reductions (src/app/page.tsx): the appointment
 * table's pagination and page buttons, the "Total Treatment" and "Treatment
 * Favorit" cards, and the add-appointment dialog's submit, which sends one
 * request per selected treatment.
 */
module PageView {
  import opened Basics
  import opened Text
  import P = PageGrouping

  // ---------------------------------------------------------------------
  // Pagination

  const ItemsPerPage: nat := 10

  function Min(a: int, b: int): int { if a <= b then a else b }
  function Max(a: int, b: int): int { if a >= b then a else b }

  /** `Math.ceil(n / itemsPerPage)`: the least number of pages that holds `n` items. */
  function TotalPages(n: nat): (t: nat)
    ensures t * ItemsPerPage >= n
    ensures t > 0 ==> (t - 1) * ItemsPerPage < n
  {
    (n + ItemsPerPage - 1) / ItemsPerPage
  }

  /** `items.slice(startIndex, endIndex)` for page `page` (pages count from 1). */
  function PageItems<T>(items: seq<T>, page: nat): (r: seq<T>)
    requires page >= 1
    ensures |r| <= ItemsPerPage
    ensures forall i :: 0 <= i < |r| ==> (page - 1) * ItemsPerPage + i < |items| && r[i] == items[(page - 1) * ItemsPerPage + i]
    ensures page <= TotalPages(|items|) <==> r != []
  {
    var start := Min((page - 1) * ItemsPerPage, |items|);
    var end := Min(page * ItemsPerPage, |items|);
    items[start..end]
  }

  /** Pages 1 to `k`, one after the other. */
  function PagesUpTo<T>(items: seq<T>, k: nat): seq<T>
  {
    if k == 0 then [] else PagesUpTo(items, k - 1) + PageItems(items, k)
  }

  /** The first `k` pages are the first `10 k` items (all of them once `k` pages hold everything). */
  lemma {:induction false} PagesArePrefix<T>(items: seq<T>, k: nat)
    ensures PagesUpTo(items, k) == items[..Min(k * ItemsPerPage, |items|)]
  {
    if k > 0 {
      PagesArePrefix(items, k - 1);
      var a, b := Min((k - 1) * ItemsPerPage, |items|), Min(k * ItemsPerPage, |items|);
      assert items[..a] + items[a..b] == items[..b];
    }
  }

  /** Reading every page in turn shows every item exactly once, in order. */
  lemma PagesCoverItems<T>(items: seq<T>)
    ensures PagesUpTo(items, TotalPages(|items|)) == items
  {
    PagesArePrefix(items, TotalPages(|items|));
  }

  /** The "Menampilkan a-b dari n" label of a page: its first and last item positions, counted from 1. */
  function RangeLabel(n: nat, page: nat): (nat, int)
    requires page >= 1
  {
    ((page - 1) * ItemsPerPage + 1, Min(page * ItemsPerPage, n))
  }

  /** On every existing page the label spans exactly the items shown. */
  lemma RangeLabelCountsItems<T>(items: seq<T>, page: nat)
    requires 1 <= page <= TotalPages(|items|)
    ensures var (first, last) := RangeLabel(|items|, page);
            1 <= first <= last <= |items| && last - first + 1 == |PageItems(items, page)|
  {
  }

  /** The "previous" button: one page back, never below 1. */
  function PrevPage(p: int): int
  {
    Max(p - 1, 1)
  }

  /** The "next" button: one page on, never past the last page. */
  function NextPage(p: int, total: nat): int
  {
    Min(p + 1, total)
  }

  /** From any page, both buttons lead to a page that exists; each stays put exactly where it is disabled. */
  lemma ButtonsStayInRange(p: int, total: nat)
    requires 1 <= p <= total
    ensures 1 <= PrevPage(p) <= total && 1 <= NextPage(p, total) <= total
    ensures PrevPage(p) == p <==> p == 1
    ensures NextPage(p, total) == p <==> p == total
    ensures PrevPage(p) < p ==> PrevPage(p) == p - 1
    ensures NextPage(p, total) > p ==> NextPage(p, total) == p + 1
  {
  }

  /** Whether page `page` gets a button: the first, the last, and those within one of the current page. */
  predicate Shown(page: int, total: nat, current: int)
  {
    page == 1 || page == total || -1 <= page - current <= 1
  }

  /** The buttons among pages 1 to `k`, in ascending order. */
  function ShownUpTo(k: nat, total: nat, current: int): (vs: seq<nat>)
    ensures forall p :: p in vs <==> 1 <= p <= k && Shown(p, total, current)
    ensures forall i, j :: 0 <= i < j < |vs| ==> vs[i] < vs[j]
    ensures forall i :: 0 <= i < |vs| ==> 1 <= vs[i] <= k
  {
    if k == 0 then [] else ShownUpTo(k - 1, total, current) + (if Shown(k, total, current) then [k] else [])
  }

  /** The page buttons: pages 1 to `total` filtered by `Shown`. */
  function VisiblePages(total: nat, current: int): seq<nat>
  {
    ShownUpTo(total, total, current)
  }

  /** `index > 0 && page - array[index - 1] > 1`: an ellipsis goes before this button. */
  predicate Ellipsis(vs: seq<nat>, index: nat)
    requires index < |vs|
  {
    index > 0 && vs[index] as int - vs[index - 1] as int > 1
  }

  /**
   * The buttons: page 1 and the last page always, the current page whenever it
   * exists; and an ellipsis stands before a button exactly when the page just
   * after the previous button has none.
   */
  lemma PageButtons(total: nat, current: int, index: nat)
    requires index < |VisiblePages(total, current)|
    ensures var vs := VisiblePages(total, current);
            && (total >= 1 ==> 1 in vs && total in vs)
            && (1 <= current <= total ==> current in vs)
            && (Ellipsis(vs, index) <==> index > 0 && vs[index - 1] + 1 !in vs)
            && (index > 0 ==> forall q :: vs[index - 1] < q < vs[index] ==> !Shown(q, total, current))
  {
    var vs := VisiblePages(total, current);
    if index > 0 {
      var lo, hi := vs[index - 1], vs[index];
      assert forall q :: lo < q < hi ==> q !in vs;
      if hi - lo == 1 {
        assert lo + 1 == vs[index];
      }
    }
  }

  // ---------------------------------------------------------------------
  // The statistics cards

  /** `appointments.reduce((total, a) => total + a.treatments.length, 0)`. */
  function TotalTreatments(groups: seq<P.Group>): nat
  {
    if groups == [] then 0
    else TotalTreatments(groups[..|groups| - 1]) + |groups[|groups| - 1].treatments|
  }

  /** The card's total over the listed groups is the dictionary's listed total. */
  lemma {:induction false} TotalOfValues(b: P.Board)
    requires forall k :: k in b.order ==> k in b.grouped
    ensures TotalTreatments(P.Values(b)) == P.ListedTotal(b.order, b.grouped)
    decreases |b.order|
  {
    if b.order != [] {
      var init := P.Board(b.order[..|b.order| - 1], b.grouped);
      TotalOfValues(init);
      assert P.Values(b)[..|b.order| - 1] == P.Values(init);
    }
  }

  /** "Total Treatment" counts every truthy treatment name of every complete row, and nothing else. */
  lemma TotalTreatmentsCountsRows(rows: seq<P.Appointment>)
    ensures TotalTreatments(P.Grouped(rows)) == |P.Filed(rows)|
  {
    P.FoldTotal(rows);
    TotalOfValues(P.Fold(rows));
  }

  /** The treatment names of all groups, group after group. */
  function Flat(groups: seq<P.Group>): seq<string>
  {
    if groups == [] then [] else Flat(groups[..|groups| - 1]) + groups[|groups| - 1].treatments
  }

  /** How often `t` occurs in `ts`. */
  function Occurrences(ts: seq<string>, t: string): nat
  {
    if ts == [] then 0 else Occurrences(ts[..|ts| - 1], t) + (if ts[|ts| - 1] == t then 1 else 0)
  }

  /** The distinct names of `ts`, in the order each first occurs. */
  function Distinct(ts: seq<string>): seq<string>
  {
    if ts == [] then []
    else
      var ds := Distinct(ts[..|ts| - 1]);
      var t := ts[|ts| - 1];
      if t in ds then ds else ds + [t]
  }

  /** Every name of `ts` is listed, and listed once. */
  lemma {:induction false} DistinctMembers(ts: seq<string>)
    ensures forall t :: t in Distinct(ts) <==> t in ts
    ensures forall i, j :: 0 <= i < j < |Distinct(ts)| ==> Distinct(ts)[i] != Distinct(ts)[j]
  {
    if ts != [] {
      var init := ts[..|ts| - 1];
      DistinctMembers(init);
      assert forall u :: u in ts <==> u in init || u == ts[|ts| - 1];
    }
  }

  /** The `treatmentCounts` dictionary after the names `ts`. */
  function Tally(ts: seq<string>): map<string, nat>
  {
    if ts == [] then map[]
    else
      var m := Tally(ts[..|ts| - 1]);
      var t := ts[|ts| - 1];
      m[t := (if t in m then m[t] else 0) + 1]
  }

  /** The dictionary has an entry for exactly the names that occur. */
  lemma {:induction false} TallyKeys(ts: seq<string>)
    ensures forall t :: t in Tally(ts) <==> t in ts
  {
    if ts != [] {
      var init := ts[..|ts| - 1];
      TallyKeys(init);
      assert forall u :: u in ts <==> u in init || u == ts[|ts| - 1];
    }
  }

  /** Each entry of the dictionary is the number of occurrences of its name. */
  lemma {:induction false} TallyCounts(ts: seq<string>, t: string)
    requires t in ts
    ensures t in Tally(ts) && Tally(ts)[t] == Occurrences(ts, t)
  {
    var init := ts[..|ts| - 1];
    TallyKeys(init);
    if t in init {
      TallyCounts(init, t);
    } else {
      NoOccurrences(init, t);
    }
  }

  lemma {:induction false} NoOccurrences(ts: seq<string>, t: string)
    requires t !in ts
    ensures Occurrences(ts, t) == 0
  {
    if ts != [] {
      NoOccurrences(ts[..|ts| - 1], t);
    }
  }

  /**
   * The nested `forEach` that fills `treatmentCounts`: every name of every
   * group increments its entry. The entries come out in the order of their
   * first name (`Object.entries`).
   */
  method CountTreatments(groups: seq<P.Group>) returns (counts: map<string, nat>, order: seq<string>)
    ensures counts == Tally(Flat(groups)) && order == Distinct(Flat(groups))
  {
    counts, order := map[], [];
    var i := 0;
    while i < |groups|
      invariant 0 <= i <= |groups|
      invariant counts == Tally(Flat(groups[..i])) && order == Distinct(Flat(groups[..i]))
    {
      assert groups[..i + 1][..i] == groups[..i];
      counts, order := CountNames(counts, order, Flat(groups[..i]), groups[i].treatments);
      i := i + 1;
    }
    assert groups[..i] == groups;
  }

  /** The inner `forEach`: the names `ts` of one group, after the names `seen` of the groups before it. */
  method CountNames(counts: map<string, nat>, order: seq<string>, ghost seen: seq<string>, ts: seq<string>)
    returns (counts': map<string, nat>, order': seq<string>)
    requires counts == Tally(seen) && order == Distinct(seen)
    ensures counts' == Tally(seen + ts) && order' == Distinct(seen + ts)
  {
    counts', order' := counts, order;
    var j := 0;
    assert seen + ts[..0] == seen;
    while j < |ts|
      invariant 0 <= j <= |ts|
      invariant counts' == Tally(seen + ts[..j]) && order' == Distinct(seen + ts[..j])
    {
      var t := ts[j];
      TallyStep(seen + ts[..j], t);
      PrefixStep(seen, ts, j);
      counts' := counts'[t := (if t in counts' then counts'[t] else 0) + 1];
      if t !in order' {
        order' := order' + [t];
      }
      j := j + 1;
    }
    assert ts[..j] == ts;
  }

  /** Taking one more name of `ts` after `seen`. */
  lemma PrefixStep(seen: seq<string>, ts: seq<string>, j: nat)
    requires j < |ts|
    ensures seen + ts[..j + 1] == (seen + ts[..j]) + [ts[j]]
  {
    assert ts[..j + 1] == ts[..j] + [ts[j]];
  }

  /** One more name increments its entry (creating it at 1) and is listed if new. */
  lemma TallyStep(seen: seq<string>, t: string)
    ensures Tally(seen + [t]) == Tally(seen)[t := (if t in Tally(seen) then Tally(seen)[t] else 0) + 1]
    ensures Distinct(seen + [t]) == if t in Distinct(seen) then Distinct(seen) else Distinct(seen) + [t]
  {
    assert (seen + [t])[..|seen|] == seen;
  }

  /**
   * The entry `Object.entries(...).sort((a, b) => b[1] - a[1])[0]` picks: the
   * sort is stable, so it is the first listed name with the highest count.
   */
  function MostPopularIndex(order: seq<string>, counts: map<string, nat>): (i: int)
    requires forall t :: t in order ==> t in counts
    ensures -1 <= i < |order|
    ensures i == -1 <==> order == []
    ensures i >= 0 ==> forall j :: 0 <= j < |order| ==> counts[order[j]] <= counts[order[i]]
    ensures i >= 0 ==> forall j :: 0 <= j < i ==> counts[order[j]] < counts[order[i]]
  {
    if order == [] then -1
    else
      var r := MostPopularIndex(order[1..], counts);
      if r == -1 || counts[order[0]] >= counts[order[1..][r]] then 0 else r + 1
  }

  /** The "Treatment Favorit" card: the favourite name and its count (ties go to the name counted first), or nothing for a day without treatments. */
  method MostPopular(groups: seq<P.Group>) returns (fav: Option<(string, nat)>)
    ensures fav.None? <==> Flat(groups) == []
    ensures fav.Some? ==> fav.value.0 in Flat(groups) && fav.value.1 == Occurrences(Flat(groups), fav.value.0)
    ensures fav.Some? ==> forall t :: t in Flat(groups) ==> Occurrences(Flat(groups), t) <= fav.value.1
    ensures fav.Some? ==> var d := Distinct(Flat(groups));
              forall j, k :: 0 <= j < |d| && 0 <= k < |d| && d[k] == fav.value.0 && Occurrences(Flat(groups), d[j]) == fav.value.1 ==> k <= j
  {
    var counts, order := CountTreatments(groups);
    DistinctMembers(Flat(groups));
    TallyKeys(Flat(groups));
    var i := MostPopularIndex(order, counts);
    if i == -1 {
      fav := None;
    } else {
      var t := order[i];
      forall j | 0 <= j < |order|
        ensures counts[order[j]] == Occurrences(Flat(groups), order[j])
      {
        TallyCounts(Flat(groups), order[j]);
      }
      TallyCounts(Flat(groups), t);
      fav := Some((t, counts[t]));
      forall u | u in Flat(groups)
        ensures Occurrences(Flat(groups), u) <= counts[t]
      {
        TallyCounts(Flat(groups), u);
        var j :| 0 <= j < |order| && order[j] == u;
      }
    }
  }

  // ---------------------------------------------------------------------
  // Submitting the dialog

  /** A decimal numeral, as `id.toString()` produces for a select option's value. */
  predicate IsNumeral(s: string)
  {
    s != [] && forall i :: 0 <= i < |s| ==> IsDigit(s[i])
  }

  /** `Number(s)` of a numeral: its decimal value. */
  function Number(s: string): nat
    requires IsNumeral(s)
  {
    DecimalValue(s)
  }

  /** `POST /api/appointments` with `{customer_id, treatment_id, capster_id}`. */
  datatype Request = Request(customerId: nat, treatmentId: nat, capsterId: nat)

  /**
   * `handleSubmit`: nothing without a customer with a truthy id, a treatment
   * and a capster; otherwise one request per selected treatment, each
   * `Number(...)` of a selected option value.
   */
  function SubmitRequests(customer: Option<P.Customer>, treatments: seq<string>, capster: string): (rs: seq<Request>)
    requires forall i :: 0 <= i < |treatments| ==> IsNumeral(treatments[i])
    requires capster == "" || IsNumeral(capster)
    ensures rs == [] <==> customer.None? || customer.value.id == 0 || treatments == [] || capster == ""
    ensures rs != [] ==> |rs| == |treatments|
    ensures forall i :: 0 <= i < |rs| ==> rs[i].customerId == customer.value.id && rs[i].capsterId == Number(capster)
    ensures forall i :: 0 <= i < |rs| ==> rs[i].treatmentId == Number(treatments[i])
  {
    if customer.None? || customer.value.id == 0 || |treatments| == 0 || capster == "" then []
    else seq(|treatments|, i requires 0 <= i < |treatments| => Request(customer.value.id, Number(treatments[i]), Number(capster)))
  }

  /** The requests carry exactly the ids that were selected, in the order they were selected. */
  lemma SubmitCarriesSelection(customer: P.Customer, treatmentIds: seq<nat>, capsterId: nat)
    requires customer.id != 0 && treatmentIds != []
    ensures var values := seq(|treatmentIds|, i requires 0 <= i < |treatmentIds| => NatToString(treatmentIds[i]));
            var rs := SubmitRequests(Some(customer), values, NatToString(capsterId));
            && |rs| == |treatmentIds|
            && forall i :: 0 <= i < |rs| ==> rs[i] == Request(customer.id, treatmentIds[i], capsterId)
  {
    var values := seq(|treatmentIds|, i requires 0 <= i < |treatmentIds| => NatToString(treatmentIds[i]));
    var rs := SubmitRequests(Some(customer), values, NatToString(capsterId));
    DecimalRoundTrip(capsterId);
    forall i | 0 <= i < |rs|
      ensures rs[i] == Request(customer.id, treatmentIds[i], capsterId)
    {
      DecimalRoundTrip(treatmentIds[i]);
    }
  }
}
