/**
 * `groupAppointments` of the export route (src/app/api/export/route.ts), copied
 * verbatim into the debug-export route: flat appointment rows, one per
 * treatment, are collapsed into visits keyed by the string
 * `customerName_time_capsterName`. Nothing is filtered out; a missing customer
 * or capster contributes "" to the key.
 */
module ExportGrouping {
  import opened Basics

  /** The joined `customers(name, whatsapp)` record. */
  datatype Customer = Customer(name: string, whatsapp: string)

  /** A joined `treatments(name)` or `capsters(name)` record. */
  datatype Named = Named(name: string)

  /** One appointment row as the store returns it (one treatment per row). */
  datatype AppointmentRow = AppointmentRow(
    id: nat,
    date: string,
    time: string,
    customer: Option<Customer>,
    treatment: Option<Named>,
    capster: Option<Named>)

  /** One visit: the first row's date, time, customer and capster, and the treatments of all its rows. */
  datatype Group = Group(
    date: string,
    time: string,
    customer: Option<Customer>,
    treatments: seq<string>,
    capster: Option<Named>)

  /** `customers?.name || ""`. */
  function CustomerName(c: Option<Customer>): string
  {
    if c.Some? then c.value.name else ""
  }

  /** `capsters?.name || ""`. */
  function CapsterName(c: Option<Named>): string
  {
    if c.Some? then c.value.name else ""
  }

  /** `customers?.whatsapp || ""`. */
  function WhatsApp(c: Option<Customer>): string
  {
    if c.Some? then c.value.whatsapp else ""
  }

  /** The grouping key of a row. */
  function Key(r: AppointmentRow): string
  {
    CustomerName(r.customer) + "_" + r.time + "_" + CapsterName(r.capster)
  }

  /** The same key, recomputed from a group's stored fields. */
  function GroupKey(g: Group): string
  {
    CustomerName(g.customer) + "_" + g.time + "_" + CapsterName(g.capster)
  }

  /** What a row adds to its group's treatment list: its treatment name when that is truthy. */
  function Contribution(r: AppointmentRow): seq<string>
  {
    if r.treatment.Some? && r.treatment.value.name != "" then [r.treatment.value.name] else []
  }

  /** The distinct keys of `rows`, in the order in which each first occurs. */
  function Keys(rows: seq<AppointmentRow>): (ks: seq<string>)
    ensures |ks| <= |rows|
  {
    if rows == [] then []
    else
      var init := rows[..|rows| - 1];
      var ks := Keys(init);
      var k := Key(rows[|rows| - 1]);
      if k in ks then ks else ks + [k]
  }

  /** Every row's key is listed. */
  lemma {:induction false} KeysCover(rows: seq<AppointmentRow>)
    ensures forall i :: 0 <= i < |rows| ==> Key(rows[i]) in Keys(rows)
  {
    if rows != [] {
      var init := rows[..|rows| - 1];
      KeysCover(init);
      assert forall i :: 0 <= i < |init| ==> init[i] == rows[i];
    }
  }

  /** No key is listed twice. */
  lemma {:induction false} KeysDistinct(rows: seq<AppointmentRow>)
    ensures forall i, j :: 0 <= i < j < |Keys(rows)| ==> Keys(rows)[i] != Keys(rows)[j]
  {
    if rows != [] {
      KeysDistinct(rows[..|rows| - 1]);
    }
  }

  /** The position of the first row whose key is `k`. */
  function FirstIndex(rows: seq<AppointmentRow>, k: string): (j: nat)
    requires k in Keys(rows)
    ensures j < |rows| && Key(rows[j]) == k
    ensures forall i :: 0 <= i < j ==> Key(rows[i]) != k
  {
    var init := rows[..|rows| - 1];
    assert forall i :: 0 <= i < |init| ==> init[i] == rows[i];
    KeysCover(init);
    if k in Keys(init) then FirstIndex(init, k) else |rows| - 1
  }

  /** The treatment names contributed by the rows whose key is `k`, in input order. */
  function TreatmentsFor(rows: seq<AppointmentRow>, k: string): seq<string>
  {
    if rows == [] then []
    else
      var last := rows[|rows| - 1];
      TreatmentsFor(rows[..|rows| - 1], k) + (if Key(last) == k then Contribution(last) else [])
  }

  /** The group of key `k`: seeded from the key's first row, carrying every treatment of the key. */
  function GroupFor(rows: seq<AppointmentRow>, k: string): Group
    requires k in Keys(rows)
  {
    var first := rows[FirstIndex(rows, k)];
    Group(first.date, first.time, first.customer, TreatmentsFor(rows, k), first.capster)
  }

  /** What `groupAppointments` returns: one group per distinct key, in first-seen key order. */
  function Grouped(rows: seq<AppointmentRow>): seq<Group>
  {
    var ks := Keys(rows);
    seq(|ks|, i requires 0 <= i < |ks| => GroupFor(rows, ks[i]))
  }

  /** One more row adds its key at the end, unless it was already seen. */
  lemma KeysStep(seen: seq<AppointmentRow>, r: AppointmentRow)
    ensures Keys(seen + [r]) == if Key(r) in Keys(seen) then Keys(seen) else Keys(seen) + [Key(r)]
  {
    assert (seen + [r])[..|seen|] == seen;
  }

  /** One more row leaves the group of every other seen key as it was. */
  lemma GroupForOtherKey(seen: seq<AppointmentRow>, r: AppointmentRow, k: string)
    requires k in Keys(seen) && k != Key(r)
    ensures k in Keys(seen + [r]) && GroupFor(seen + [r], k) == GroupFor(seen, k)
  {
    assert (seen + [r])[..|seen|] == seen;
  }

  /** A row with a seen key appends its contribution to that key's group. */
  lemma GroupForSeenKey(seen: seq<AppointmentRow>, r: AppointmentRow)
    requires Key(r) in Keys(seen)
    ensures Key(r) in Keys(seen + [r]) && GroupFor(seen + [r], Key(r)) == Extended(GroupFor(seen, Key(r)), r)
  {
    assert (seen + [r])[..|seen|] == seen;
  }

  /** A row with a new key seeds that key's group. */
  lemma GroupForNewKey(seen: seq<AppointmentRow>, r: AppointmentRow)
    requires Key(r) !in Keys(seen)
    ensures Key(r) in Keys(seen + [r]) && GroupFor(seen + [r], Key(r)) == Seed(r)
  {
    assert (seen + [r])[..|seen|] == seen;
    NoTreatmentsForUnseenKey(seen, Key(r));
  }

  /** A key that no row carries has an empty treatment list. */
  lemma {:induction false} NoTreatmentsForUnseenKey(rows: seq<AppointmentRow>, k: string)
    requires k !in Keys(rows)
    ensures TreatmentsFor(rows, k) == []
  {
    if rows != [] {
      var init := rows[..|rows| - 1];
      assert k !in Keys(init);
      NoTreatmentsForUnseenKey(init, k);
    }
  }

  /**
   * The source's loop: a dictionary from key to group, filled in one pass;
   * a new key creates a group, a known key appends the row's treatment name.
   * The result lists the dictionary's values in key-insertion order (no key
   * is an array index, since every key contains "_").
   */
  method GroupAppointments(rows: seq<AppointmentRow>) returns (groups: seq<Group>)
    ensures groups == Grouped(rows)
  {
    var grouped, order := FileRows(rows);
    groups := Values(grouped, order);
    FiledValues(grouped, order, rows, groups);
  }

  /** The `forEach` pass: files every row, in order, into the dictionary. */
  method FileRows(rows: seq<AppointmentRow>) returns (grouped: map<string, Group>, order: seq<string>)
    ensures Filed(grouped, order, rows)
  {
    grouped, order := map[], [];
    var i := 0;
    assert rows[..0] == [];
    while i < |rows|
      invariant 0 <= i <= |rows|
      invariant Filed(grouped, order, rows[..i])
    {
      var grouped', order' := AddRow(grouped, order, rows[i]);
      FiledStep(rows, i, grouped, order, grouped', order');
      grouped, order := grouped', order';
      i := i + 1;
    }
    assert rows[..|rows|] == rows;
  }

  /** `Object.values(grouped)`: the groups in the order their keys were inserted. */
  method Values(grouped: map<string, Group>, order: seq<string>) returns (groups: seq<Group>)
    requires forall k :: k in order ==> k in grouped
    ensures |groups| == |order|
    ensures forall j :: 0 <= j < |order| ==> groups[j] == grouped[order[j]]
  {
    groups := seq(|order|, j requires 0 <= j < |order| => grouped[order[j]]);
  }

  /** The `forEach` callback: files one row under its key, creating the group on first sight. */
  method AddRow(grouped: map<string, Group>, order: seq<string>, r: AppointmentRow)
    returns (grouped': map<string, Group>, order': seq<string>)
    ensures Key(r) in grouped ==> order' == order && grouped' == grouped[Key(r) := Extended(grouped[Key(r)], r)]
    ensures Key(r) !in grouped ==> order' == order + [Key(r)] && grouped' == grouped[Key(r) := Seed(r)]
  {
    var key := Key(r);
    grouped', order' := grouped, order;
    if key in grouped {
      var g := grouped[key];
      if r.treatment.Some? && r.treatment.value.name != "" {
        grouped' := grouped[key := g.(treatments := g.treatments + [r.treatment.value.name])];
      } else {
        assert g == Extended(g, r);
      }
    } else {
      grouped' := grouped[key := Group(r.date, r.time, r.customer, Contribution(r), r.capster)];
      order' := order + [key];
    }
  }

  /** A new group, seeded from its first row. */
  function Seed(r: AppointmentRow): Group
  {
    Group(r.date, r.time, r.customer, Contribution(r), r.capster)
  }

  /** A group after a further row of its key: the row's contribution appended. */
  function Extended(g: Group, r: AppointmentRow): Group
  {
    g.(treatments := g.treatments + Contribution(r))
  }

  /** The loop state after the rows `seen`: `order` lists the keys seen, `grouped` maps each to its group. */
  ghost predicate Filed(grouped: map<string, Group>, order: seq<string>, seen: seq<AppointmentRow>)
  {
    && order == Keys(seen)
    && (forall k :: k in grouped <==> k in order)
    && (forall k :: k in grouped ==> grouped[k] == GroupFor(seen, k))
  }

  /** Listing the dictionary's values in key order gives the grouping of all the rows. */
  lemma FiledValues(grouped: map<string, Group>, order: seq<string>, rows: seq<AppointmentRow>, groups: seq<Group>)
    requires Filed(grouped, order, rows)
    requires |groups| == |order| && forall j :: 0 <= j < |order| ==> groups[j] == grouped[order[j]]
    ensures groups == Grouped(rows)
  {
  }

  /** Filing row `i` takes the loop state after `rows[..i]` to the state after `rows[..i + 1]`. */
  lemma FiledStep(rows: seq<AppointmentRow>, i: nat,
                  grouped: map<string, Group>, order: seq<string>,
                  grouped': map<string, Group>, order': seq<string>)
    requires i < |rows| && Filed(grouped, order, rows[..i])
    requires Key(rows[i]) in grouped ==> order' == order && grouped' == grouped[Key(rows[i]) := Extended(grouped[Key(rows[i])], rows[i])]
    requires Key(rows[i]) !in grouped ==> order' == order + [Key(rows[i])] && grouped' == grouped[Key(rows[i]) := Seed(rows[i])]
    ensures Filed(grouped', order', rows[..i + 1])
  {
    SliceExtend(rows, i);
    FiledAppend(rows[..i], rows[i], rows[..i + 1], grouped, order, grouped', order');
  }

  /** The first `i + 1` rows are the first `i` rows followed by row `i`. */
  lemma SliceExtend(rows: seq<AppointmentRow>, i: nat)
    requires i < |rows|
    ensures rows[..i + 1] == rows[..i] + [rows[i]]
  {
  }

  /** Filing one more row `r` takes the loop state after `seen` to the state after `post == seen + [r]`. */
  lemma FiledAppend(seen: seq<AppointmentRow>, r: AppointmentRow, post: seq<AppointmentRow>,
                    grouped: map<string, Group>, order: seq<string>,
                    grouped': map<string, Group>, order': seq<string>)
    requires post == seen + [r]
    requires Filed(grouped, order, seen)
    requires Key(r) in grouped ==> order' == order && grouped' == grouped[Key(r) := Extended(grouped[Key(r)], r)]
    requires Key(r) !in grouped ==> order' == order + [Key(r)] && grouped' == grouped[Key(r) := Seed(r)]
    ensures Filed(grouped', order', post)
  {
    KeysStep(seen, r);
    forall k | k in grouped'
      ensures grouped'[k] == GroupFor(seen + [r], k)
    {
      if k != Key(r) {
        GroupForOtherKey(seen, r, k);
      } else if k in grouped {
        GroupForSeenKey(seen, r);
      } else {
        GroupForNewKey(seen, r);
      }
    }
  }

  /**
   * Grouping never loses a row: there are at most as many groups as rows, at
   * least one when there is a row, each group's key is distinct, and every
   * row's key is the key of some group.
   */
  lemma GroupedCoversRows(rows: seq<AppointmentRow>)
    ensures var gs := Grouped(rows);
            && |gs| <= |rows|
            && (rows != [] ==> |gs| >= 1)
            && (forall i :: 0 <= i < |gs| ==> GroupKey(gs[i]) == Keys(rows)[i])
            && (forall i, j :: 0 <= i < j < |gs| ==> GroupKey(gs[i]) != GroupKey(gs[j]))
            && (forall i :: 0 <= i < |rows| ==> exists j :: 0 <= j < |gs| && GroupKey(gs[j]) == Key(rows[i]))
  {
    var gs, ks := Grouped(rows), Keys(rows);
    KeysCover(rows);
    KeysDistinct(rows);
    if rows != [] {
      assert Key(rows[0]) in ks;
    }
    forall i | 0 <= i < |rows|
      ensures exists j :: 0 <= j < |gs| && GroupKey(gs[j]) == Key(rows[i])
    {
      var k := Key(rows[i]);
      assert k in ks;
      var j :| 0 <= j < |ks| && ks[j] == k;
      assert GroupKey(gs[j]) == k;
    }
  }

  /** Groups come out in the order of their keys' first rows. */
  lemma {:induction false} KeysInFirstSeenOrder(rows: seq<AppointmentRow>, i: nat, j: nat)
    requires i < j < |Keys(rows)|
    ensures FirstIndex(rows, Keys(rows)[i]) < FirstIndex(rows, Keys(rows)[j])
  {
    var init := rows[..|rows| - 1];
    var ks := Keys(init);
    assert forall m :: 0 <= m < |init| ==> init[m] == rows[m];
    if j < |ks| {
      KeysInFirstSeenOrder(init, i, j);
    } else {
      assert Keys(rows)[i] in ks;
    }
  }

  /** A group's list is exactly the truthy treatment names of the rows of its key, in input order. */
  lemma {:induction false} TreatmentsAreTheKeysNames(rows: seq<AppointmentRow>, k: string)
    ensures TreatmentsFor(rows, k) == FlatContributions(KeyRows(rows, k))
    ensures forall t :: t in TreatmentsFor(rows, k) ==> t != ""
  {
    if rows != [] {
      var init, last := rows[..|rows| - 1], rows[|rows| - 1];
      TreatmentsAreTheKeysNames(init, k);
      assert KeyRows(rows, k) == KeyRows(init, k) + (if Key(last) == k then [last] else []);
      FlatContributionsAppend(KeyRows(init, k), if Key(last) == k then [last] else []);
    }
  }

  /** The rows whose key is `k`, in input order (the source's filter by key). */
  function KeyRows(rows: seq<AppointmentRow>, k: string): (r: seq<AppointmentRow>)
    ensures forall x :: x in r ==> x in rows && Key(x) == k
  {
    if rows == [] then []
    else if Key(rows[|rows| - 1]) == k then KeyRows(rows[..|rows| - 1], k) + [rows[|rows| - 1]]
    else KeyRows(rows[..|rows| - 1], k)
  }

  /** The concatenated contributions of `rows`. */
  function FlatContributions(rows: seq<AppointmentRow>): seq<string>
  {
    if rows == [] then [] else Contribution(rows[0]) + FlatContributions(rows[1..])
  }

  lemma {:induction false} FlatContributionsAppend(a: seq<AppointmentRow>, b: seq<AppointmentRow>)
    ensures FlatContributions(a + b) == FlatContributions(a) + FlatContributions(b)
  {
    if a == [] {
      assert a + b == b;
    } else {
      assert (a + b)[0] == a[0];
      assert (a + b)[1..] == a[1..] + b;
      FlatContributionsAppend(a[1..], b);
      assert FlatContributions(a + b) == Contribution(a[0]) + (FlatContributions(a[1..]) + FlatContributions(b));
    }
  }
}
