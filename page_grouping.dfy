/**
 * The board's own `groupAppointments` (src/app/page.tsx): a second grouping of
 * the day's appointment rows, separate from the export's. Incomplete rows
 * are skipped. A group's dictionary key is `customerId_time_capster_appointmentId`
 * of the row that created it, and a later row joins the FIRST existing key
 * that starts with its own `customerId_time_capster_`. That prefix search
 * also matches a different capster whose name extends this one's after an
 * underscore.
 */
module PageGrouping {
  import opened Basics
  import opened Text

  /** The joined customer record (with its numeric id). */
  datatype Customer = Customer(id: nat, name: string, whatsapp: string)

  /** A joined `treatments(name)` or `capsters(name)` record. */
  datatype Named = Named(name: string)

  /** One appointment row as the board loads it (one treatment per row). */
  datatype Appointment = Appointment(
    id: nat,
    date: string,
    time: string,
    customer: Option<Customer>,
    treatment: Option<Named>,
    capster: Option<Named>)

  /** One displayed visit: the dictionary key, the first row's fields and the treatments filed into it. */
  datatype Group = Group(
    id: string,
    date: string,
    time: string,
    customer: Option<Customer>,
    treatments: seq<string>,
    capster: Option<Named>)

  /** The guard: a customer with a truthy id, a non-empty time and a capster with a non-empty name. */
  predicate Complete(a: Appointment)
  {
    a.customer.Some? && a.customer.value.id != 0 && a.time != "" && a.capster.Some? && a.capster.value.name != ""
  }

  /** `customerId_time_capster`. */
  function Base(customerId: nat, time: string, capster: string): string
  {
    NatToString(customerId) + "_" + time + "_" + capster
  }

  /** The base key of a complete row. */
  function BaseKey(a: Appointment): string
    requires Complete(a)
  {
    Base(a.customer.value.id, a.time, a.capster.value.name)
  }

  /** The key of the group a complete row creates: its base key and its own id. */
  function GroupKey(a: Appointment): (k: string)
    requires Complete(a)
    ensures StartsWith(k, BaseKey(a) + "_")
  {
    var p := BaseKey(a) + "_";
    assert (p + NatToString(a.id))[..|p|] == p;
    BaseKey(a) + "_" + NatToString(a.id)
  }

  /** What a row adds to a treatment list: its treatment name when that is truthy. */
  function Contribution(a: Appointment): seq<string>
  {
    if a.treatment.Some? && a.treatment.value.name != "" then [a.treatment.value.name] else []
  }

  /** The group a complete row creates. */
  function Seed(a: Appointment): Group
    requires Complete(a)
  {
    Group(GroupKey(a), a.date, a.time, a.customer, Contribution(a), a.capster)
  }

  /** A group after a further row joined it: the row's contribution appended. */
  function Extended(g: Group, a: Appointment): Group
  {
    g.(treatments := g.treatments + Contribution(a))
  }

  /** `keys.findIndex(k => k.startsWith(p))`: the first key with prefix `p`, or -1. */
  function FirstMatch(keys: seq<string>, p: string): (i: int)
    ensures -1 <= i < |keys|
    ensures i == -1 <==> forall j :: 0 <= j < |keys| ==> !StartsWith(keys[j], p)
    ensures i >= 0 ==> StartsWith(keys[i], p) && forall j :: 0 <= j < i ==> !StartsWith(keys[j], p)
  {
    if keys == [] then -1
    else if StartsWith(keys[0], p) then 0
    else
      var i := FirstMatch(keys[1..], p);
      if i == -1 then -1 else i + 1
  }

  /** The dictionary and the order in which its keys were inserted (that of `Object.keys`). */
  datatype Board = Board(order: seq<string>, grouped: map<string, Group>)

  const Empty := Board([], map[])

  /** The `forEach` callback applied to one row. */
  function Step(b: Board, a: Appointment): Board
  {
    if !Complete(a) then b
    else
      var i := FirstMatch(b.order, BaseKey(a) + "_");
      if i >= 0 && b.order[i] in b.grouped then
        Board(b.order, b.grouped[b.order[i] := Extended(b.grouped[b.order[i]], a)])
      else
        var k := GroupKey(a);
        Board(if k in b.grouped then b.order else b.order + [k], b.grouped[k := Seed(a)])
  }

  /** The dictionary after the rows `rows`, one at a time. */
  function Fold(rows: seq<Appointment>): Board
  {
    if rows == [] then Empty else Step(Fold(rows[..|rows| - 1]), rows[|rows| - 1])
  }

  /** `Object.values`: the groups in key-insertion order. */
  function Values(b: Board): (gs: seq<Group>)
    requires forall k :: k in b.order ==> k in b.grouped
    ensures |gs| == |b.order|
    ensures forall i :: 0 <= i < |b.order| ==> gs[i] == b.grouped[b.order[i]]
  {
    seq(|b.order|, i requires 0 <= i < |b.order| => b.grouped[b.order[i]])
  }

  /** The base a group was created under, recomputed from its stored fields. */
  predicate KeyedBy(k: string, g: Group)
  {
    && g.id == k
    && g.customer.Some? && g.capster.Some?
    && StartsWith(k, Base(g.customer.value.id, g.time, g.capster.value.name) + "_")
  }

  /**
   * The dictionary's invariant: its keys are the listed keys, listed once;
   * every group's id is its key, which starts with the group's own base; and
   * every listed treatment is a non-empty name.
   */
  ghost predicate Inv(b: Board)
  {
    && (forall k :: k in b.grouped <==> k in b.order)
    && (forall i, j :: 0 <= i < j < |b.order| ==> b.order[i] != b.order[j])
    && (forall k :: k in b.grouped ==> KeyedBy(k, b.grouped[k]))
    && (forall k, t :: k in b.grouped && t in b.grouped[k].treatments ==> t != "")
  }

  /** What the board shows: the groups of the rows, in creation order. */
  function Grouped(rows: seq<Appointment>): (gs: seq<Group>)
    ensures |gs| == |Fold(rows).order|
  {
    FoldInv(rows);
    Values(Fold(rows))
  }

  /** Filing one row keeps the invariant. */
  lemma StepInv(b: Board, a: Appointment)
    requires Inv(b)
    ensures Inv(Step(b, a))
  {
    if Complete(a) {
      var i := FirstMatch(b.order, BaseKey(a) + "_");
      if i >= 0 && b.order[i] in b.grouped {
        JoinInv(b, b.order[i], a);
      } else {
        CreateInv(b, a);
      }
    }
  }

  /** Appending a row's contribution to an existing group keeps the invariant. */
  lemma JoinInv(b: Board, k: string, a: Appointment)
    requires Inv(b) && k in b.grouped
    ensures Inv(Board(b.order, b.grouped[k := Extended(b.grouped[k], a)]))
  {
    var g' := Extended(b.grouped[k], a);
    assert KeyedBy(k, g');
    forall t | t in g'.treatments
      ensures t != ""
    {
      if t !in b.grouped[k].treatments {
        assert t in Contribution(a);
      }
    }
  }

  /** Creating the group of a row whose key is new keeps the invariant. */
  lemma CreateInv(b: Board, a: Appointment)
    requires Inv(b) && Complete(a)
    requires forall j :: 0 <= j < |b.order| ==> b.order[j] != GroupKey(a)
    ensures GroupKey(a) !in b.grouped
    ensures Inv(Board(b.order + [GroupKey(a)], b.grouped[GroupKey(a) := Seed(a)]))
  {
    var k := GroupKey(a);
    var order' := b.order + [k];
    assert KeyedBy(k, Seed(a));
    forall i, j | 0 <= i < j < |order'|
      ensures order'[i] != order'[j]
    {
      if j < |b.order| {
        assert order'[i] == b.order[i] && order'[j] == b.order[j];
      } else {
        assert order'[i] == b.order[i];
      }
    }
  }

  /** Every board the rows produce keeps the invariant. */
  lemma {:induction false} FoldInv(rows: seq<Appointment>)
    ensures Inv(Fold(rows))
  {
    if rows != [] {
      FoldInv(rows[..|rows| - 1]);
      StepInv(Fold(rows[..|rows| - 1]), rows[|rows| - 1]);
    }
  }

  /** The fold over one more row is one more step. */
  lemma FoldLast(rows: seq<Appointment>, a: Appointment)
    ensures Fold(rows + [a]) == Step(Fold(rows), a)
  {
    assert (rows + [a])[..|rows|] == rows;
  }

  /**
   * The source's loop: skip an incomplete row; otherwise find the first key
   * with the row's base as prefix and append the treatment there, or create
   * the row's own group.
   */
  method GroupAppointments(rows: seq<Appointment>) returns (groups: seq<Group>)
    ensures groups == Grouped(rows)
  {
    var order: seq<string> := [];
    var grouped: map<string, Group> := map[];
    var n := 0;
    while n < |rows|
      invariant 0 <= n <= |rows|
      invariant Board(order, grouped) == Fold(rows[..n])
    {
      var a := rows[n];
      assert rows[..n + 1] == rows[..n] + [a];
      FoldLast(rows[..n], a);
      if a.customer.Some? && a.customer.value.id != 0 && a.time != "" && a.capster.Some? && a.capster.value.name != "" {
        var found := FindKey(order, BaseKey(a) + "_");
        if found >= 0 && order[found] in grouped {
          var key := order[found];
          var g := grouped[key];
          if a.treatment.Some? && a.treatment.value.name != "" {
            grouped := grouped[key := g.(treatments := g.treatments + [a.treatment.value.name])];
          } else {
            assert g.treatments + Contribution(a) == g.treatments;
            assert grouped == grouped[key := Extended(g, a)];
          }
        } else {
          var key := GroupKey(a);
          if key !in grouped {
            order := order + [key];
          }
          grouped := grouped[key := Group(key, a.date, a.time, a.customer, Contribution(a), a.capster)];
        }
      }
      n := n + 1;
    }
    assert rows[..n] == rows;
    FoldInv(rows);
    groups := Values(Board(order, grouped));
  }

  /** `Object.keys(grouped).find(...)`, as the index of the key found. */
  method FindKey(keys: seq<string>, prefix: string) returns (found: int)
    ensures found == FirstMatch(keys, prefix)
  {
    found := -1;
    var j := 0;
    while j < |keys|
      invariant 0 <= j <= |keys|
      invariant forall m :: 0 <= m < j ==> !StartsWith(keys[m], prefix)
    {
      if StartsWith(keys[j], prefix) {
        found := j;
        return;
      }
      j := j + 1;
    }
  }

  /** An incomplete row changes nothing. */
  lemma IncompleteIgnored(rows: seq<Appointment>, a: Appointment)
    requires !Complete(a)
    ensures Fold(rows + [a]) == Fold(rows)
  {
    FoldLast(rows, a);
  }

  /** The number of complete rows. */
  function CompleteCount(rows: seq<Appointment>): (n: nat)
    ensures n <= |rows|
  {
    if rows == [] then 0
    else CompleteCount(rows[..|rows| - 1]) + (if Complete(rows[|rows| - 1]) then 1 else 0)
  }

  /**
   * A complete row creates a group exactly when no existing key starts with
   * its base; otherwise the key list is unchanged. Either way no earlier
   * treatment list is shortened or reordered.
   */
  lemma NewGroupIff(rows: seq<Appointment>, a: Appointment)
    requires Complete(a)
    ensures var before, after := Fold(rows), Fold(rows + [a]);
            && ((forall j :: 0 <= j < |before.order| ==> !StartsWith(before.order[j], BaseKey(a) + "_")) ==>
                  after.order == before.order + [GroupKey(a)] && after.grouped[GroupKey(a)] == Seed(a))
            && ((exists j :: 0 <= j < |before.order| && StartsWith(before.order[j], BaseKey(a) + "_")) ==>
                  after.order == before.order)
            && var i := FirstMatch(before.order, BaseKey(a) + "_");
               (i >= 0 ==>
                  && after.order == before.order
                  && before.order[i] in before.grouped
                  && after.grouped == before.grouped[before.order[i] := Extended(before.grouped[before.order[i]], a)])
  {
    FoldLast(rows, a);
    FoldInv(rows);
    var b := Fold(rows);
    var i := FirstMatch(b.order, BaseKey(a) + "_");
    if i < 0 {
      var k := GroupKey(a);
      assert k !in b.grouped;
    }
  }

  /** Steps only append: keys stay listed in place, and treatment lists only grow at their end. */
  lemma StepAppends(b: Board, a: Appointment)
    requires Inv(b)
    ensures var c := Step(b, a);
            && |b.order| <= |c.order| && c.order[..|b.order|] == b.order
            && forall k :: k in b.grouped ==> k in c.grouped && c.grouped[k].treatments[..|b.grouped[k].treatments|] == b.grouped[k].treatments
  {
    if Complete(a) {
      var i := FirstMatch(b.order, BaseKey(a) + "_");
      if !(i >= 0 && b.order[i] in b.grouped) {
        var k := GroupKey(a);
        assert k !in b.grouped;
      }
    }
  }

  /** There are never more groups than complete rows. */
  lemma {:induction false} GroupCountBound(rows: seq<Appointment>)
    ensures |Grouped(rows)| <= CompleteCount(rows)
  {
    if rows != [] {
      var init, a := rows[..|rows| - 1], rows[|rows| - 1];
      GroupCountBound(init);
      assert rows == init + [a];
      if !Complete(a) {
        IncompleteIgnored(init, a);
      } else {
        FoldInv(init);
        StepAppends(Fold(init), a);
        NewGroupIff(init, a);
      }
    }
  }

  /** After a complete row, some listed key starts with that row's base. */
  lemma {:induction false} BaseCovered(rows: seq<Appointment>, i: nat)
    requires i < |rows| && Complete(rows[i])
    ensures exists j :: 0 <= j < |Fold(rows).order| && StartsWith(Fold(rows).order[j], BaseKey(rows[i]) + "_")
  {
    var init, a := rows[..|rows| - 1], rows[|rows| - 1];
    assert rows == init + [a];
    FoldInv(init);
    StepAppends(Fold(init), a);
    FoldLast(init, a);
    if i < |init| {
      assert init[i] == rows[i];
      BaseCovered(init, i);
      var j :| 0 <= j < |Fold(init).order| && StartsWith(Fold(init).order[j], BaseKey(rows[i]) + "_");
      assert Fold(rows).order[j] == Fold(init).order[j];
    } else {
      var b := Fold(init);
      var m := FirstMatch(b.order, BaseKey(a) + "_");
      if !(m >= 0 && b.order[m] in b.grouped) {
        assert GroupKey(a) in Fold(rows).order;
      }
    }
  }

  /** A complete row whose base an earlier complete row already had never creates a group. */
  lemma SameBaseJoins(rows: seq<Appointment>, i: nat, a: Appointment)
    requires i < |rows| && Complete(rows[i]) && Complete(a) && BaseKey(rows[i]) == BaseKey(a)
    ensures Fold(rows + [a]).order == Fold(rows).order
  {
    BaseCovered(rows, i);
    NewGroupIff(rows, a);
  }

  /**
   * The prefix search in action: capster "X_Y" books a customer at a time,
   * then capster "X" books the same customer at the same time. The second
   * row's base `id_time_X_` is a prefix of the first group's key
   * `id_time_X_Y_id`, so it joins that group instead of creating its own:
   * one group, under the first capster, with both treatments.
   */
  lemma PrefixQuirk(a: Appointment, b: Appointment, suffix: string)
    requires Complete(a) && Complete(b)
    requires a.customer.value.id == b.customer.value.id && a.time == b.time
    requires a.capster.value.name == b.capster.value.name + "_" + suffix
    ensures Fold([a, b]).order == [GroupKey(a)]
    ensures Grouped([a, b]) == [Extended(Seed(a), b)]
  {
    FoldLast([], a);
    assert [a] == [] + [a];
    FoldLast([a], b);
    assert [a, b] == [a] + [b];
    var first := Fold([a]);
    assert first == Board([GroupKey(a)], map[GroupKey(a) := Seed(a)]);
    CapsterExtensionMatches(a, b, suffix);
    assert FirstMatch(first.order, BaseKey(b) + "_") == 0;
  }

  /** The key of a row under capster "X_Y" starts with the base of capster "X" at the same customer and time. */
  lemma CapsterExtensionMatches(a: Appointment, b: Appointment, suffix: string)
    requires Complete(a) && Complete(b)
    requires a.customer.value.id == b.customer.value.id && a.time == b.time
    requires a.capster.value.name == b.capster.value.name + "_" + suffix
    ensures StartsWith(GroupKey(a), BaseKey(b) + "_")
  {
    var p := BaseKey(b) + "_";
    assert GroupKey(a) == p + (suffix + "_" + NatToString(a.id));
    assert (p + (suffix + "_" + NatToString(a.id)))[..|p|] == p;
  }

  /** The treatment names the complete rows contribute, in input order. */
  function Filed(rows: seq<Appointment>): seq<string>
  {
    if rows == [] then []
    else
      var last := rows[|rows| - 1];
      Filed(rows[..|rows| - 1]) + (if Complete(last) then Contribution(last) else [])
  }

  /** The number of treatments listed under the keys `order`. */
  function ListedTotal(order: seq<string>, grouped: map<string, Group>): nat
    requires forall k :: k in order ==> k in grouped
  {
    if order == [] then 0
    else ListedTotal(order[..|order| - 1], grouped) + |grouped[order[|order| - 1]].treatments|
  }

  /** Changing the group of a key that is not listed changes no listed total. */
  lemma {:induction false} ListedTotalOther(order: seq<string>, grouped: map<string, Group>, k: string, g: Group)
    requires forall m :: m in order ==> m in grouped
    requires k !in order
    ensures ListedTotal(order, grouped[k := g]) == ListedTotal(order, grouped)
  {
    if order != [] {
      ListedTotalOther(order[..|order| - 1], grouped, k, g);
    }
  }

  /** Changing the group of a key listed once changes the total by the change in its list's length. */
  lemma {:induction false} ListedTotalUpdate(order: seq<string>, grouped: map<string, Group>, k: string, g: Group)
    requires forall m :: m in order ==> m in grouped
    requires forall i, j :: 0 <= i < j < |order| ==> order[i] != order[j]
    requires k in order
    ensures ListedTotal(order, grouped[k := g]) + |grouped[k].treatments| == ListedTotal(order, grouped) + |g.treatments|
  {
    var init, last := order[..|order| - 1], order[|order| - 1];
    if last == k {
      assert k !in init;
      ListedTotalOther(init, grouped, k, g);
    } else {
      assert k in init by {
        var i :| 0 <= i < |order| && order[i] == k;
        assert init[i] == k;
      }
      ListedTotalUpdate(init, grouped, k, g);
    }
  }

  /** Listing a new key adds its group's list length. */
  lemma ListedTotalAppend(order: seq<string>, grouped: map<string, Group>, k: string, g: Group)
    requires forall m :: m in order ==> m in grouped
    requires k !in order
    ensures ListedTotal(order + [k], grouped[k := g]) == ListedTotal(order, grouped) + |g.treatments|
  {
    assert (order + [k])[..|order|] == order;
    ListedTotalOther(order, grouped, k, g);
  }

  /** No treatment is lost or invented: the groups list exactly as many treatments as the complete rows contribute. */
  lemma {:induction false} FoldTotal(rows: seq<Appointment>)
    ensures Inv(Fold(rows))
    ensures ListedTotal(Fold(rows).order, Fold(rows).grouped) == |Filed(rows)|
  {
    FoldInv(rows);
    if rows != [] {
      var init, a := rows[..|rows| - 1], rows[|rows| - 1];
      FoldTotal(init);
      var b := Fold(init);
      if Complete(a) {
        var i := FirstMatch(b.order, BaseKey(a) + "_");
        if i >= 0 && b.order[i] in b.grouped {
          var k := b.order[i];
          ListedTotalUpdate(b.order, b.grouped, k, Extended(b.grouped[k], a));
        } else {
          assert GroupKey(a) !in b.order;
          ListedTotalAppend(b.order, b.grouped, GroupKey(a), Seed(a));
        }
      }
    }
  }
}
