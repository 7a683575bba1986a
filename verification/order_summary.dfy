/** The recurring-orders dashboard: the status summary cards and the order
    filter. */
module OrderSummary {
  import opened Common

  datatype Order = Order(id: string, customer: string, items: int, status: string, updatedAt: string)

  datatype StatusDefinition = StatusDefinition(id: string, title: string, target: int, description: string)

  datatype SummaryCard = SummaryCard(
    id: string,
    title: string,
    total: int,
    trendLabel: string,
    trendPositive: bool,
    description: string)

  /** The three statuses, in the order `Object.values` lists them. */
  const StatusDefinitions: seq<StatusDefinition> := [
    StatusDefinition("pending", "In attesa", 4, "Ordini che richiedono approvazione prima dell'evasione."),
    StatusDefinition("preparing", "In preparazione", 6, "Ordini per cui sono stati richiesti i materiali al magazzino."),
    StatusDefinition("completed", "Completati", 10, "Ordini pronti per la consegna al cliente.")
  ]

  /** Every status is defined once: the definitions are an object keyed by their ids. */
  predicate DistinctIds(defs: seq<StatusDefinition>) {
    forall i, j :: 0 <= i < j < |defs| ==> defs[i].id != defs[j].id
  }

  lemma StatusDefinitionsDistinct()
    ensures DistinctIds(StatusDefinitions)
  {
  }

  // ---------------------------------------------------------------------
  // Counting by status

  /** The number of orders with the given status. */
  function StatusCount(orders: seq<Order>, status: string): (n: nat)
    ensures n <= |orders|
    decreases |orders|
  {
    if |orders| == 0 then 0
    else StatusCount(orders[..|orders| - 1], status) + (if orders[|orders| - 1].status == status then 1 else 0)
  }

  lemma {:induction false} StatusCountPositive(orders: seq<Order>, status: string)
    ensures StatusCount(orders, status) > 0 <==> exists k :: 0 <= k < |orders| && orders[k].status == status
    decreases |orders|
  {
    if |orders| > 0 {
      var n := |orders| - 1;
      StatusCountPositive(orders[..n], status);
      if exists k :: 0 <= k < n && orders[..n][k].status == status {
        var k :| 0 <= k < n && orders[..n][k].status == status;
        assert orders[k] == orders[..n][k];
      }
      if exists k :: 0 <= k < |orders| && orders[k].status == status {
        var k :| 0 <= k < |orders| && orders[k].status == status;
        if k < n {
          assert orders[..n][k] == orders[k];
        }
      }
    }
  }

  /** The first reduce: a count per status that occurs, and no entry for any other. */
  method Tally(orders: seq<Order>) returns (counts: map<string, nat>)
    ensures forall s :: s in counts <==> StatusCount(orders, s) > 0
    ensures forall s :: s in counts ==> counts[s] == StatusCount(orders, s)
  {
    counts := map[];
    var i := 0;
    while i < |orders|
      invariant 0 <= i <= |orders|
      invariant forall s :: s in counts <==> StatusCount(orders[..i], s) > 0
      invariant forall s :: s in counts ==> counts[s] == StatusCount(orders[..i], s)
    {
      var status := orders[i].status;
      var previous := if status in counts then counts[status] else 0;
      counts := counts[status := previous + 1];
      assert orders[..i + 1][..i] == orders[..i];
      i := i + 1;
    }
    assert orders[..|orders|] == orders;
  }

  // ---------------------------------------------------------------------
  // Cards

  const OnTarget := "In linea con il target"
  const TrendSuffix := " rispetto al target"

  /** The trend text for `total - target`. */
  function TrendLabel(difference: int): (t: string)
    ensures |t| > 0
    ensures t == OnTarget <==> difference == 0
    ensures difference > 0 ==> t[0] == '+'
    ensures difference < 0 ==> t[0] == '-'
    ensures difference != 0 ==> t == (if difference > 0 then "+" else "") + IntToString(difference) + TrendSuffix
  {
    if difference == 0 then OnTarget
    else
      var t := (if difference > 0 then "+" else "") + IntToString(difference) + TrendSuffix;
      assert t[0] != OnTarget[0];
      t
  }

  /** Off target, the label is the signed difference followed by the suffix: reading the
      number in front of the suffix back gives the difference. */
  lemma TrendLabelReadsBack(difference: int)
    requires difference != 0
    ensures var t := TrendLabel(difference);
      |t| > |TrendSuffix| && t[|t| - |TrendSuffix|..] == TrendSuffix &&
      ParseInteger(t[..|t| - |TrendSuffix|]) == Some(difference)
  {
    var t := TrendLabel(difference);
    var number := (if difference > 0 then "+" else "") + IntToString(difference);
    assert t == number + TrendSuffix;
    assert t[..|t| - |TrendSuffix|] == number;
    assert t[|t| - |TrendSuffix|..] == TrendSuffix;
    if difference > 0 {
      PlusIntToStringParses(difference);
    } else {
      IntToStringParses(difference);
      assert number == IntToString(difference);
    }
  }

  /** The card of one definition for a status total. */
  function Card(def: StatusDefinition, total: int): (c: SummaryCard)
    ensures c.id == def.id && c.title == def.title && c.description == def.description && c.total == total
    ensures c.trendPositive <==> total >= def.target
    ensures c.trendLabel == OnTarget <==> total == def.target
  {
    var difference := total - def.target;
    SummaryCard(def.id, def.title, total, TrendLabel(difference), difference >= 0, def.description)
  }

  /** buildSummaryCards: one card per definition, keyed by status, each counting the orders
      with that status (`counts[id] ?? 0`); statuses without a definition get no card. */
  method BuildSummaryCards(orders: seq<Order>, defs: seq<StatusDefinition>) returns (cards: map<string, SummaryCard>)
    requires DistinctIds(defs)
    ensures forall s :: s in cards <==> exists k :: 0 <= k < |defs| && defs[k].id == s
    ensures forall k :: 0 <= k < |defs| ==> defs[k].id in cards && cards[defs[k].id] == Card(defs[k], StatusCount(orders, defs[k].id))
  {
    var counts := Tally(orders);
    cards := map[];
    var i := 0;
    while i < |defs|
      invariant 0 <= i <= |defs|
      invariant forall s :: s in cards <==> exists k :: 0 <= k < i && defs[k].id == s
      invariant forall k :: 0 <= k < i ==> defs[k].id in cards
      invariant forall k :: 0 <= k < i ==> cards[defs[k].id] == Card(defs[k], StatusCount(orders, defs[k].id))
    {
      var total := if defs[i].id in counts then counts[defs[i].id] else 0;
      assert total == StatusCount(orders, defs[i].id);
      cards := cards[defs[i].id := Card(defs[i], total)];
      assert defs[i].id in cards;
      i := i + 1;
    }
  }

  // ---------------------------------------------------------------------
  // filteredOrders

  predicate OrderShown(order: Order, query: string, statusFilter: string) {
    var q := Lower(Trim(query));
    && (q == "" || Contains(Lower(order.id), q) || Contains(Lower(order.customer), q))
    && (statusFilter == "all" || order.status == statusFilter)
  }

  /** The orders matching the query and the status filter, in list order. */
  function FilteredOrders(orders: seq<Order>, query: string, statusFilter: string): (r: seq<Order>)
    ensures forall k :: 0 <= k < |r| ==> r[k] in orders && OrderShown(r[k], query, statusFilter)
    ensures forall k :: 0 <= k < |orders| && OrderShown(orders[k], query, statusFilter) ==> orders[k] in r
    ensures IsSubsequence(r, orders)
  {
    var p := (o: Order) => OrderShown(o, query, statusFilter);
    FilterIsSubsequence(orders, p);
    Filter(orders, p)
  }

  /** A blank query with status 'all' shows every order. */
  lemma NoFilterShowsAll(orders: seq<Order>, query: string)
    requires Trim(query) == ""
    ensures FilteredOrders(orders, query, "all") == orders
  {
    FilterAll(orders, (o: Order) => OrderShown(o, query, "all"));
  }

  /** Filtering on one status leaves every other status's card at zero. */
  lemma {:induction false} StatusFilterZeroesOthers(orders: seq<Order>, query: string, statusFilter: string, other: string)
    requires statusFilter != "all" && other != statusFilter
    ensures StatusCount(FilteredOrders(orders, query, statusFilter), other) == 0
  {
    var r := FilteredOrders(orders, query, statusFilter);
    StatusCountPositive(r, other);
  }
}
