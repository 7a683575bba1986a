/** The catalogue held by the mock database: items and their sales snapshots.
    This module gives the meaning of the store's catalogue operations as
    functions on values: the item/snapshot join with the active policy, the
    case-insensitive code lookup, and the per-row import upsert. */
module Catalog {
  import opened Common
  import opened Domain
  import opened Replenishment

  datatype CatalogState = CatalogState(items: seq<Item>, sales: seq<SalesSnapshot>)

  /** Items are identified by (code, precodice); an absent precodice is its own key value. */
  datatype ItemKey = ItemKey(code: string, precodice: Option<string>)

  function KeyOf(item: Item): ItemKey {
    ItemKey(item.code, item.precodice)
  }

  function RowKey(row: ImportRow): ItemKey {
    ItemKey(row.code, row.precodice)
  }

  predicate UniqueItemIds(items: seq<Item>) {
    forall i, j :: 0 <= i < j < |items| ==> items[i].id != items[j].id
  }

  predicate UniqueKeys(items: seq<Item>) {
    forall i, j :: 0 <= i < j < |items| ==> KeyOf(items[i]) != KeyOf(items[j])
  }

  /** At most one snapshot per item. */
  predicate UniqueSaleItems(sales: seq<SalesSnapshot>) {
    forall i, j :: 0 <= i < j < |sales| ==> sales[i].itemId != sales[j].itemId
  }

  function ItemIds(items: seq<Item>): set<string> {
    set i | 0 <= i < |items| :: items[i].id
  }

  function SaleItemIds(sales: seq<SalesSnapshot>): set<string> {
    set s | 0 <= s < |sales| :: sales[s].itemId
  }

  /** What the import keeps true of the catalogue. */
  predicate Valid(c: CatalogState) {
    && UniqueItemIds(c.items)
    && UniqueKeys(c.items)
    && UniqueSaleItems(c.sales)
    && Purchasable(c.items)
    && SaleItemIds(c.sales) <= ItemIds(c.items)
  }

  // ---------------------------------------------------------------------
  // Lookups

  /** `items.find(i => i.code === code && i.precodice === precodice)`, as an index. */
  function MatchItem(items: seq<Item>, key: ItemKey): (r: Option<nat>)
    ensures r.Some? ==> r.value < |items| && KeyOf(items[r.value]) == key
    ensures r.None? ==> forall j :: 0 <= j < |items| ==> KeyOf(items[j]) != key
  {
    if |items| == 0 then None
    else if KeyOf(items[0]) == key then Some(0)
    else match MatchItem(items[1..], key)
      case None => None
      case Some(k) => Some(k + 1)
  }

  /** `sales.findIndex(s => s.itemId === itemId)`. */
  function SaleIndex(sales: seq<SalesSnapshot>, itemId: string): (r: Option<nat>)
    ensures r.Some? ==> r.value < |sales| && sales[r.value].itemId == itemId
    ensures r.Some? ==> forall j :: 0 <= j < r.value ==> sales[j].itemId != itemId
    ensures r.None? ==> forall j :: 0 <= j < |sales| ==> sales[j].itemId != itemId
  {
    if |sales| == 0 then None
    else if sales[0].itemId == itemId then Some(0)
    else match SaleIndex(sales[1..], itemId)
      case None => None
      case Some(k) => Some(k + 1)
  }

  /** `sales.find(s => s.itemId === itemId)`. */
  function SaleFor(sales: seq<SalesSnapshot>, itemId: string): Option<SalesSnapshot> {
    match SaleIndex(sales, itemId)
    case None => None
    case Some(k) => Some(sales[k])
  }

  /** The first snapshot carrying an item id is the one `find` returns. */
  lemma SaleIndexFirst(sales: seq<SalesSnapshot>, id: string, k: nat)
    requires k < |sales| && sales[k].itemId == id
    requires forall j :: 0 <= j < k ==> sales[j].itemId != id
    ensures SaleIndex(sales, id) == Some(k)
  {
    assert SaleIndex(sales, id).Some?;
  }

  /** With one snapshot per item, every snapshot is the one found for its item. */
  lemma SaleForUnique(sales: seq<SalesSnapshot>, s: nat)
    requires UniqueSaleItems(sales) && s < |sales|
    ensures SaleFor(sales, sales[s].itemId) == Some(sales[s])
  {
    SaleIndexFirst(sales, sales[s].itemId, s);
  }

  // ---------------------------------------------------------------------
  // The join

  /** Items whose `order_multiple` the engine can divide by. */
  predicate Purchasable(items: seq<Item>) {
    forall i :: 0 <= i < |items| ==> items[i].orderMultiple >= 1
  }

  /** Each item that has a snapshot, paired with the snapshot `find` returns for it, in item order. */
  function Paired(items: seq<Item>, sales: seq<SalesSnapshot>): (r: seq<(Item, SalesSnapshot)>)
    ensures |r| <= |items|
    ensures forall k :: 0 <= k < |r| ==> r[k].0 in items && SaleFor(sales, r[k].0.id) == Some(r[k].1)
  {
    if |items| == 0 then []
    else
      var rest := Paired(items[1..], sales);
      assert forall k :: 0 <= k < |rest| ==> rest[k].0 in items;
      match SaleFor(sales, items[0].id)
      case None => rest
      case Some(sale) => [(items[0], sale)] + rest
  }

  /** getFullItemData's body: each item with a snapshot, in item order, joined and calculated. */
  function FullData(items: seq<Item>, sales: seq<SalesSnapshot>, policy: PolicyParams, today: int): (r: seq<FullItemData>)
    requires Purchasable(items)
    ensures |r| == |Paired(items, sales)|
  {
    var p := Paired(items, sales);
    seq(|p|, k requires 0 <= k < |p| => FullItemData(p[k].0, p[k].1, Calculate(p[k].0, p[k].1, policy, today)))
  }

  /** Every joined record pairs a catalogue item with the snapshot `find` returns
      for it and the engine's calculation for the pair. */
  lemma FullDataSound(items: seq<Item>, sales: seq<SalesSnapshot>, policy: PolicyParams, today: int)
    requires Purchasable(items)
    ensures var r := FullData(items, sales, policy, today);
      forall k :: 0 <= k < |r| ==>
        && r[k].item in items
        && SaleFor(sales, r[k].item.id) == Some(r[k].sale)
        && r[k].calculation == Calculate(r[k].item, r[k].sale, policy, today)
  {
  }

  /** Every item that has a snapshot is paired. */
  lemma PairedComplete(items: seq<Item>, sales: seq<SalesSnapshot>, i: nat)
    requires i < |items| && SaleFor(sales, items[i].id).Some?
    ensures exists k :: 0 <= k < |Paired(items, sales)| && Paired(items, sales)[k].0 == items[i]
  {
    var k := PairedIndex(items, sales, i);
  }

  /** Where an item with a snapshot sits among the pairs. */
  lemma {:induction false} PairedIndex(items: seq<Item>, sales: seq<SalesSnapshot>, i: nat) returns (k: nat)
    requires i < |items| && SaleFor(sales, items[i].id).Some?
    ensures k < |Paired(items, sales)| && Paired(items, sales)[k].0 == items[i]
  {
    PairedCons(items, sales);
    if i == 0 {
      k := 0;
    } else {
      assert items[1..][i - 1] == items[i];
      var k' := PairedIndex(items[1..], sales, i - 1);
      k := if SaleFor(sales, items[0].id).Some? then k' + 1 else k';
    }
  }

  /** One step of the pairing: the first item, if it has a snapshot, then the rest. */
  lemma PairedCons(items: seq<Item>, sales: seq<SalesSnapshot>)
    requires |items| > 0
    ensures Paired(items, sales) ==
      (if SaleFor(sales, items[0].id).Some? then [(items[0], SaleFor(sales, items[0].id).value)] else []) + Paired(items[1..], sales)
  {
  }

  /** Every item that has a snapshot appears in the join. */
  lemma FullDataComplete(items: seq<Item>, sales: seq<SalesSnapshot>, policy: PolicyParams, today: int, i: nat)
    requires Purchasable(items) && i < |items| && SaleFor(sales, items[i].id).Some?
    ensures exists k :: 0 <= k < |FullData(items, sales, policy, today)| && FullData(items, sales, policy, today)[k].item == items[i]
  {
    PairedComplete(items, sales, i);
    var k :| 0 <= k < |Paired(items, sales)| && Paired(items, sales)[k].0 == items[i];
    assert FullData(items, sales, policy, today)[k].item == items[i];
  }

  /** Pairing keeps item order: it distributes over concatenation of item lists. */
  lemma {:induction false} PairedAppend(a: seq<Item>, b: seq<Item>, sales: seq<SalesSnapshot>)
    ensures Paired(a + b, sales) == Paired(a, sales) + Paired(b, sales)
  {
    if |a| > 0 {
      assert (a + b)[1..] == a[1..] + b;
      PairedAppend(a[1..], b, sales);
    } else {
      assert a + b == b;
    }
  }

  /** The join keeps item order: it distributes over concatenation of item lists. */
  lemma FullDataAppend(a: seq<Item>, b: seq<Item>, sales: seq<SalesSnapshot>, policy: PolicyParams, today: int)
    requires Purchasable(a) && Purchasable(b)
    ensures Purchasable(a + b)
    ensures FullData(a + b, sales, policy, today) == FullData(a, sales, policy, today) + FullData(b, sales, policy, today)
  {
    assert forall i :: 0 <= i < |a + b| ==> (a + b)[i] == if i < |a| then a[i] else b[i - |a|];
    PairedAppend(a, b, sales);
    var pa, pb := Paired(a, sales), Paired(b, sales);
    var l := FullData(a + b, sales, policy, today);
    var ra := FullData(a, sales, policy, today);
    var rb := FullData(b, sales, policy, today);
    forall k | 0 <= k < |l| ensures l[k] == (ra + rb)[k] {
      if k < |pa| {
        assert Paired(a + b, sales)[k] == pa[k];
        assert (ra + rb)[k] == ra[k];
      } else {
        assert Paired(a + b, sales)[k] == pb[k - |pa|];
        assert (ra + rb)[k] == rb[k - |pa|];
      }
    }
    assert |l| == |ra + rb|;
  }

  /** An item without a snapshot does not appear in the join. */
  lemma FullDataDropsUnsold(items: seq<Item>, sales: seq<SalesSnapshot>, policy: PolicyParams, today: int, item: Item)
    requires Purchasable(items) && SaleFor(sales, item.id).None?
    ensures forall k :: 0 <= k < |FullData(items, sales, policy, today)| ==> FullData(items, sales, policy, today)[k].item != item
  {
    FullDataSound(items, sales, policy, today);
  }

  // ---------------------------------------------------------------------
  // Code lookup

  /** `[...new Set(codes.map(c => c.trim().toLowerCase()))]`, as a set. */
  function QueryCodes(codes: seq<string>): set<string> {
    set c | c in codes :: Lower(Trim(c))
  }

  predicate CodeRequested(item: Item, query: set<string>) {
    Lower(item.code) in query
  }

  /** The items whose lower-cased code is among the requested ones, in catalogue order. */
  function RequestedItems(items: seq<Item>, codes: seq<string>): (r: seq<Item>)
    requires Purchasable(items)
    ensures Purchasable(r)
    ensures UniqueItemIds(items) ==> UniqueItemIds(r)
  {
    var query := QueryCodes(codes);
    var p := (it: Item) => CodeRequested(it, query);
    FilterKeepsUniqueIds(items, p);
    Filter(items, p)
  }

  /** Filtering keeps item ids distinct. */
  lemma {:induction false} FilterKeepsUniqueIds(items: seq<Item>, p: Item -> bool)
    ensures UniqueItemIds(items) ==> UniqueItemIds(Filter(items, p))
  {
    if |items| > 0 && UniqueItemIds(items) {
      FilterKeepsUniqueIds(items[1..], p);
      var rest := Filter(items[1..], p);
      forall k | 0 <= k < |rest| ensures rest[k].id != items[0].id {
        var j :| 0 <= j < |items[1..]| && items[1..][j] == rest[k];
        assert items[j + 1] == rest[k];
      }
      assert Filter(items, p) == (if p(items[0]) then [items[0]] else []) + rest;
    }
  }

  predicate UniquePairIds(r: seq<(Item, SalesSnapshot)>) {
    forall i, j :: 0 <= i < j < |r| ==> r[i].0.id != r[j].0.id
  }

  /** Pairing keeps item ids distinct: with distinct ids no item is joined twice. */
  lemma {:induction false} PairedUniqueIds(items: seq<Item>, sales: seq<SalesSnapshot>)
    ensures UniqueItemIds(items) ==> UniquePairIds(Paired(items, sales))
  {
    if |items| > 0 && UniqueItemIds(items) {
      TailUniqueIds(items);
      PairedUniqueIds(items[1..], sales);
      PairedTailIds(items, sales);
      PairedCons(items, sales);
      if SaleFor(sales, items[0].id).Some? {
        ConsUniquePairIds((items[0], SaleFor(sales, items[0].id).value), Paired(items[1..], sales));
      }
    }
  }

  lemma TailUniqueIds(items: seq<Item>)
    requires |items| > 0 && UniqueItemIds(items)
    ensures UniqueItemIds(items[1..])
  {
    forall i, j | 0 <= i < j < |items[1..]| ensures items[1..][i].id != items[1..][j].id {
      assert items[1..][i] == items[i + 1] && items[1..][j] == items[j + 1];
    }
  }

  /** No pair of the rest carries the first item's id. */
  lemma PairedTailIds(items: seq<Item>, sales: seq<SalesSnapshot>)
    requires |items| > 0 && UniqueItemIds(items)
    ensures forall k :: 0 <= k < |Paired(items[1..], sales)| ==> Paired(items[1..], sales)[k].0.id != items[0].id
  {
    var rest := Paired(items[1..], sales);
    forall k | 0 <= k < |rest| ensures rest[k].0.id != items[0].id {
      var j :| 0 <= j < |items[1..]| && items[1..][j] == rest[k].0;
      assert items[j + 1] == rest[k].0;
    }
  }

  lemma ConsUniquePairIds(h: (Item, SalesSnapshot), rest: seq<(Item, SalesSnapshot)>)
    requires UniquePairIds(rest) && forall k :: 0 <= k < |rest| ==> rest[k].0.id != h.0.id
    ensures UniquePairIds([h] + rest)
  {
    var r := [h] + rest;
    forall i, j | 0 <= i < j < |r| ensures r[i].0.id != r[j].0.id {
      assert r[j] == rest[j - 1];
      if i > 0 {
        assert r[i] == rest[i - 1];
      }
    }
  }

  /** apiAnalyzeCodes's body: the requested items, filtered before the join. No more rows
      than catalogue items, and with distinct item ids (which the store keeps) no item
      is reported twice. */
  function Analyze(items: seq<Item>, sales: seq<SalesSnapshot>, policy: PolicyParams, today: int, codes: seq<string>): (r: seq<FullItemData>)
    requires Purchasable(items)
    ensures |r| <= |items|
    ensures UniqueItemIds(items) ==> forall i, j :: 0 <= i < j < |r| ==> r[i].item.id != r[j].item.id
  {
    var found := RequestedItems(items, codes);
    FullDataUniqueIds(found, sales, policy, today);
    FullData(found, sales, policy, today)
  }

  /** With distinct item ids, no item appears twice in the join. */
  lemma FullDataUniqueIds(items: seq<Item>, sales: seq<SalesSnapshot>, policy: PolicyParams, today: int)
    requires Purchasable(items)
    ensures UniqueItemIds(items) ==>
      var r := FullData(items, sales, policy, today);
      forall i, j :: 0 <= i < j < |r| ==> r[i].item.id != r[j].item.id
  {
    if UniqueItemIds(items) {
      PairedUniqueIds(items, sales);
      var p := Paired(items, sales);
      var r := FullData(items, sales, policy, today);
      forall i, j | 0 <= i < j < |r| ensures r[i].item.id != r[j].item.id {
        assert r[i].item == p[i].0 && r[j].item == p[j].0;
        assert UniquePairIds(p);
      }
    }
  }

  /** Only requested catalogue items with a snapshot are reported. */
  lemma AnalyzeSound(items: seq<Item>, sales: seq<SalesSnapshot>, policy: PolicyParams, today: int, codes: seq<string>)
    requires Purchasable(items)
    ensures var r := Analyze(items, sales, policy, today, codes);
      forall k :: 0 <= k < |r| ==>
        && CodeRequested(r[k].item, QueryCodes(codes))
        && r[k].item in items
        && SaleFor(sales, r[k].item.id) == Some(r[k].sale)
  {
    var query := QueryCodes(codes);
    var found := RequestedItems(items, codes);
    var r := Analyze(items, sales, policy, today, codes);
    FullDataSound(found, sales, policy, today);
    forall k | 0 <= k < |r|
      ensures CodeRequested(r[k].item, query) && r[k].item in items
    {
      var j :| 0 <= j < |found| && found[j] == r[k].item;
      assert found[j] in items && ((it: Item) => CodeRequested(it, query))(found[j]);
    }
  }

  /** A requested item with a snapshot is reported, whatever the case and the
      surrounding blanks of the code the user typed. */
  lemma AnalyzeFinds(items: seq<Item>, sales: seq<SalesSnapshot>, policy: PolicyParams, today: int, codes: seq<string>, i: nat, typed: string)
    requires Purchasable(items) && i < |items| && SaleFor(sales, items[i].id).Some?
    requires typed in codes && Lower(Trim(typed)) == Lower(items[i].code)
    ensures exists k :: 0 <= k < |Analyze(items, sales, policy, today, codes)| && Analyze(items, sales, policy, today, codes)[k].item == items[i]
  {
    var query := QueryCodes(codes);
    assert CodeRequested(items[i], query);
    var found := RequestedItems(items, codes);
    var j := RequestedIndex(items, query, i);
    FullDataComplete(found, sales, policy, today, j);
    var r := FullData(found, sales, policy, today);
    assert Analyze(items, sales, policy, today, codes) == r;
    var k :| 0 <= k < |r| && r[k].item == found[j];
    assert r[k].item == items[i];
  }

  /** Where a requested item sits among the requested items. */
  lemma RequestedIndex(items: seq<Item>, query: set<string>, i: nat) returns (j: nat)
    requires i < |items| && CodeRequested(items[i], query)
    ensures var found := Filter(items, (it: Item) => CodeRequested(it, query));
      j < |found| && found[j] == items[i]
  {
    var p := (it: Item) => CodeRequested(it, query);
    assert p(items[i]);
    var found := Filter(items, p);
    assert items[i] in found;
    j :| 0 <= j < |found| && found[j] == items[i];
  }

  // ---------------------------------------------------------------------
  // Import

  /** `a || b` on optional strings: an absent or empty value takes the default. */
  function OrDefault(s: Option<string>, default: string): (r: string)
    ensures s.Some? && s.value != "" ==> r == s.value
    ensures s.None? || s.value == "" ==> r == default
  {
    match s
    case Some(v) => if v != "" then v else default
    case None => default
  }

  /** `a ?? b`: only an absent value takes the fallback. */
  function Coalesce<T>(a: Option<T>, b: Option<T>): (r: Option<T>)
    ensures a.Some? ==> r == a
    ensures a.None? ==> r == b
  {
    if a.Some? then a else b
  }

  const UnknownSupplier := "Sconosciuto"

  /** The item created for a row whose key is not yet in the catalogue. */
  function NewItem(row: ImportRow, id: string, now: string): Item {
    Item(
      id := id,
      code := row.code,
      precodice := row.precodice,
      description := Some(OrDefault(row.description, "Nuovo Articolo " + row.code)),
      supplier := Some(UnknownSupplier),
      leadTimeDays := Some(2),
      minOrderQty := 1,
      orderMultiple := 1,
      currentStock := 0,
      reservedQty := 0,
      reorderBlocked := false,
      ubicazione := Some(OrDefault(row.ubicazione, "N/D")),
      createdAt := now,
      updatedAt := now)
  }

  /** An existing item after a row with its key: only the descriptive fields and the timestamp move. */
  function UpdatedItem(item: Item, row: ImportRow, now: string): Item {
    item.(
      precodice := Coalesce(row.precodice, item.precodice),
      ubicazione := Coalesce(row.ubicazione, item.ubicazione),
      description := Coalesce(row.description, item.description),
      updatedAt := now)
  }

  /** The data-quality warnings attached to a row's snapshot. */
  function Warnings(row: ImportRow): (w: seq<string>)
    ensures |w| > 0 <==> row.qtySold365 < 0 || row.valueSold365 < 0
  {
    (if row.qtySold365 < 0
     then ["'QUANTITA VENDUTA' importata con valore negativo: " + IntToString(row.qtySold365)] else [])
    + (if row.valueSold365 < 0
       then ["'VALORE VENDUTO' importato con valore negativo: " + IntToString(row.valueSold365)] else [])
  }

  function Snapshot(row: ImportRow, itemId: string, sourceFileId: string, asOfDate: string): SalesSnapshot {
    var w := Warnings(row);
    SalesSnapshot(
      id := "sale-" + itemId,
      itemId := itemId,
      qtySold365 := row.qtySold365,
      valueSold365 := row.valueSold365,
      lastSaleDate := row.lastSaleDate,
      lastPurchaseDate := row.lastPurchaseDate,
      sourceFileId := sourceFileId,
      asOfDate := asOfDate,
      importWarnings := if |w| > 0 then Some(w) else None)
  }

  /** The item a row lands on (updated or created). */
  function TargetItem(items: seq<Item>, row: ImportRow, newId: string, now: string): Item {
    match MatchItem(items, RowKey(row))
    case None => NewItem(row, newId, now)
    case Some(k) => UpdatedItem(items[k], row, now)
  }

  /** The item list after a row: the matched item replaced in place, or the new one appended. */
  function UpsertItem(items: seq<Item>, row: ImportRow, newId: string, now: string): seq<Item> {
    var item := TargetItem(items, row, newId, now);
    match MatchItem(items, RowKey(row))
    case None => items + [item]
    case Some(k) => items[k := item]
  }

  /** The snapshot list after a row: the item's snapshot replaced in place, or appended. */
  function UpsertSale(sales: seq<SalesSnapshot>, snap: SalesSnapshot): seq<SalesSnapshot> {
    match SaleIndex(sales, snap.itemId)
    case None => sales + [snap]
    case Some(s) => sales[s := snap]
  }

  /** One row of apiImportData: upsert the item, then replace or add its snapshot. */
  function ImportStep(c: CatalogState, row: ImportRow, newId: string, now: string, sourceFileId: string, asOfDate: string): CatalogState {
    var item := TargetItem(c.items, row, newId, now);
    CatalogState(UpsertItem(c.items, row, newId, now), UpsertSale(c.sales, Snapshot(row, item.id, sourceFileId, asOfDate)))
  }

  /** apiImportData: the rows applied in order; `ids[j]` is the identifier a new item of row j gets. */
  function ImportRows(c: CatalogState, rows: seq<ImportRow>, ids: seq<string>, now: string, sourceFileId: string, asOfDate: string): CatalogState
    requires |ids| == |rows|
    decreases |rows|
  {
    if |rows| == 0 then c
    else
      var n := |rows| - 1;
      ImportStep(ImportRows(c, rows[..n], ids[..n], now, sourceFileId, asOfDate), rows[n], ids[n], now, sourceFileId, asOfDate)
  }

  /** Importing one more row of the same file is one more step. */
  lemma ImportRowsSnoc(c: CatalogState, rows: seq<ImportRow>, ids: seq<string>, now: string, sourceFileId: string, asOfDate: string, i: nat)
    requires |ids| == |rows| && i < |rows|
    ensures ImportRows(c, rows[..i + 1], ids[..i + 1], now, sourceFileId, asOfDate)
      == ImportStep(ImportRows(c, rows[..i], ids[..i], now, sourceFileId, asOfDate), rows[i], ids[i], now, sourceFileId, asOfDate)
  {
    assert rows[..i + 1][..i] == rows[..i] && ids[..i + 1][..i] == ids[..i];
  }

  /** Identifiers for new items that no existing item carries and that are pairwise distinct. */
  predicate FreshIds(items: seq<Item>, ids: seq<string>) {
    && (forall j :: 0 <= j < |ids| ==> ids[j] !in ItemIds(items))
    && (forall j, j' :: 0 <= j < j' < |ids| ==> ids[j] != ids[j'])
  }

  // ---------------------------------------------------------------------
  // Properties of one import step

  /** A row whose key matches an existing item changes only that item's precodice,
      ubicazione, description and updatedAt; never its purchasing or stock fields. */
  lemma ImportMatchedItem(items: seq<Item>, row: ImportRow, newId: string, now: string, k: nat)
    requires k < |items| && MatchItem(items, RowKey(row)) == Some(k)
    ensures var r := UpsertItem(items, row, newId, now);
      && |r| == |items|
      && (forall j :: 0 <= j < |items| && j != k ==> r[j] == items[j])
      && r[k] == items[k].(precodice := r[k].precodice, ubicazione := r[k].ubicazione,
                           description := r[k].description, updatedAt := now)
      && KeyOf(r[k]) == KeyOf(items[k])
  {
  }

  /** A row with a new key appends an item with the purchasing defaults. */
  lemma ImportNewItem(items: seq<Item>, row: ImportRow, newId: string, now: string)
    requires MatchItem(items, RowKey(row)).None?
    ensures var r := UpsertItem(items, row, newId, now);
      var it := r[|items|];
      && |r| == |items| + 1 && r[..|items|] == items
      && it.id == newId && KeyOf(it) == RowKey(row)
      && it.leadTimeDays == Some(2) && it.minOrderQty == 1 && it.orderMultiple == 1
      && it.currentStock == 0 && it.reservedQty == 0 && !it.reorderBlocked
      && it.supplier == Some("Sconosciuto")
  {
  }

  /** Warnings are attached exactly when the row carries a negative figure. */
  lemma SnapshotWarnings(row: ImportRow, itemId: string, fid: string, asOf: string)
    ensures Snapshot(row, itemId, fid, asOf).importWarnings.Some? <==> row.qtySold365 < 0 || row.valueSold365 < 0
  {
  }

  /** Appending an item with a fresh id and a fresh key keeps ids and keys unique. */
  lemma AppendItemFacts(items: seq<Item>, item: Item)
    requires UniqueItemIds(items) && UniqueKeys(items) && Purchasable(items) && item.orderMultiple >= 1
    requires item.id !in ItemIds(items)
    requires forall j :: 0 <= j < |items| ==> KeyOf(items[j]) != KeyOf(item)
    ensures var r := items + [item];
      UniqueItemIds(r) && UniqueKeys(r) && Purchasable(r) && ItemIds(r) == ItemIds(items) + {item.id}
  {
    var r := items + [item];
    forall i, j | 0 <= i < j < |r| ensures r[i].id != r[j].id && KeyOf(r[i]) != KeyOf(r[j]) {
      assert r[i] == items[i];
      if j < |items| {
        assert r[j] == items[j];
      } else {
        assert r[j] == item;
        assert items[i].id in ItemIds(items);
      }
    }
    forall id | id in ItemIds(r) ensures id in ItemIds(items) + {item.id} {
      var i :| 0 <= i < |r| && r[i].id == id;
      if i < |items| { assert items[i].id == id; }
    }
    forall id | id in ItemIds(items) ensures id in ItemIds(r) {
      var i :| 0 <= i < |items| && items[i].id == id;
      assert r[i].id == id;
    }
    assert r[|items|].id == item.id;
  }

  /** Replacing an item by one with the same id and key keeps ids and keys unique. */
  lemma ReplaceItemFacts(items: seq<Item>, k: nat, item: Item)
    requires UniqueItemIds(items) && UniqueKeys(items) && Purchasable(items) && item.orderMultiple >= 1
    requires k < |items| && item.id == items[k].id && KeyOf(item) == KeyOf(items[k])
    ensures var r := items[k := item];
      UniqueItemIds(r) && UniqueKeys(r) && Purchasable(r) && ItemIds(r) == ItemIds(items)
  {
    var r := items[k := item];
    forall id | id in ItemIds(r) ensures id in ItemIds(items) {
      var i :| 0 <= i < |r| && r[i].id == id;
      assert items[i].id == id;
    }
    forall id | id in ItemIds(items) ensures id in ItemIds(r) {
      var i :| 0 <= i < |items| && items[i].id == id;
      assert r[i].id == id;
    }
  }

  /** What a row does to the item list, case by case. */
  lemma UpsertItemShape(items: seq<Item>, row: ImportRow, newId: string, now: string)
    requires Purchasable(items)
    ensures var item := TargetItem(items, row, newId, now);
      && KeyOf(item) == RowKey(row) && item.orderMultiple >= 1
      && (MatchItem(items, RowKey(row)).None? ==>
            item.id == newId && UpsertItem(items, row, newId, now) == items + [item])
      && (MatchItem(items, RowKey(row)).Some? ==>
            var k := MatchItem(items, RowKey(row)).value;
            item.id == items[k].id && UpsertItem(items, row, newId, now) == items[k := item])
  {
  }

  /** The item list after a row keeps ids and keys unique, contains the row's item,
      and touches no item with another key. */
  lemma UpsertItemFacts(items: seq<Item>, row: ImportRow, newId: string, now: string)
    requires UniqueItemIds(items) && UniqueKeys(items) && Purchasable(items) && newId !in ItemIds(items)
    ensures var r := UpsertItem(items, row, newId, now);
      var item := TargetItem(items, row, newId, now);
      && UniqueItemIds(r) && UniqueKeys(r) && Purchasable(r)
      && KeyOf(item) == RowKey(row)
      && |r| >= |items|
      && item in r
      && ItemIds(r) == ItemIds(items) + {item.id}
      && (forall j :: 0 <= j < |items| && KeyOf(items[j]) != RowKey(row) ==> r[j] == items[j])
  {
    var item := TargetItem(items, row, newId, now);
    UpsertItemShape(items, row, newId, now);
    if MatchItem(items, RowKey(row)).None? {
      AppendItemFacts(items, item);
      assert (items + [item])[|items|] == item;
    } else {
      var k := MatchItem(items, RowKey(row)).value;
      ReplaceItemFacts(items, k, item);
      assert items[k := item][k] == item;
    }
  }

  /** The row's item keeps an id the catalogue already had, or takes the fresh one. */
  lemma TargetItemId(items: seq<Item>, row: ImportRow, newId: string, now: string)
    requires Purchasable(items)
    ensures var item := TargetItem(items, row, newId, now);
      (MatchItem(items, RowKey(row)).None? ==> item.id == newId)
      && (MatchItem(items, RowKey(row)).Some? ==> item.id in ItemIds(items))
  {
    UpsertItemShape(items, row, newId, now);
    if MatchItem(items, RowKey(row)).Some? {
      var k := MatchItem(items, RowKey(row)).value;
      assert items[k].id in ItemIds(items);
    }
  }

  /** The snapshot list after a row: the row's item now finds the new snapshot,
      every other item finds what it found before. */
  lemma UpsertSaleFacts(sales: seq<SalesSnapshot>, snap: SalesSnapshot)
    requires UniqueSaleItems(sales)
    ensures var r := UpsertSale(sales, snap);
      && UniqueSaleItems(r)
      && SaleItemIds(r) == SaleItemIds(sales) + {snap.itemId}
      && SaleFor(r, snap.itemId) == Some(snap)
      && (forall id :: id != snap.itemId ==> SaleFor(r, id) == SaleFor(sales, id))
  {
    var r := UpsertSale(sales, snap);
    match SaleIndex(sales, snap.itemId) {
      case None =>
        assert r == sales + [snap];
        SaleIndexFirst(r, snap.itemId, |sales|);
        forall id | id != snap.itemId ensures SaleFor(r, id) == SaleFor(sales, id) {
          if SaleIndex(sales, id).Some? {
            SaleIndexFirst(r, id, SaleIndex(sales, id).value);
          }
        }
        forall id | id in SaleItemIds(r) ensures id in SaleItemIds(sales) + {snap.itemId} {
          var i :| 0 <= i < |r| && r[i].itemId == id;
          if i < |sales| { assert sales[i].itemId == id; }
        }
        forall id | id in SaleItemIds(sales) ensures id in SaleItemIds(r) {
          var i :| 0 <= i < |sales| && sales[i].itemId == id;
          assert r[i].itemId == id;
        }
      case Some(s) =>
        assert r == sales[s := snap];
        SaleIndexFirst(r, snap.itemId, s);
        forall id | id != snap.itemId ensures SaleFor(r, id) == SaleFor(sales, id) {
          if SaleIndex(sales, id).Some? {
            SaleIndexFirst(r, id, SaleIndex(sales, id).value);
          }
        }
        forall id | id in SaleItemIds(r) ensures id in SaleItemIds(sales) {
          var i :| 0 <= i < |r| && r[i].itemId == id;
          assert sales[i].itemId == id;
        }
        forall id | id in SaleItemIds(sales) ensures id in SaleItemIds(r) {
          var i :| 0 <= i < |sales| && sales[i].itemId == id;
          assert r[i].itemId == id;
        }
    }
  }

  /** One step keeps the catalogue valid, makes the row's item carry the row's snapshot,
      and leaves every other item's snapshot as it was. */
  lemma ImportStepFacts(c: CatalogState, row: ImportRow, newId: string, now: string, fid: string, asOf: string)
    requires Valid(c) && newId !in ItemIds(c.items)
    ensures var c' := ImportStep(c, row, newId, now, fid, asOf);
      var item := TargetItem(c.items, row, newId, now);
      && Valid(c')
      && KeyOf(item) == RowKey(row)
      && |c'.items| >= |c.items|
      && item in c'.items
      && SaleFor(c'.sales, item.id) == Some(Snapshot(row, item.id, fid, asOf))
      && (forall id :: id != item.id ==> SaleFor(c'.sales, id) == SaleFor(c.sales, id))
      && ItemIds(c'.items) == ItemIds(c.items) + {item.id}
      && (forall j :: 0 <= j < |c.items| && KeyOf(c.items[j]) != RowKey(row) ==> c'.items[j] == c.items[j])
  {
    var item := TargetItem(c.items, row, newId, now);
    UpsertItemFacts(c.items, row, newId, now);
    UpsertSaleFacts(c.sales, Snapshot(row, item.id, fid, asOf));
  }

  // ---------------------------------------------------------------------
  // Properties of a whole import

  function IdSet(ids: seq<string>): set<string> {
    set j | 0 <= j < |ids| :: ids[j]
  }

  lemma IdSetSnoc(ids: seq<string>)
    requires |ids| > 0
    ensures IdSet(ids) == IdSet(ids[..|ids| - 1]) + {ids[|ids| - 1]}
  {
    var n := |ids| - 1;
    forall x | x in IdSet(ids) ensures x in IdSet(ids[..n]) + {ids[n]} {
      var j :| 0 <= j < |ids| && ids[j] == x;
      if j < n { assert ids[..n][j] == x; }
    }
    forall x | x in IdSet(ids[..n]) ensures x in IdSet(ids) {
      var j :| 0 <= j < n && ids[..n][j] == x;
      assert ids[j] == x;
    }
  }

  /** The import keeps the catalogue valid and only introduces the given identifiers. */
  lemma {:induction false} ImportRowsValid(c: CatalogState, rows: seq<ImportRow>, ids: seq<string>, now: string, fid: string, asOf: string)
    requires Valid(c) && |ids| == |rows| && FreshIds(c.items, ids)
    ensures Valid(ImportRows(c, rows, ids, now, fid, asOf))
    ensures ItemIds(ImportRows(c, rows, ids, now, fid, asOf).items) <= ItemIds(c.items) + IdSet(ids)
    decreases |rows|, 2
  {
    if |rows| > 0 {
      var n := |rows| - 1;
      var prev := LastStep(c, rows, ids, now, fid, asOf);
      ImportStepFacts(prev, rows[n], ids[n], now, fid, asOf);
      TargetItemId(prev.items, rows[n], ids[n], now);
      IdSetSnoc(ids);
      var item := TargetItem(prev.items, rows[n], ids[n], now);
      var after := ImportRows(c, rows, ids, now, fid, asOf).items;
      assert ItemIds(after) == ItemIds(prev.items) + {item.id};
      assert item.id in ItemIds(prev.items) + {ids[n]};
      assert ItemIds(prev.items) + {ids[n]} <= ItemIds(c.items) + IdSet(ids);
    }
  }

  /** The state before the last row of a non-empty import: valid, and the last
      row's identifier is still fresh there. */
  lemma {:induction false} LastStep(c: CatalogState, rows: seq<ImportRow>, ids: seq<string>, now: string, fid: string, asOf: string)
    returns (prev: CatalogState)
    requires Valid(c) && |ids| == |rows| && FreshIds(c.items, ids) && |rows| > 0
    decreases |rows|, 1
    ensures prev == ImportRows(c, rows[..|rows| - 1], ids[..|rows| - 1], now, fid, asOf)
    ensures Valid(prev) && ids[|rows| - 1] !in ItemIds(prev.items)
    ensures ItemIds(prev.items) <= ItemIds(c.items) + IdSet(ids[..|rows| - 1])
    ensures ImportRows(c, rows, ids, now, fid, asOf) == ImportStep(prev, rows[|rows| - 1], ids[|rows| - 1], now, fid, asOf)
  {
    var n := |rows| - 1;
    assert FreshIds(c.items, ids[..n]);
    ImportRowsValid(c, rows[..n], ids[..n], now, fid, asOf);
    prev := ImportRows(c, rows[..n], ids[..n], now, fid, asOf);
    assert ids[n] !in IdSet(ids[..n]);
  }

  /** Some item with the row's key carries the snapshot built from that row. */
  predicate HoldsSnapshotOf(c: CatalogState, row: ImportRow, fid: string, asOf: string) {
    exists i :: 0 <= i < |c.items| && KeyOf(c.items[i]) == RowKey(row)
      && SaleFor(c.sales, c.items[i].id) == Some(Snapshot(row, c.items[i].id, fid, asOf))
  }

  /** After a row is imported, its item carries the row's snapshot. */
  lemma StepInstallsSnapshot(c: CatalogState, row: ImportRow, newId: string, now: string, fid: string, asOf: string)
    requires Valid(c) && newId !in ItemIds(c.items)
    ensures HoldsSnapshotOf(ImportStep(c, row, newId, now, fid, asOf), row, fid, asOf)
  {
    ImportStepFacts(c, row, newId, now, fid, asOf);
    var c' := ImportStep(c, row, newId, now, fid, asOf);
    var item := TargetItem(c.items, row, newId, now);
    var i :| 0 <= i < |c'.items| && c'.items[i] == item;
  }

  /** A row with another key leaves an installed snapshot in place. */
  lemma StepKeepsSnapshot(c: CatalogState, row: ImportRow, newId: string, now: string, fid: string, asOf: string, earlier: ImportRow)
    requires Valid(c) && newId !in ItemIds(c.items) && RowKey(row) != RowKey(earlier)
    requires HoldsSnapshotOf(c, earlier, fid, asOf)
    ensures HoldsSnapshotOf(ImportStep(c, row, newId, now, fid, asOf), earlier, fid, asOf)
  {
    ImportStepFacts(c, row, newId, now, fid, asOf);
    var c' := ImportStep(c, row, newId, now, fid, asOf);
    var item := TargetItem(c.items, row, newId, now);
    UpsertItemShape(c.items, row, newId, now);
    var i :| 0 <= i < |c.items| && KeyOf(c.items[i]) == RowKey(earlier)
      && SaleFor(c.sales, c.items[i].id) == Some(Snapshot(earlier, c.items[i].id, fid, asOf));
    var old_i := c.items[i];
    assert c'.items[i] == old_i;
    assert old_i.id in ItemIds(c.items);
    assert old_i.id != item.id by {
      if MatchItem(c.items, RowKey(row)).Some? {
        var m := MatchItem(c.items, RowKey(row)).value;
        assert item.id == c.items[m].id;
        assert m != i;
      }
    }
    assert SaleFor(c'.sales, old_i.id) == Some(Snapshot(earlier, old_i.id, fid, asOf));
  }

  /** The last row with a given key decides the snapshot of that key's item. */
  lemma {:induction false} LastRowWins(c: CatalogState, rows: seq<ImportRow>, ids: seq<string>, now: string, fid: string, asOf: string, k: nat)
    requires Valid(c) && |ids| == |rows| && FreshIds(c.items, ids)
    requires k < |rows| && forall j :: k < j < |rows| ==> RowKey(rows[j]) != RowKey(rows[k])
    ensures HoldsSnapshotOf(ImportRows(c, rows, ids, now, fid, asOf), rows[k], fid, asOf)
  {
    var n := |rows| - 1;
    var prev := LastStep(c, rows, ids, now, fid, asOf);
    if k == n {
      StepInstallsSnapshot(prev, rows[n], ids[n], now, fid, asOf);
    } else {
      assert FreshIds(c.items, ids[..n]);
      assert rows[..n][k] == rows[k];
      LastRowWins(c, rows[..n], ids[..n], now, fid, asOf, k);
      StepKeepsSnapshot(prev, rows[n], ids[n], now, fid, asOf, rows[k]);
    }
  }
}
