/** The in-memory database behind the API: items, sales snapshots, policies and
    archived proposals, updated in place by the API operations. Every operation
    is atomic here; latency, promises and generated identifiers are left to the
    caller, which passes identifiers, timestamps and "today" in. */
module Store {
  import opened Common
  import opened Domain
  import opened Policies
  import opened Catalog
  import opened Proposals

  class MockDatabase {
    var items: seq<Item>
    var sales: seq<SalesSnapshot>
    var policies: seq<PolicyParams>
    var archivedProposals: seq<ArchivedProposal>

    /** Items keep distinct ids and keys, every item has at most one snapshot and
        every snapshot belongs to an item. */
    predicate Valid()
      reads this
    {
      Catalog.Valid(CatalogState(items, sales))
    }

    /** The initial database: no items, no sales, the default policy, no archive. */
    constructor()
      ensures Valid()
      ensures items == [] && sales == [] && archivedProposals == []
      ensures policies == [DefaultPolicy]
    {
      items := [];
      sales := [];
      policies := [DefaultPolicy];
      archivedProposals := [];
    }

    // -------------------------------------------------------------------
    // Policies

    /** getActivePolicy. `Err` stands for the error the program throws inside its
        timer callback: that error does not reject the returned promise, so a caller
        that awaits it never resumes. */
    function GetActivePolicy(): (r: Result<PolicyParams>)
      reads this
      ensures r.Err? <==> forall j :: 0 <= j < |policies| ==> !policies[j].isActive
      ensures r.Ok? ==> r.value.isActive && r.value in policies
      ensures r.Ok? ==> exists k :: 0 <= k < |policies| && policies[k] == r.value &&
                          (forall j :: 0 <= j < k ==> !policies[j].isActive)
    {
      GetActive(policies)
    }

    /** getAllPolicies: a copy of the list. */
    function GetAllPolicies(): (r: seq<PolicyParams>)
      reads this
      ensures r == policies
    {
      policies
    }

    /** savePolicy: the draft gets the new id and is appended; nothing else changes. */
    method SavePolicy(draft: PolicyParams, newId: string) returns (saved: PolicyParams)
      modifies this
      ensures saved == draft.(id := newId)
      ensures policies == old(policies) + [saved]
      ensures items == old(items) && sales == old(sales) && archivedProposals == old(archivedProposals)
    {
      saved := draft.(id := newId);
      policies := policies + [saved];
    }

    /** updatePolicy: replaces the first record with the same id, or fails and changes nothing. */
    method UpdatePolicy(p: PolicyParams) returns (r: Result<PolicyParams>)
      modifies this
      ensures Update(old(policies), p).Ok? ==> r == Ok(p) && policies == Update(old(policies), p).value
      ensures Update(old(policies), p).Err? ==> r == Err("Policy not found") && policies == old(policies)
      ensures items == old(items) && sales == old(sales) && archivedProposals == old(archivedProposals)
    {
      var index := IndexOfId(policies, p.id);
      if index.Some? {
        policies := policies[index.value := p];
        r := Ok(p);
      } else {
        r := Err("Policy not found");
      }
    }

    /** setActivePolicy: visits every record and sets `isActive` to "the id is `id`". */
    method SetActivePolicy(id: string)
      modifies this
      ensures policies == Activate(old(policies), id)
      ensures items == old(items) && sales == old(sales) && archivedProposals == old(archivedProposals)
    {
      var i := 0;
      while i < |policies|
        invariant 0 <= i <= |policies| == |old(policies)|
        invariant forall j :: 0 <= j < i ==> policies[j] == old(policies)[j].(isActive := old(policies)[j].id == id)
        invariant forall j :: i <= j < |policies| ==> policies[j] == old(policies)[j]
        invariant items == old(items) && sales == old(sales) && archivedProposals == old(archivedProposals)
      {
        policies := policies[i := policies[i].(isActive := policies[i].id == id)];
        i := i + 1;
      }
    }

    // -------------------------------------------------------------------
    // Catalogue

    /** getFullItemData: fails without an active policy (even on an empty catalogue),
        otherwise the join of items and snapshots under the active policy. */
    function GetFullItemData(today: int): (r: Result<seq<FullItemData>>)
      reads this
      requires Valid()
      ensures r.Err? <==> GetActive(policies).Err?
      ensures r.Ok? ==> r.value == FullData(items, sales, GetActive(policies).value, today)
    {
      match GetActivePolicy()
      case Err(m) => Err(m)
      case Ok(policy) => if |items| == 0 then Ok([]) else Ok(FullData(items, sales, policy, today))
    }

    /** apiAnalyzeCodes: like getFullItemData, restricted to the requested codes. */
    function AnalyzeCodes(codes: seq<string>, today: int): (r: Result<seq<FullItemData>>)
      reads this
      requires Valid()
      ensures r.Err? <==> GetActive(policies).Err?
      ensures r.Ok? ==> r.value == Analyze(items, sales, GetActive(policies).value, today, codes)
    {
      match GetActivePolicy()
      case Err(m) => Err(m)
      case Ok(policy) => Ok(Analyze(items, sales, policy, today, codes))
    }

    /** apiImportData: applies the rows in order, upserting items and replacing
        snapshots in place; `ids[j]` names the item row j creates, if it creates one. */
    method ImportData(rows: seq<ImportRow>, ids: seq<string>, now: string, sourceFileId: string, asOfDate: string)
      returns (success: bool, message: string, imported: int, failed: int)
      requires Valid() && |ids| == |rows| && FreshIds(items, ids)
      modifies this
      ensures Valid()
      ensures CatalogState(items, sales) == ImportRows(CatalogState(old(items), old(sales)), rows, ids, now, sourceFileId, asOfDate)
      ensures success && imported == |rows| && failed == 0
      ensures message == "Import completato: " + IntToString(|rows|) + " righe processate."
      ensures policies == old(policies) && archivedProposals == old(archivedProposals)
    {
      ghost var c0 := CatalogState(items, sales);
      var importedCount := 0;
      var i := 0;
      while i < |rows|
        invariant 0 <= i <= |rows|
        invariant importedCount == i
        invariant CatalogState(items, sales) == ImportRows(c0, rows[..i], ids[..i], now, sourceFileId, asOfDate)
        invariant policies == old(policies) && archivedProposals == old(archivedProposals)
      {
        ApplyRow(rows[i], ids[i], now, sourceFileId, asOfDate);
        importedCount := importedCount + 1;
        ImportRowsSnoc(c0, rows, ids, now, sourceFileId, asOfDate, i);
        i := i + 1;
      }
      assert rows[..|rows|] == rows && ids[..|ids|] == ids;
      ImportRowsValid(c0, rows, ids, now, sourceFileId, asOfDate);
      success, message, imported, failed :=
        true, "Import completato: " + IntToString(importedCount) + " righe processate.", importedCount, 0;
    }

    /** The body of the import loop for one row. */
    method ApplyRow(row: ImportRow, newId: string, now: string, sourceFileId: string, asOfDate: string)
      modifies this
      ensures CatalogState(items, sales) == ImportStep(CatalogState(old(items), old(sales)), row, newId, now, sourceFileId, asOfDate)
      ensures policies == old(policies) && archivedProposals == old(archivedProposals)
    {
      var item: Item;
      var found := MatchItem(items, RowKey(row));
      if found.None? {
        item := NewItem(row, newId, now);
        items := items + [item];
      } else {
        item := UpdatedItem(items[found.value], row, now);
        items := items[found.value := item];
      }
      var warnings: seq<string> := [];
      if row.qtySold365 < 0 {
        warnings := warnings + ["'QUANTITA VENDUTA' importata con valore negativo: " + IntToString(row.qtySold365)];
      }
      if row.valueSold365 < 0 {
        warnings := warnings + ["'VALORE VENDUTO' importato con valore negativo: " + IntToString(row.valueSold365)];
      }
      assert warnings == Warnings(row);
      var existing := SaleIndex(sales, item.id);
      var newSale := SalesSnapshot(
        id := "sale-" + item.id,
        itemId := item.id,
        qtySold365 := row.qtySold365,
        valueSold365 := row.valueSold365,
        lastSaleDate := row.lastSaleDate,
        lastPurchaseDate := row.lastPurchaseDate,
        sourceFileId := sourceFileId,
        asOfDate := asOfDate,
        importWarnings := if |warnings| > 0 then Some(warnings) else None);
      if existing.Some? {
        sales := sales[existing.value := newSale];
      } else {
        sales := sales + [newSale];
      }
    }

    // -------------------------------------------------------------------
    // Archive

    /** apiArchiveProposal: the draft's record goes to the front of the archive. */
    method ArchiveProposal(lines: seq<ProposalLine>, user: User, id: string, date: string)
      returns (archived: ArchivedProposal)
      modifies this
      ensures archived == ArchiveRecord(lines, user.email, id, date)
      ensures archivedProposals == [archived] + old(archivedProposals)
      ensures items == old(items) && sales == old(sales) && policies == old(policies)
    {
      archived := ArchiveRecord(lines, user.email, id, date);
      archivedProposals := [archived] + archivedProposals;
    }

    /** apiGetArchivedProposals: a copy of the archive, newest first. */
    function GetArchivedProposals(): (r: seq<ArchivedProposal>)
      reads this
      ensures r == archivedProposals
    {
      archivedProposals
    }
  }
}
