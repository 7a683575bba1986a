/** The draft page: lines grouped by supplier, the per-supplier export sheets,
    and the guard in front of approval. */
module ProposalPage {
  import opened Common
  import opened Domain
  import opened Catalog
  import opened Proposals
  import opened Store
  import opened Session

  // ---------------------------------------------------------------------
  // Grouping in first-appearance order (a Map filled by has/set/get().push)

  type Groups<K(==), V> = seq<(K, seq<V>)>

  function GroupIndex<K(==), V>(gs: Groups<K, V>, k: K): (r: Option<nat>)
    ensures r.Some? ==> r.value < |gs| && gs[r.value].0 == k
    ensures r.None? ==> forall j :: 0 <= j < |gs| ==> gs[j].0 != k
  {
    if |gs| == 0 then None
    else if gs[0].0 == k then Some(0)
    else match GroupIndex(gs[1..], k)
      case None => None
      case Some(j) => Some(j + 1)
  }

  function AddToGroup<K(==), V>(gs: Groups<K, V>, k: K, v: V): Groups<K, V> {
    match GroupIndex(gs, k)
    case None => gs + [(k, [v])]
    case Some(i) => gs[i := (k, gs[i].1 + [v])]
  }

  /** The groups the loop builds from a list of (key, value) pairs. */
  function Group<K(==), V>(pairs: seq<(K, V)>): Groups<K, V>
    decreases |pairs|
  {
    if |pairs| == 0 then []
    else AddToGroup(Group(pairs[..|pairs| - 1]), pairs[|pairs| - 1].0, pairs[|pairs| - 1].1)
  }

  /** The values paired with `k`, in order. */
  function ValuesOf<K(==), V>(pairs: seq<(K, V)>, k: K): seq<V>
    decreases |pairs|
  {
    if |pairs| == 0 then []
    else ValuesOf(pairs[..|pairs| - 1], k) + (if pairs[|pairs| - 1].0 == k then [pairs[|pairs| - 1].1] else [])
  }

  predicate DistinctGroupKeys<K(==), V>(gs: Groups<K, V>) {
    forall i, j :: 0 <= i < j < |gs| ==> gs[i].0 != gs[j].0
  }

  lemma GroupIndexOf<K, V>(gs: Groups<K, V>, k: K, i: nat)
    requires DistinctGroupKeys(gs) && i < |gs| && gs[i].0 == k
    ensures GroupIndex(gs, k) == Some(i)
  {
    assert GroupIndex(gs, k).Some?;
  }

  /** One loop step: keys stay distinct and only `k`'s group grows, by `v` at its end. */
  lemma AddToGroupFacts<K, V>(gs: Groups<K, V>, k: K, v: V)
    requires DistinctGroupKeys(gs)
    ensures var r := AddToGroup(gs, k, v);
      && DistinctGroupKeys(r)
      && (forall x :: GroupIndex(r, x).Some? <==> GroupIndex(gs, x).Some? || x == k)
      && (forall x :: GroupIndex(r, x).Some? ==>
            r[GroupIndex(r, x).value].1 ==
              (if GroupIndex(gs, x).Some? then gs[GroupIndex(gs, x).value].1 else []) + (if x == k then [v] else []))
  {
    var r := AddToGroup(gs, k, v);
    match GroupIndex(gs, k) {
      case None =>
        forall x | GroupIndex(gs, x).Some? ensures GroupIndex(r, x) == GroupIndex(gs, x) {
          GroupIndexOf(r, x, GroupIndex(gs, x).value);
        }
        GroupIndexOf(r, k, |gs|);
      case Some(i) =>
        forall x | GroupIndex(gs, x).Some? ensures GroupIndex(r, x) == GroupIndex(gs, x) {
          GroupIndexOf(r, x, GroupIndex(gs, x).value);
        }
    }
  }

  /** Every key has exactly one group, holding exactly its values in input order, and a key
      has a group iff some pair carries it. */
  lemma {:induction false} GroupContents<K, V>(pairs: seq<(K, V)>)
    ensures DistinctGroupKeys(Group(pairs))
    ensures forall k :: GroupIndex(Group(pairs), k).Some? <==> |ValuesOf(pairs, k)| > 0
    ensures forall k :: GroupIndex(Group(pairs), k).Some? ==> Group(pairs)[GroupIndex(Group(pairs), k).value].1 == ValuesOf(pairs, k)
    decreases |pairs|
  {
    if |pairs| > 0 {
      var n := |pairs| - 1;
      GroupContents(pairs[..n]);
      AddToGroupFacts(Group(pairs[..n]), pairs[n].0, pairs[n].1);
    }
  }

  /** A key has values iff some pair carries it. */
  lemma {:induction false} ValuesOfNonEmpty<K, V>(pairs: seq<(K, V)>, k: K)
    ensures |ValuesOf(pairs, k)| > 0 <==> exists p :: 0 <= p < |pairs| && pairs[p].0 == k
    decreases |pairs|
  {
    if |pairs| > 0 {
      var n := |pairs| - 1;
      ValuesOfNonEmpty(pairs[..n], k);
      if exists p :: 0 <= p < |pairs| && pairs[p].0 == k {
        var p :| 0 <= p < |pairs| && pairs[p].0 == k;
        if p < n {
          assert pairs[..n][p] == pairs[p];
        }
      }
      if exists p :: 0 <= p < n && pairs[..n][p].0 == k {
        var p :| 0 <= p < n && pairs[..n][p].0 == k;
        assert pairs[p] == pairs[..n][p];
      }
    }
  }

  /** Groups appear in first-appearance order: any occurrence of a later group's key is
      preceded by an occurrence of every earlier group's key. */
  lemma {:induction false} GroupFirstAppearance<K, V>(pairs: seq<(K, V)>, i: nat, j: nat, q: nat)
    requires i < j < |Group(pairs)| && q < |pairs| && pairs[q].0 == Group(pairs)[j].0
    ensures exists p :: 0 <= p < q && pairs[p].0 == Group(pairs)[i].0
    decreases |pairs|
  {
    var n := |pairs| - 1;
    var prefix := pairs[..n];
    var gs := Group(prefix);
    GroupContents(prefix);
    AddToGroupFacts(gs, pairs[n].0, pairs[n].1);
    var g := Group(pairs);
    assert g == AddToGroup(gs, pairs[n].0, pairs[n].1);
    assert |g| == |gs| || |g| == |gs| + 1;
    assert i < |gs| && g[i].0 == gs[i].0 by {
      if GroupIndex(gs, pairs[n].0).None? {
        assert g == gs + [(pairs[n].0, [pairs[n].1])];
      } else {
        assert |g| == |gs|;
      }
    }
    // the earlier group's key already occurs in the prefix
    GroupIndexOf(gs, gs[i].0, i);
    ValuesOfNonEmpty(prefix, gs[i].0);
    var p :| 0 <= p < n && prefix[p].0 == gs[i].0;
    assert pairs[p] == prefix[p];
    if q < n {
      if j < |gs| {
        assert g[j].0 == gs[j].0;
        assert prefix[q] == pairs[q];
        GroupFirstAppearance(prefix, i, j, q);
        var p' :| 0 <= p' < q && prefix[p'].0 == gs[i].0;
        assert pairs[p'] == prefix[p'];
      } else {
        // the new group's key does not occur in the prefix
        assert GroupIndex(gs, pairs[n].0).None?;
        assert g == gs + [(pairs[n].0, [pairs[n].1])];
        assert g[j].0 == pairs[n].0;
        ValuesOfNonEmpty(prefix, pairs[n].0);
      }
    }
  }

  // ---------------------------------------------------------------------
  // Suppliers

  /** `line.itemData.supplier || 'Sconosciuto'`. */
  function SupplierName(line: ProposalLine): (s: string)
    ensures s == UnknownSupplier <==> line.itemData.item.supplier.None? || line.itemData.item.supplier == Some("") || line.itemData.item.supplier == Some(UnknownSupplier)
    ensures line.itemData.item.supplier.Some? && line.itemData.item.supplier.value != "" ==> s == line.itemData.item.supplier.value
  {
    OrDefault(line.itemData.item.supplier, UnknownSupplier)
  }

  function SupplierPairs(lines: seq<ProposalLine>): (pairs: seq<(string, ProposalLine)>)
    ensures |pairs| == |lines| && forall i :: 0 <= i < |lines| ==> pairs[i] == (SupplierName(lines[i]), lines[i])
  {
    seq(|lines|, i requires 0 <= i < |lines| => (SupplierName(lines[i]), lines[i]))
  }

  /** The `suppliers` memo: the draft's lines by supplier, suppliers in first-appearance order. */
  function Suppliers(lines: seq<ProposalLine>): Groups<string, ProposalLine> {
    Group(SupplierPairs(lines))
  }

  /** The `proposal.forEach` filling the supplier map. */
  method GroupBySupplier(lines: seq<ProposalLine>) returns (groups: Groups<string, ProposalLine>)
    ensures groups == Suppliers(lines)
  {
    ghost var pairs := SupplierPairs(lines);
    groups := [];
    var i := 0;
    while i < |lines|
      invariant 0 <= i <= |lines|
      invariant groups == Group(pairs[..i])
    {
      var name := SupplierName(lines[i]);
      var existing := GroupIndex(groups, name);
      if existing.None? {
        groups := groups + [(name, [lines[i]])];
      } else {
        groups := groups[existing.value := (name, groups[existing.value].1 + [lines[i]])];
      }
      assert pairs[..i + 1][..i] == pairs[..i];
      i := i + 1;
    }
    assert pairs[..|lines|] == pairs;
  }

  /** The lines of one supplier, in draft order. */
  function LinesOf(lines: seq<ProposalLine>, supplier: string): seq<ProposalLine>
    decreases |lines|
  {
    if |lines| == 0 then []
    else LinesOf(lines[..|lines| - 1], supplier) + (if SupplierName(lines[|lines| - 1]) == supplier then [lines[|lines| - 1]] else [])
  }

  lemma {:induction false} LinesOfValues(lines: seq<ProposalLine>, supplier: string)
    ensures LinesOf(lines, supplier) == ValuesOf(SupplierPairs(lines), supplier)
    decreases |lines|
  {
    if |lines| > 0 {
      var n := |lines| - 1;
      LinesOfValues(lines[..n], supplier);
      assert SupplierPairs(lines)[..n] == SupplierPairs(lines[..n]);
    }
  }

  /** Each supplier appears once; its group is exactly its lines in draft order; a supplier has a
      group iff some line names it. So every draft line is in exactly one group. */
  lemma SuppliersPartition(lines: seq<ProposalLine>, supplier: string)
    ensures DistinctGroupKeys(Suppliers(lines))
    ensures GroupIndex(Suppliers(lines), supplier).Some? <==> exists i :: 0 <= i < |lines| && SupplierName(lines[i]) == supplier
    ensures GroupIndex(Suppliers(lines), supplier).Some? ==>
      Suppliers(lines)[GroupIndex(Suppliers(lines), supplier).value].1 == LinesOf(lines, supplier)
  {
    var pairs := SupplierPairs(lines);
    GroupContents(pairs);
    LinesOfValues(lines, supplier);
    ValuesOfNonEmpty(pairs, supplier);
    if exists i :: 0 <= i < |lines| && SupplierName(lines[i]) == supplier {
      var i :| 0 <= i < |lines| && SupplierName(lines[i]) == supplier;
      assert pairs[i].0 == supplier;
    }
  }

  /** Suppliers are listed in the order their first line appears in the draft. */
  lemma SuppliersInFirstAppearanceOrder(lines: seq<ProposalLine>, i: nat, j: nat, q: nat)
    requires i < j < |Suppliers(lines)| && q < |lines| && SupplierName(lines[q]) == Suppliers(lines)[j].0
    ensures exists p :: 0 <= p < q && SupplierName(lines[p]) == Suppliers(lines)[i].0
  {
    var pairs := SupplierPairs(lines);
    GroupFirstAppearance(pairs, i, j, q);
    var p :| 0 <= p < q && pairs[p].0 == Group(pairs)[i].0;
    assert SupplierName(lines[p]) == pairs[p].0;
  }

  // ---------------------------------------------------------------------
  // Export

  /** One exported row: Fornitore, Precodice, Codice, Descrizione, Quantità da Ordinare. */
  datatype ExportRow = ExportRow(supplier: string, precodice: string, code: string, description: string, quantity: int)

  datatype Sheet = Sheet(name: string, rows: seq<ExportRow>)

  const SheetNameLimit := 31

  /** `name.substring(0, 31)`. */
  function SheetName(name: string): (r: string)
    ensures |r| <= SheetNameLimit && r <= name
    ensures |name| <= SheetNameLimit ==> r == name
    ensures |name| > SheetNameLimit ==> |r| == SheetNameLimit
  {
    if |name| <= SheetNameLimit then name else name[..SheetNameLimit]
  }

  function ExportLine(supplier: string, line: ProposalLine): (r: ExportRow)
    ensures r.supplier == supplier && r.code == line.itemData.Code() && r.quantity == line.modifiedQty
    ensures line.itemData.item.precodice.None? ==> r.precodice == ""
    ensures line.itemData.item.precodice.Some? && line.itemData.item.precodice.value != "" ==> r.precodice == line.itemData.item.precodice.value
    ensures line.itemData.item.precodice == Some("") ==> r.precodice == ""
    ensures line.itemData.item.description.None? ==> r.description == ""
    ensures line.itemData.item.description.Some? && line.itemData.item.description.value != "" ==> r.description == line.itemData.item.description.value
    ensures line.itemData.item.description == Some("") ==> r.description == ""
  {
    ExportRow(supplier, OrDefault(line.itemData.item.precodice, ""), line.itemData.Code(),
      OrDefault(line.itemData.item.description, ""), line.modifiedQty)
  }

  function ExportSheet(group: (string, seq<ProposalLine>)): (s: Sheet)
    ensures s.name == SheetName(group.0) && |s.rows| == |group.1|
    ensures forall k :: 0 <= k < |group.1| ==> s.rows[k] == ExportLine(group.0, group.1[k])
  {
    Sheet(SheetName(group.0), seq(|group.1|, k requires 0 <= k < |group.1| => ExportLine(group.0, group.1[k])))
  }

  /** handleExport: one sheet per supplier group, appended in group order. */
  method Export(groups: Groups<string, ProposalLine>) returns (workbook: seq<Sheet>)
    ensures |workbook| == |groups|
    ensures forall i :: 0 <= i < |groups| ==> workbook[i] == ExportSheet(groups[i])
  {
    workbook := [];
    var i := 0;
    while i < |groups|
      invariant 0 <= i <= |groups| && |workbook| == i
      invariant forall k :: 0 <= k < i ==> workbook[k] == ExportSheet(groups[k])
    {
      workbook := workbook + [ExportSheet(groups[i])];
      i := i + 1;
    }
  }

  /** The exported quantity of every draft line is the operator's quantity, on its supplier's sheet. */
  lemma ExportCarriesQuantities(lines: seq<ProposalLine>, i: nat)
    requires i < |lines|
    ensures var g := GroupIndex(Suppliers(lines), SupplierName(lines[i]));
      g.Some? && lines[i] in Suppliers(lines)[g.value].1 &&
      ExportSheet(Suppliers(lines)[g.value]).name == SheetName(SupplierName(lines[i]))
  {
    var name := SupplierName(lines[i]);
    SuppliersPartition(lines, name);
    LinesOfHas(lines, i);
  }

  lemma {:induction false} LinesOfHas(lines: seq<ProposalLine>, i: nat)
    requires i < |lines|
    ensures lines[i] in LinesOf(lines, SupplierName(lines[i]))
    decreases |lines|
  {
    var n := |lines| - 1;
    if i < n {
      LinesOfHas(lines[..n], i);
      assert lines[..n][i] == lines[i];
    }
  }

  // ---------------------------------------------------------------------
  // Approval

  /** handleApprove's guard: a signed-in user and a non-empty draft. */
  predicate MayApprove(user: Option<User>, draft: seq<ProposalLine>) {
    user.Some? && |draft| > 0
  }

  /** handleApprove: without a user or with an empty draft nothing happens; otherwise the
      draft is archived under the user's e-mail and cleared, and the displayed archive is
      reloaded. When the archive call fails (`delivered` false) the handler catches the
      error and nothing changes either. */
  method HandleApprove(session: DataSession, db: MockDatabase, user: Option<User>, id: string, date: string, delivered: bool)
    modifies session, db
    ensures !MayApprove(user, old(session.proposal)) || !delivered ==>
      && session.proposal == old(session.proposal)
      && session.archivedProposals == old(session.archivedProposals)
      && db.archivedProposals == old(db.archivedProposals)
    ensures MayApprove(user, old(session.proposal)) && delivered ==>
      && db.archivedProposals == [ArchiveRecord(old(session.proposal), user.value.email, id, date)] + old(db.archivedProposals)
      && session.proposal == []
      && session.archivedProposals == db.archivedProposals
    ensures session.fullItemData == old(session.fullItemData)
    ensures db.items == old(db.items) && db.sales == old(db.sales) && db.policies == old(db.policies)
  {
    if !MayApprove(user, session.proposal) {
      return;
    }
    session.ApproveAndArchive(user.value, db, id, date, delivered);
  }
}
