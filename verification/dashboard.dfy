/** The dashboard: the search and filter over the joined item data, the KPI
    counts, the row selection and the rule that picks what goes into a new
    draft proposal. */
module Dashboard {
  import opened Common
  import opened Domain
  import opened Proposals
  import opened Session

  datatype Filters = Filters(showSlowMovers: bool, onlyRecommended: bool)

  // ---------------------------------------------------------------------
  // filteredData

  /** `(field && field.toLowerCase().includes(term))`: an absent or empty field never matches. */
  predicate FieldMatches(field: Option<string>, term: string) {
    field.Some? && field.value != "" && Contains(Lower(field.value), term)
  }

  /** The search part of the predicate; `term` is the lower-cased search text. */
  predicate SearchMatch(d: FullItemData, term: string) {
    || Contains(Lower(d.Code()), term)
    || FieldMatches(d.item.description, term)
    || FieldMatches(d.item.precodice, term)
    || FieldMatches(d.item.ubicazione, term)
  }

  predicate Shown(d: FullItemData, searchTerm: string, filters: Filters) {
    && SearchMatch(d, Lower(searchTerm))
    && (filters.showSlowMovers ==> d.calculation.slowMoverFlag)
    && (filters.onlyRecommended ==> d.Recommended() > 0)
  }

  /** The rows the table shows, before sorting: the data items passing the search and
      both filters, in data order. */
  function FilteredData(data: seq<FullItemData>, searchTerm: string, filters: Filters): (r: seq<FullItemData>)
    ensures |r| <= |data|
    ensures forall k :: 0 <= k < |r| ==> r[k] in data && Shown(r[k], searchTerm, filters)
    ensures forall k :: 0 <= k < |data| && Shown(data[k], searchTerm, filters) ==> data[k] in r
    ensures IsSubsequence(r, data)
  {
    var p := (d: FullItemData) => Shown(d, searchTerm, filters);
    FilterIsSubsequence(data, p);
    Filter(data, p)
  }

  /** With an empty search and both filters off, every item is shown, in order. */
  lemma EmptySearchShowsAll(data: seq<FullItemData>)
    ensures FilteredData(data, "", Filters(false, false)) == data
  {
    forall k | 0 <= k < |data| ensures Shown(data[k], "", Filters(false, false)) {
      ContainsEmpty(Lower(data[k].Code()));
    }
    FilterAll(data, (d: FullItemData) => Shown(d, "", Filters(false, false)));
  }

  /** The search ignores the case of what the user types. */
  lemma {:induction false} SearchIgnoresCase(data: seq<FullItemData>, searchTerm: string, filters: Filters)
    ensures FilteredData(data, Lower(searchTerm), filters) == FilteredData(data, searchTerm, filters)
  {
    if |data| > 0 {
      LowerIdempotent(searchTerm);
      SearchIgnoresCase(data[1..], searchTerm, filters);
    }
  }

  /** Switching on a filter never shows more rows. */
  lemma {:induction false} FiltersNarrow(data: seq<FullItemData>, searchTerm: string, filters: Filters, stricter: Filters)
    requires filters.showSlowMovers ==> stricter.showSlowMovers
    requires filters.onlyRecommended ==> stricter.onlyRecommended
    ensures |FilteredData(data, searchTerm, stricter)| <= |FilteredData(data, searchTerm, filters)|
  {
    if |data| > 0 {
      FiltersNarrow(data[1..], searchTerm, filters, stricter);
    }
  }

  // ---------------------------------------------------------------------
  // kpis

  predicate ToReorder(d: FullItemData) {
    d.Recommended() > 0
  }

  predicate SlowMover(d: FullItemData) {
    d.calculation.slowMoverFlag
  }

  /** itemsToReorder: the number of items with a positive recommendation. */
  function ItemsToReorder(data: seq<FullItemData>): (n: nat)
    ensures n <= |data|
    ensures n == 0 <==> forall k :: 0 <= k < |data| ==> !ToReorder(data[k])
  {
    Count(data, ToReorder)
  }

  /** The count adds up over any split of the data; with the single-item case above it
      counts every item with a positive recommendation once. */
  lemma ItemsToReorderAdds(a: seq<FullItemData>, b: seq<FullItemData>)
    ensures ItemsToReorder(a + b) == ItemsToReorder(a) + ItemsToReorder(b)
  {
    CountAppend(a, b, ToReorder);
  }

  /** slowMoversCount: the number of flagged items. */
  function SlowMoversCount(data: seq<FullItemData>): (n: nat)
    ensures n <= |data|
    ensures n == 0 <==> forall k :: 0 <= k < |data| ==> !data[k].calculation.slowMoverFlag
  {
    Count(data, SlowMover)
  }

  lemma SlowMoversCountAdds(a: seq<FullItemData>, b: seq<FullItemData>)
    ensures SlowMoversCount(a + b) == SlowMoversCount(a) + SlowMoversCount(b)
  {
    CountAppend(a, b, SlowMover);
  }

  // ---------------------------------------------------------------------
  // Selection

  /** handleSelect: toggles exactly the given id. */
  method HandleSelect(selected: set<string>, itemId: string) returns (selection: set<string>)
    ensures itemId in selection <==> itemId !in selected
    ensures forall x :: x != itemId ==> (x in selection <==> x in selected)
  {
    selection := selected;
    if itemId in selection {
      selection := selection - {itemId};
    } else {
      selection := selection + {itemId};
    }
  }

  function VisibleIds(visible: seq<FullItemData>): (ids: seq<string>)
    ensures |ids| == |visible| && forall k :: 0 <= k < |visible| ==> ids[k] == visible[k].Id()
  {
    seq(|visible|, k requires 0 <= k < |visible| => visible[k].Id())
  }

  /** The selection after select-all: the visible ids added, or removed, and nothing else changed. */
  function SelectAll(selected: set<string>, visibleIds: seq<string>, checked: bool): (s: set<string>)
    ensures forall x :: x in s <==> (if x in visibleIds then checked else x in selected)
  {
    if |visibleIds| == 0 then selected
    else
      var last := visibleIds[|visibleIds| - 1];
      var before := SelectAll(selected, visibleIds[..|visibleIds| - 1], checked);
      assert forall x :: x in visibleIds <==> x in visibleIds[..|visibleIds| - 1] || x == last;
      if checked then before + {last} else before - {last}
  }

  /** handleSelectAll: copies the selection and adds, or deletes, each visible id in turn. */
  method HandleSelectAll(selected: set<string>, visible: seq<FullItemData>, checked: bool) returns (selection: set<string>)
    ensures selection == SelectAll(selected, VisibleIds(visible), checked)
  {
    var ids := VisibleIds(visible);
    selection := selected;
    var i := 0;
    while i < |ids|
      invariant 0 <= i <= |ids|
      invariant selection == SelectAll(selected, ids[..i], checked)
    {
      if checked {
        selection := selection + {ids[i]};
      } else {
        selection := selection - {ids[i]};
      }
      assert ids[..i + 1][..i] == ids[..i];
      i := i + 1;
    }
    assert ids[..|ids|] == ids;
  }

  /** isAllVisibleSelected: false for an empty table, otherwise every visible row is selected. */
  function AllVisibleSelected(visible: seq<FullItemData>, selected: set<string>): (b: bool)
    ensures b <==> |visible| > 0 && forall id :: id in VisibleIds(visible) ==> id in selected
  {
    |visible| > 0 && forall k :: 0 <= k < |visible| ==> visible[k].Id() in selected
  }

  /** Ticking the header box makes every visible row selected; unticking it makes none. */
  lemma SelectAllTogglesHeader(selected: set<string>, visible: seq<FullItemData>)
    requires |visible| > 0
    ensures AllVisibleSelected(visible, SelectAll(selected, VisibleIds(visible), true))
    ensures !AllVisibleSelected(visible, SelectAll(selected, VisibleIds(visible), false))
  {
    var ids := VisibleIds(visible);
    assert ids[0] == visible[0].Id() && ids[0] in ids;
    forall k | 0 <= k < |visible| ensures visible[k].Id() in SelectAll(selected, ids, true) {
      assert ids[k] in ids;
    }
  }

  // ---------------------------------------------------------------------
  // handleGenerateProposal

  /** The items a new draft is made of: the selected ones if any are selected, otherwise
      those with a positive recommendation, in data order. */
  function Candidates(data: seq<FullItemData>, selected: set<string>): (r: seq<FullItemData>)
    ensures forall k :: 0 <= k < |r| ==> r[k] in data
    ensures |selected| > 0 ==> forall k :: 0 <= k < |r| ==> r[k].Id() in selected
    ensures |selected| > 0 ==> forall k :: 0 <= k < |data| && data[k].Id() in selected ==> data[k] in r
    ensures |selected| == 0 ==> forall k :: 0 <= k < |r| ==> ToReorder(r[k])
    ensures |selected| == 0 ==> forall k :: 0 <= k < |data| && ToReorder(data[k]) ==> data[k] in r
    ensures IsSubsequence(r, data)
  {
    if |selected| > 0 then
      var p := (d: FullItemData) => d.Id() in selected;
      FilterIsSubsequence(data, p);
      Filter(data, p)
    else
      FilterIsSubsequence(data, ToReorder);
      Filter(data, ToReorder)
  }

  /** Without a selection the draft holds as many lines as the KPI announces. */
  lemma DefaultCandidatesMatchKpi(data: seq<FullItemData>)
    ensures |Candidates(data, {})| == ItemsToReorder(data)
  {
  }

  /** handleGenerateProposal: a draft is made only when there are candidates; otherwise
      nothing changes. */
  method HandleGenerateProposal(session: DataSession, selected: set<string>) returns (generated: bool)
    modifies session
    ensures generated <==> |Candidates(old(session.fullItemData), selected)| > 0
    ensures generated ==> session.proposal == GenerateLines(Candidates(old(session.fullItemData), selected))
    ensures !generated ==> session.proposal == old(session.proposal)
    ensures session.fullItemData == old(session.fullItemData)
    ensures session.archivedProposals == old(session.archivedProposals)
  {
    var items := Candidates(session.fullItemData, selected);
    generated := |items| > 0;
    if generated {
      session.GenerateProposal(items);
    }
  }

  // ---------------------------------------------------------------------
  // requestSort

  datatype Direction = Ascending | Descending

  /** The column is one of the item-data field names. */
  datatype SortConfig = SortConfig(key: string, direction: Direction)

  /** requestSort: descending only when the same column is currently ascending. */
  function NextSort(current: Option<SortConfig>, key: string): (r: SortConfig)
    ensures r.key == key
    ensures r.direction == Descending <==> current == Some(SortConfig(key, Ascending))
  {
    if current.Some? && current.value.key == key && current.value.direction == Ascending
    then SortConfig(key, Descending)
    else SortConfig(key, Ascending)
  }

  /** Clicking the same header twice always flips the direction, so it cycles ascending,
      descending, ascending. */
  lemma SortCycles(current: Option<SortConfig>, key: string)
    ensures NextSort(Some(NextSort(current, key)), key).direction != NextSort(current, key).direction
  {
  }
}
