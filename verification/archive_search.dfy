/** The archive page: the search over archived proposals by article code and
    the expanded-row toggle. */
module ArchiveSearch {
  import opened Common
  import opened Domain

  /** Some line's lower-cased code contains `term`. */
  predicate HasCode(p: ArchivedProposal, term: string) {
    exists k :: 0 <= k < |p.lines| && Contains(Lower(p.lines[k].code), term)
  }

  /** filteredProposals: a blank search shows the whole archive; otherwise the proposals
      with a line whose code contains the lower-cased, trimmed text, in archive order. */
  function Search(archive: seq<ArchivedProposal>, searchTerm: string): (r: seq<ArchivedProposal>)
    ensures Trim(searchTerm) == "" ==> r == archive
    ensures Trim(searchTerm) != "" ==>
      && (forall k :: 0 <= k < |r| ==> r[k] in archive && HasCode(r[k], Trim(Lower(searchTerm))))
      && (forall k :: 0 <= k < |archive| && HasCode(archive[k], Trim(Lower(searchTerm))) ==> archive[k] in r)
  {
    if Trim(searchTerm) == "" then archive
    else
      var term := Trim(Lower(searchTerm));
      Filter(archive, (p: ArchivedProposal) => HasCode(p, term))
  }

  /** The search result is always the archive or an order-preserving part of it. */
  lemma SearchKeepsOrder(archive: seq<ArchivedProposal>, searchTerm: string)
    ensures IsSubsequence(Search(archive, searchTerm), archive)
  {
    if Trim(searchTerm) == "" {
      SubsequenceRefl(archive);
    } else {
      FilterIsSubsequence(archive, (p: ArchivedProposal) => HasCode(p, Trim(Lower(searchTerm))));
    }
  }

  /** Typing a line's whole code, in any case, finds its proposal. */
  lemma SearchFindsCode(archive: seq<ArchivedProposal>, i: nat, k: nat, searchTerm: string)
    requires i < |archive| && k < |archive[i].lines|
    requires Trim(searchTerm) != "" && Trim(Lower(searchTerm)) == Lower(archive[i].lines[k].code)
    ensures archive[i] in Search(archive, searchTerm)
  {
    ContainsSelf(Lower(archive[i].lines[k].code));
  }

  /** toggleExpansion: the expanded proposal collapses; any other one becomes the expanded one. */
  function ToggleExpansion(current: Option<string>, id: string): (r: Option<string>)
    ensures current == Some(id) ==> r.None?
    ensures current != Some(id) ==> r == Some(id)
  {
    if current == Some(id) then None else Some(id)
  }

  /** Clicking the same proposal twice restores a collapsed page, or the same expanded one. */
  lemma ToggleTwice(current: Option<string>, id: string)
    ensures ToggleExpansion(ToggleExpansion(current, id), id) == current <==> current.None? || current == Some(id)
  {
  }
}
