/** The draft reorder proposal: its lines are built from joined item data,
    edited line by line, and frozen into an archived record on approval. */
module Proposals {
  import opened Common
  import opened Domain

  /** generateProposal: one line per item, in order, proposing the engine's quantity. */
  function GenerateLines(items: seq<FullItemData>): (r: seq<ProposalLine>)
    ensures |r| == |items|
    ensures forall i :: 0 <= i < |items| ==>
      r[i].id == items[i].Id() && r[i].itemData == items[i] && r[i].modifiedQty == items[i].Recommended()
  {
    seq(|items|, i requires 0 <= i < |items| => ProposalLine(items[i].Id(), items[i], items[i].Recommended()))
  }

  /** updateProposalLineQty: every line with the id gets the quantity; the others are kept. */
  function UpdateQty(lines: seq<ProposalLine>, id: string, qty: int): (r: seq<ProposalLine>)
    ensures |r| == |lines|
    ensures forall i :: 0 <= i < |lines| && lines[i].id == id ==> r[i] == lines[i].(modifiedQty := qty)
    ensures forall i :: 0 <= i < |lines| && lines[i].id != id ==> r[i] == lines[i]
  {
    seq(|lines|, i requires 0 <= i < |lines| => if lines[i].id == id then lines[i].(modifiedQty := qty) else lines[i])
  }

  predicate HasLine(lines: seq<ProposalLine>, id: string) {
    exists i :: 0 <= i < |lines| && lines[i].id == id
  }

  /** Updating an id no line carries changes nothing. */
  lemma UpdateQtyAbsent(lines: seq<ProposalLine>, id: string, qty: int)
    requires !HasLine(lines, id)
    ensures UpdateQty(lines, id, qty) == lines
  {
    var r := UpdateQty(lines, id, qty);
    assert forall i :: 0 <= i < |lines| ==> r[i] == lines[i];
  }

  /** Only the last of two updates of the same line counts. */
  lemma UpdateQtyLastWins(lines: seq<ProposalLine>, id: string, q1: int, q2: int)
    ensures UpdateQty(UpdateQty(lines, id, q1), id, q2) == UpdateQty(lines, id, q2)
  {
    var a := UpdateQty(UpdateQty(lines, id, q1), id, q2);
    var b := UpdateQty(lines, id, q2);
    assert forall i :: 0 <= i < |lines| ==> a[i] == b[i];
  }

  function KeepOthers(id: string): ProposalLine -> bool {
    (l: ProposalLine) => l.id != id
  }

  /** removeProposalLine: the draft without any line carrying the id. */
  function RemoveLine(lines: seq<ProposalLine>, id: string): (r: seq<ProposalLine>)
    ensures |r| <= |lines|
    ensures !HasLine(r, id)
    ensures forall i :: 0 <= i < |lines| && lines[i].id != id ==> lines[i] in r
    ensures forall i :: 0 <= i < |r| ==> r[i] in lines
  {
    var r := Filter(lines, KeepOthers(id));
    assert forall i :: 0 <= i < |r| ==> KeepOthers(id)(r[i]);
    r
  }

  /** Removal keeps the order of the remaining lines: it works piecewise on a split draft. */
  lemma RemoveLineAppend(a: seq<ProposalLine>, b: seq<ProposalLine>, id: string)
    ensures RemoveLine(a + b, id) == RemoveLine(a, id) + RemoveLine(b, id)
  {
    FilterAppend(a, b, KeepOthers(id));
  }

  /** Removing an id no line carries changes nothing. */
  lemma RemoveLineAbsent(lines: seq<ProposalLine>, id: string)
    requires !HasLine(lines, id)
    ensures RemoveLine(lines, id) == lines
  {
    FilterAll(lines, KeepOthers(id));
  }

  /** The archived form of one draft line: the operator's quantity is the ordered one. */
  function ArchiveLine(line: ProposalLine): (a: ArchivedProposalLine)
    ensures a.orderedQty == line.modifiedQty && a.code == line.itemData.Code()
  {
    ArchivedProposalLine(
      itemId := line.itemData.Id(),
      code := line.itemData.Code(),
      precodice := line.itemData.item.precodice,
      description := line.itemData.item.description,
      supplier := line.itemData.item.supplier,
      orderedQty := line.modifiedQty)
  }

  /** The record apiArchiveProposal stores for a draft. */
  function ArchiveRecord(lines: seq<ProposalLine>, createdBy: string, id: string, date: string): (a: ArchivedProposal)
    ensures a.itemsCount == |lines| && |a.lines| == |lines|
    ensures a.createdBy == createdBy
    ensures forall i :: 0 <= i < |lines| ==> a.lines[i].orderedQty == lines[i].modifiedQty
  {
    ArchivedProposal(id, date, createdBy, |lines|,
      seq(|lines|, i requires 0 <= i < |lines| => ArchiveLine(lines[i])))
  }

  /** Archiving a generated draft after one edit orders the edited quantity for the
      edited item and the engine's recommendation for every other item. */
  lemma ArchiveAfterEdit(items: seq<FullItemData>, id: string, qty: int, user: string, aid: string, date: string)
    ensures var a := ArchiveRecord(UpdateQty(GenerateLines(items), id, qty), user, aid, date);
      && a.itemsCount == |items|
      && forall i :: 0 <= i < |items| ==>
        && a.lines[i].itemId == items[i].Id()
        && a.lines[i].orderedQty == (if items[i].Id() == id then qty else items[i].Recommended())
  {
  }
}
