/** The application's shared data state: the joined item data, the draft
    proposal and the archive list the pages display, with the actions that
    replace them. */
module Session {
  import opened Common
  import opened Domain
  import opened Proposals
  import opened Store

  class DataSession {
    var fullItemData: seq<FullItemData>
    var proposal: seq<ProposalLine>
    var archivedProposals: seq<ArchivedProposal>

    constructor()
      ensures fullItemData == [] && proposal == [] && archivedProposals == []
    {
      fullItemData := [];
      proposal := [];
      archivedProposals := [];
    }

    /** refreshData: the data becomes the store's joined data. Without an active
        policy the store's call never settles (see `MockDatabase.GetActivePolicy`), so
        the refresh never reaches its error branch and the data stays as it was. */
    method RefreshData(db: MockDatabase, today: int)
      requires db.Valid()
      modifies this
      ensures db.GetFullItemData(today).Ok? ==> fullItemData == db.GetFullItemData(today).value
      ensures db.GetFullItemData(today).Err? ==> fullItemData == old(fullItemData)
      ensures proposal == old(proposal) && archivedProposals == old(archivedProposals)
    {
      var data := db.GetFullItemData(today);
      if data.Ok? {
        fullItemData := data.value;
      }
    }

    /** generateProposal: the draft becomes one line per given item. */
    method GenerateProposal(items: seq<FullItemData>)
      modifies this
      ensures proposal == GenerateLines(items)
      ensures fullItemData == old(fullItemData) && archivedProposals == old(archivedProposals)
    {
      proposal := GenerateLines(items);
    }

    /** updateProposalLineQty. */
    method UpdateProposalLineQty(itemId: string, qty: int)
      modifies this
      ensures proposal == UpdateQty(old(proposal), itemId, qty)
      ensures fullItemData == old(fullItemData) && archivedProposals == old(archivedProposals)
    {
      proposal := UpdateQty(proposal, itemId, qty);
    }

    /** removeProposalLine. */
    method RemoveProposalLine(itemId: string)
      modifies this
      ensures proposal == RemoveLine(old(proposal), itemId)
      ensures fullItemData == old(fullItemData) && archivedProposals == old(archivedProposals)
    {
      proposal := RemoveLine(proposal, itemId);
    }

    /** clearProposal. */
    method ClearProposal()
      modifies this
      ensures proposal == []
      ensures fullItemData == old(fullItemData) && archivedProposals == old(archivedProposals)
    {
      proposal := [];
    }

    /** refreshArchivedProposals: the displayed archive becomes the store's. */
    method RefreshArchivedProposals(db: MockDatabase)
      modifies this
      ensures archivedProposals == db.archivedProposals
      ensures fullItemData == old(fullItemData) && proposal == old(proposal)
    {
      archivedProposals := db.GetArchivedProposals();
    }

    /** approveAndArchiveAction: archives the current draft, then clears it and reloads
        the archive. `delivered` is whether the archive call succeeded; when it did
        not, the action stops before touching the draft. */
    method ApproveAndArchive(user: User, db: MockDatabase, id: string, date: string, delivered: bool)
      modifies this, db
      ensures delivered ==>
        && db.archivedProposals == [ArchiveRecord(old(proposal), user.email, id, date)] + old(db.archivedProposals)
        && proposal == []
        && archivedProposals == db.archivedProposals
      ensures !delivered ==>
        proposal == old(proposal) && archivedProposals == old(archivedProposals)
        && db.archivedProposals == old(db.archivedProposals)
      ensures db.items == old(db.items) && db.sales == old(db.sales) && db.policies == old(db.policies)
      ensures fullItemData == old(fullItemData)
    {
      if delivered {
        var _ := db.ArchiveProposal(proposal, user, id, date);
        ClearProposal();
        RefreshArchivedProposals(db);
      }
    }
  }
}
