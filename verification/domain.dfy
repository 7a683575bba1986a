/** The records the application passes around: catalogue items, their sales
    snapshot, reorder policies, the engine's output and the proposal records.
    Dates are day numbers (days since 1970-01-01); timestamps and generated
    identifiers are plain strings supplied by the caller. */
module Domain {
  import opened Common

  datatype Role = Admin | Operativo

  datatype User = User(id: string, email: string, role: Role)

  /** A stocked product, identified by (code, precodice). */
  datatype Item = Item(
    id: string,
    code: string,
    precodice: Option<string>,
    description: Option<string>,
    supplier: Option<string>,
    leadTimeDays: Option<int>,   // null/undefined falls back to the policy default
    minOrderQty: int,
    orderMultiple: int,
    currentStock: int,
    reservedQty: int,
    reorderBlocked: bool,
    ubicazione: Option<string>,
    createdAt: string,
    updatedAt: string)

  /** The single 365-day sales snapshot of an item, replaced on each import. */
  datatype SalesSnapshot = SalesSnapshot(
    id: string,
    itemId: string,
    qtySold365: int,
    valueSold365: int,
    lastSaleDate: Option<int>,
    lastPurchaseDate: Option<int>,
    sourceFileId: string,
    asOfDate: string,
    importWarnings: Option<seq<string>>)

  datatype RunRateMethod = SimpleAvg | WeightedAvg | ExpSmoothing

  datatype RoundingStrategy = ToMultiple | ToMinThenMultiple

  /** A named set of reorder coefficients; the store keeps one of them active. */
  datatype PolicyParams = PolicyParams(
    id: string,
    name: string,
    runRateMethod: RunRateMethod,
    avgWindowDays: int,
    recentWeightDays: int,
    recentWeightFactor: real,
    leadTimeDefaultDays: int,
    safetyStockDays: int,
    slowMoverQtyThreshold: int,
    slowMoverDaysSinceLastSale: int,
    minRevenueThreshold: int,
    roundingStrategy: RoundingStrategy,
    isActive: bool)

  /** The engine's recommendation for one item under one policy. */
  datatype Calculation = Calculation(
    id: string,
    itemId: string,
    dailyRunRate: real,
    forecast60d: int,
    safetyStock: int,
    leadTimeCoverQty: int,
    recommendedOrderQty: int,
    slowMoverFlag: bool,
    slowMoverReason: string)

  /** An item joined with its snapshot and calculation. The application builds
      it by spreading the snapshot over the item, so the snapshot's `id`
      ("sale-" + item id) is the identifier every page uses. */
  datatype FullItemData = FullItemData(item: Item, sale: SalesSnapshot, calculation: Calculation) {
    function Id(): string { sale.id }
    function Code(): string { item.code }
    function Recommended(): int { calculation.recommendedOrderQty }
  }

  /** One validated spreadsheet row handed to the import. */
  datatype ImportRow = ImportRow(
    code: string,
    precodice: Option<string>,
    description: Option<string>,
    qtySold365: int,
    valueSold365: int,
    lastSaleDate: Option<int>,
    lastPurchaseDate: Option<int>,
    ubicazione: Option<string>)

  /** A draft proposal line: a frozen copy of the item data and the quantity the operator set. */
  datatype ProposalLine = ProposalLine(id: string, itemData: FullItemData, modifiedQty: int)

  datatype ArchivedProposalLine = ArchivedProposalLine(
    itemId: string,
    code: string,
    precodice: Option<string>,
    description: Option<string>,
    supplier: Option<string>,
    orderedQty: int)

  datatype ArchivedProposal = ArchivedProposal(
    id: string,
    proposalDate: string,
    createdBy: string,
    itemsCount: int,
    lines: seq<ArchivedProposalLine>)
}
