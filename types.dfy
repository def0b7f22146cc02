/** The records of presupuestos/types.ts. */
module Types {
  import opened Wrappers

  /** One row of work. The optional numbers are `undefined` in JavaScript when
      absent; `totalPrice` is filled in by the extraction post-processing. */
  datatype BudgetLine = BudgetLine(
    description: string,
    units: Option<real>,
    unitPrice: Option<real>,
    totalPrice: Option<real>)

  /** The canonical extraction result. `notes` is not declared in the
      interface but the extraction returns it alongside the declared fields. */
  datatype BudgetData = BudgetData(
    budgetNumber: string,
    client: string,
    date: string,
    lines: seq<BudgetLine>,
    subtotal: real,
    iva: real,
    total: real,
    notes: Option<string>)

  /** A history snapshot of one extraction. */
  datatype HistoryItem = HistoryItem(
    id: string,
    timestamp: string,
    client: string,
    total: real,
    data: BudgetData)
}
