/** What the services share. */
module Common {
  import Quantities

  datatype Option<+T> = None | Some(value: T)

  /** What a message consumer answers the broker. */
  datatype ConsumeResult = ConsumeSuccess | ConsumeRetryLater

  /** A row of the stock service's ledger: what an order was sold, and whether it was given back. */
  datatype Status = HasSell | HasBack

  datatype StockItemDetail = StockItemDetail(status: Status, details: seq<Quantities.Line>)

  type LedgerTable = map<string, StockItemDetail>  // order number to its row
}
