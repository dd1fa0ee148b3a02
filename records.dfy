/**
 * The raw point-of-sale documents as the bronze layer holds them. Every
 * column may be NULL, so every field is an `Option`; only the fields the
 * transformation reads are modelled.
 */
module PosRecords {
  import opened Options

  /** A sold or returned article (`SalesItem` / `ReturnItem`). */
  datatype Item = Item(
    itemId: Option<string>,
    itemDescription: Option<string>,
    departmentId: Option<string>,
    amount: Option<int>,
    quantity: Option<int>)

  /** One entry of a discount's `ItemList`. */
  datatype DiscountEntry = DiscountEntry(itemId: Option<string>, discountAmount: Option<int>)

  datatype Discount = Discount(itemList: Option<seq<DiscountEntry>>)

  datatype TransactionInfo = TransactionInfo(infoType: Option<string>)

  /**
   * One element of a transaction's `LineItem` array. The kinds are optional
   * sub-objects of one schema rather than a tagged union: any combination
   * may be present, and a NULL array element has none of them.
   */
  datatype LineItem = LineItem(
    salesItem: Option<Item>,
    returnItem: Option<Item>,
    discount: Option<Discount>,
    transactionInfo: Option<TransactionInfo>)

  /** The `after` payload of a change document. */
  datatype Payload = Payload(
    transactionId: Option<string>,
    storeId: Option<string>,
    workstationId: Option<string>,
    operatorId: Option<string>,
    tenderDateTimestamp: Option<int>,   // epoch milliseconds
    lineItem: Option<seq<LineItem>>,
    controlType: Option<string>)

  /** A bronze record; a document without a payload has `after == None`. */
  datatype RawRecord = RawRecord(after: Option<Payload>)

  /** What `select("after.*")` yields for a record whose payload is NULL. */
  const NullPayload := Payload(None, None, None, None, None, None, None)

  /** The transaction-level columns copied onto every exploded line item. */
  datatype Header = Header(
    transactionId: Option<string>,
    storeId: Option<string>,
    workstationId: Option<string>,
    operatorId: Option<string>,
    tenderDateTimestamp: Option<int>)

  function HeaderOf(p: Payload): Header {
    Header(p.transactionId, p.storeId, p.workstationId, p.operatorId, p.tenderDateTimestamp)
  }

  /** A line item marked as voiding its whole transaction. */
  predicate IsCancellation(li: LineItem) {
    li.transactionInfo.Some? && li.transactionInfo.value.infoType == Some("Canceled")
  }

  predicate IsSaleOrReturn(li: LineItem) {
    li.salesItem.Some? || li.returnItem.Some?
  }
}
