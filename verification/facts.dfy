/** The append-only fact records the projections read. Only the columns some projection
    looks at are kept; nullable columns are `Option`s. */
module Facts {
  import opened Wrappers

  /** One row of `supplier_timeline`: a versioned snapshot of a supplier's status for
      one order detail (and, for multi-redemption products, one fulfillment instance). */
  datatype TimelineEntry = TimelineEntry(
    orderId: string,
    orderDetailId: string,
    version: int,
    supplierId: string,
    supplierReferenceId: Option<string>,
    fulfillmentInstanceId: Option<string>,
    status: Option<string>,
    amount: Option<int>,
    amountBasis: Option<string>,
    cancellationFeeAmount: Option<int>,
    currency: Option<string>)

  /** One row of `supplier_payable_lines`: an obligation owed to (or retained from) one
      party. `version` is the supplier timeline version the line belongs to, or
      `StandaloneVersion` for an adjustment that does not depend on any status. */
  datatype PayableLine = PayableLine(
    orderId: string,
    orderDetailId: string,
    supplierReferenceId: Option<string>,
    fulfillmentInstanceId: Option<string>,
    version: int,
    obligationType: string,
    partyType: Option<string>,
    partyId: string,
    partyName: Option<string>,
    amount: int,
    amountEffect: string,
    currency: string)

  /** One row of `pricing_components_fact`. `dimensions` is the decoded JSON object,
      in its key order. */
  datatype PricingComponent = PricingComponent(
    semanticId: string,
    instanceId: string,
    orderId: string,
    snapshotId: string,
    version: int,
    componentType: string,
    amount: int,
    currency: string,
    dimensions: seq<(string, string)>,
    isRefund: bool,
    refundOf: Option<string>)

  /** One row of `payment_timeline`. */
  datatype PaymentEntry = PaymentEntry(eventId: string, orderId: string, timelineVersion: int, status: string)

  /** One row of `refund_timeline`. */
  datatype RefundEntry = RefundEntry(eventId: string, orderId: string, refundId: string, refundTimelineVersion: int, status: string)

  /** The version a standalone payable line carries. */
  const StandaloneVersion: int := -1

  /** The string `COALESCE(fulfillment_instance_id, ...)` puts in place of a NULL id. */
  const BookingLevel: string := "__BOOKING_LEVEL__"

  const Increases: string := "INCREASES_PAYABLE"
  const Decreases: string := "DECREASES_PAYABLE"
  const CancellationFee: string := "CANCELLATION_FEE"

  /** The column accessors the generic combinators take. */
  function EntryVersion(e: TimelineEntry): int { e.version }
  function LineVersion(l: PayableLine): int { l.version }
  function LinePartyId(l: PayableLine): string { l.partyId }
  function ComponentVersion(c: PricingComponent): int { c.version }
  function ComponentAmount(c: PricingComponent): int { c.amount }
}
