/** How a supplier status determines the baseline payable: the status table of the
    payable projection, its legacy cancellation-fee fallback, and the older
    status-to-effective-payable mapping used by the per-supplier reports. */
module StatusRules {
  import opened Wrappers
  import opened Facts

  /** The statuses under which the supplier is owed the snapshot amount and the
      timeline-linked obligations stay in force. */
  predicate IsActiveStatus(status: Option<string>) {
    status == Some("Confirmed") || status == Some("ISSUED") || status == Some("Invoiced") || status == Some("Settled")
  }

  /** Why the baseline has its value (the source renders these as sentences). */
  datatype BaselineReason =
    | SupplierCost            // an active status: the snapshot amount
    | CancelledFeeInLines     // CancelledWithFee: the fee is expected as a CANCELLATION_FEE line
    | CancelledWithoutFee     // CancelledNoFee or Voided
    | UnknownStatus           // any other status, NULL included
    | LegacyCancellationFee   // CancelledWithFee whose fee only exists in the deprecated column
    | NoBaselineNonSupplier   // a party other than the supplier

  /** The baseline amount, its reason, and whether timeline-linked obligations are included. */
  datatype Baseline = Baseline(amount: int, reason: BaselineReason, includeTimeline: bool)

  /** The status table: active statuses give the snapshot amount (NULL read as 0) and keep
      the timeline obligations; every other status, unknown ones included, gives 0 and
      drops them. */
  function StatusBaseline(e: TimelineEntry): (b: Baseline)
    ensures b.includeTimeline <==> IsActiveStatus(e.status)
    ensures IsActiveStatus(e.status) ==> b.amount == e.amount.GetOr(0) && b.reason == SupplierCost
    ensures !IsActiveStatus(e.status) ==> b.amount == 0
    ensures b.reason == CancelledFeeInLines <==> e.status == Some("CancelledWithFee")
    ensures b.reason == CancelledWithoutFee <==> e.status == Some("CancelledNoFee") || e.status == Some("Voided")
  {
    if IsActiveStatus(e.status) then Baseline(e.amount.GetOr(0), SupplierCost, true)
    else if e.status == Some("CancelledWithFee") then Baseline(0, CancelledFeeInLines, false)
    else if e.status == Some("CancelledNoFee") || e.status == Some("Voided") then Baseline(0, CancelledWithoutFee, false)
    else Baseline(0, UnknownStatus, false)
  }

  /** Some obligation of the supplier is a CANCELLATION_FEE line. */
  predicate HasCancellationFeeLine(supplierObligations: seq<PayableLine>) {
    exists l :: l in supplierObligations && l.obligationType == CancellationFee
  }

  /** The legacy fallback applies: a CancelledWithFee snapshot with a positive
      `cancellation_fee_amount` and no CANCELLATION_FEE line among the supplier's obligations. */
  predicate LegacyFeeApplies(e: TimelineEntry, supplierObligations: seq<PayableLine>) {
    && e.status == Some("CancelledWithFee")
    && e.cancellationFeeAmount.Some?
    && e.cancellationFeeAmount.value > 0
    && !HasCancellationFeeLine(supplierObligations)
  }

  /** The baseline after the legacy fallback: the deprecated fee column replaces the
      zero baseline of CancelledWithFee only when no fee line exists. */
  function FinalBaseline(e: TimelineEntry, supplierObligations: seq<PayableLine>): (b: Baseline)
    ensures b.includeTimeline == StatusBaseline(e).includeTimeline
    ensures LegacyFeeApplies(e, supplierObligations) ==>
      b.amount == e.cancellationFeeAmount.value && b.reason == LegacyCancellationFee
    ensures !LegacyFeeApplies(e, supplierObligations) ==> b == StatusBaseline(e)
    ensures b.amount >= 0 || (IsActiveStatus(e.status) && b.amount == e.amount.value)
  {
    var b := StatusBaseline(e);
    if LegacyFeeApplies(e, supplierObligations) then
      Baseline(e.cancellationFeeAmount.value, LegacyCancellationFee, b.includeTimeline)
    else b
  }

  /** The `CASE` of the per-supplier reports: active statuses owe the snapshot amount,
      CancelledWithFee owes the fee column, everything else owes nothing (NULL read as 0). */
  function EffectivePayable(e: TimelineEntry): (r: int)
    ensures IsActiveStatus(e.status) ==> r == e.amount.GetOr(0)
    ensures e.status == Some("CancelledWithFee") ==> r == e.cancellationFeeAmount.GetOr(0)
    ensures !IsActiveStatus(e.status) && e.status != Some("CancelledWithFee") ==> r == 0
  {
    if IsActiveStatus(e.status) then e.amount.GetOr(0)
    else if e.status == Some("CancelledWithFee") then e.cancellationFeeAmount.GetOr(0)
    else 0
  }

  /** The report mapping and the projection's baseline disagree exactly on a
      CancelledWithFee snapshot whose non-zero fee column is negative or is already
      covered by a CANCELLATION_FEE line of the supplier. */
  lemma EffectivePayableVersusBaseline(e: TimelineEntry, supplierObligations: seq<PayableLine>)
    ensures EffectivePayable(e) != FinalBaseline(e, supplierObligations).amount <==>
      && e.status == Some("CancelledWithFee")
      && e.cancellationFeeAmount.GetOr(0) != 0
      && (e.cancellationFeeAmount.GetOr(0) < 0 || HasCancellationFeeLine(supplierObligations))
  {
  }
}
