/** The documented lifecycle scenarios of the payable projection, worked through the model:
    an issued booking with three obligations, its cancellation with and without later
    lines, a standalone penalty after cancellation, and a pass with two redemptions. */
module Scenarios {
  import opened Wrappers
  import opened Seqs
  import opened Facts
  import opened StatusRules
  import opened Projection
  import opened ProjectionProperties

  function Snapshot(orderId: string, detailId: string, fid: Option<string>, version: int, status: string,
                    amount: int, fee: Option<int>): TimelineEntry {
    TimelineEntry(orderId, detailId, version, "AGODA", Some("REF-1"), fid, Some(status), Some(amount), Some("gross"), fee, Some("IDR"))
  }

  /** A line of the example bookings; the supplier `AGODA` is a supplier party, every
      other party an affiliate. */
  function Line(orderId: string, detailId: string, version: int, obligationType: string, partyId: string,
                amount: int, effect: string): PayableLine {
    var partyType := if partyId == "AGODA" then "SUPPLIER" else "AFFILIATE";
    PayableLine(orderId, detailId, Some("REF-1"), None, version, obligationType, Some(partyType), partyId, Some(partyId),
                amount, effect, "IDR")
  }

  // ---------------------------------------------------------------------------
  // Order ORD-9001

  const Issued: TimelineEntry := Snapshot("ORD-9001", "OD-001", None, 1, "ISSUED", 300000, None)
  const Cancelled: TimelineEntry := Snapshot("ORD-9001", "OD-001", None, 2, "CancelledWithFee", 300000, Some(50000))

  /** The lines of the issued event: a commission the supplier retains, and the
      affiliate's commission with its VAT. */
  const Retention: PayableLine := Line("ORD-9001", "OD-001", 1, "SUPPLIER_COMMISSION", "AGODA", 45000, Decreases)
  const Commission: PayableLine := Line("ORD-9001", "OD-001", 1, "AFFILIATE_COMMISSION", "100005361", 4694, Increases)
  const Vat: PayableLine := Line("ORD-9001", "OD-001", 1, "VAT", "100005361", 516, Increases)
  const IssuedLines: seq<PayableLine> := [Retention, Commission, Vat]

  /** The issued lines all belong to the booking-level instance of OD-001. */
  lemma IssuedLinesInInstance(e: TimelineEntry)
    requires e.orderId == "ORD-9001" && e.orderDetailId == "OD-001"
    requires e.supplierReferenceId == Some("REF-1") && e.fulfillmentInstanceId == None
    ensures InstanceLines(IssuedLines, "ORD-9001", e) == IssuedLines
  {
    assert forall l :: l in IssuedLines ==> l == Retention || l == Commission || l == Vat;
    FilterAll(IssuedLines, (l: PayableLine) => InInstance(l, "ORD-9001", e));
  }

  /** The net of the issued lines: -45000 + 4694 + 516. */
  lemma IssuedLinesNet()
    ensures Net(IssuedLines) == -39790
  {
    assert IssuedLines[..2] == [Retention, Commission];
    assert [Retention, Commission][..1] == [Retention];
    assert [Retention][..0] == [];
    assert Signed(Retention) == -45000;
    assert Signed(Commission) == 4694;
    assert Signed(Vat) == 516;
    assert SumBy([Retention][..0], Signed) == 0;
    assert SumBy([Retention], Signed) == -45000;
    assert Net([Retention]) == -45000;
    assert Net([Retention, Commission]) == -45000 + 4694;
  }

  /** Each (party, obligation type) pair of the issued lines has one version. */
  lemma IssuedLinesActive()
    ensures ActiveProjection(IssuedLines) == IssuedLines
  {
    assert forall l :: l in IssuedLines ==> l == Retention || l == Commission || l == Vat;
    ActiveKeepsSingleVersionPairs(IssuedLines);
  }

  lemma IssuedLinesNotStandalone()
    ensures Standalone(IssuedLines) == []
  {
    assert forall l :: l in IssuedLines ==> l == Retention || l == Commission || l == Vat;
    NoStandaloneLines(IssuedLines);
  }

  /** A penalty recorded outside any status change. */
  const Penalty: PayableLine := Line("ORD-9001", "OD-001", StandaloneVersion, "AFFILIATE_PENALTY", "100005361", 500000, Increases)

  /** Scenario A, partitioning: the issued booking is a single instance. */
  lemma ScenarioAInstances()
    ensures LatestStatuses([Issued], "ORD-9001") == [Issued]
  {
    OnePartitionOneResult([Issued], "ORD-9001", Issued);
  }

  /** Under the issued status every issued line is an obligation. */
  lemma IssuedObligations()
    ensures Obligations(IssuedLines, Issued) == IssuedLines
  {
    assert IsActiveStatus(Issued.status);
    ActiveObligations(IssuedLines, Issued);
    IssuedLinesActive();
    IssuedLinesNotStandalone();
    assert IssuedLines + [] == IssuedLines;
  }

  /** Scenario A, selection: all three issued lines are obligations. */
  lemma ScenarioAObligations()
    ensures ProjectInstance(Issued, IssuedLines, "ORD-9001").obligations == IssuedLines
  {
    IssuedLinesInInstance(Issued);
    IssuedObligations();
    InstanceObligations(Issued, IssuedLines, "ORD-9001");
  }

  /** Scenario A, total: the gross amount, less the retained commission, plus the
      affiliate's commission and VAT: 300000 - 45000 + 4694 + 516. */
  lemma ScenarioATotal()
    ensures ProjectInstance(Issued, IssuedLines, "ORD-9001").total == 260210
  {
    ScenarioAObligations();
    IssuedLinesNet();
  }

  /** Scenario B, partitioning: after the cancellation the instance's latest snapshot is
      the cancelled one. */
  lemma ScenarioBInstances()
    ensures LatestStatuses([Issued, Cancelled], "ORD-9001") == [Cancelled]
  {
    OnePartitionOneResult([Issued, Cancelled], "ORD-9001", Issued);
  }

  /** Scenario B, selection: the cancellation carries no lines, so every timeline
      obligation is dropped. */
  lemma ScenarioBObligations()
    ensures ProjectInstance(Cancelled, IssuedLines, "ORD-9001").obligations == []
  {
    IssuedLinesInInstance(Cancelled);
    assert forall l :: l in IssuedLines ==> l.version == 1;
    CancellationReset(IssuedLines, Cancelled);
    IssuedLinesNotStandalone();
  }

  /** Scenario B, total: with no fee line, the legacy fee column becomes the baseline. */
  lemma ScenarioBTotal()
    ensures ProjectInstance(Cancelled, IssuedLines, "ORD-9001").reason == LegacyCancellationFee
    ensures ProjectInstance(Cancelled, IssuedLines, "ORD-9001").total == 50000
  {
    ScenarioBObligations();
    assert WithKey([], LinePartyId, "AGODA") == [];
    assert LegacyFeeApplies(Cancelled, []);
  }

  /** The penalty follows the issued lines. */
  const PenaltyLines: seq<PayableLine> := [Retention, Commission, Vat, Penalty]

  lemma PenaltyLinesStandalone()
    ensures Standalone(PenaltyLines) == [Penalty]
  {
    assert PenaltyLines == IssuedLines + [Penalty];
    FilterAppend(IssuedLines, [Penalty], (l: PayableLine) => l.version == StandaloneVersion);
    IssuedLinesNotStandalone();
    FilterAll([Penalty], (l: PayableLine) => l.version == StandaloneVersion);
  }

  lemma PenaltyLinesInInstance()
    ensures InstanceLines(PenaltyLines, "ORD-9001", Cancelled) == PenaltyLines
  {
    assert forall l :: l in PenaltyLines ==> l == Retention || l == Commission || l == Vat || l == Penalty;
    FilterAll(PenaltyLines, (l: PayableLine) => InInstance(l, "ORD-9001", Cancelled));
  }

  /** The cancellation carries no lines of its own, so only the penalty is owed. */
  lemma PenaltyObligations()
    ensures Obligations(PenaltyLines, Cancelled) == [Penalty]
  {
    assert forall l :: l in PenaltyLines ==> l.version != Cancelled.version;
    CancellationReset(PenaltyLines, Cancelled);
    PenaltyLinesStandalone();
  }

  /** Scenario C, selection: after the cancellation only the standalone penalty remains. */
  lemma ScenarioCObligations()
    ensures ProjectInstance(Cancelled, PenaltyLines, "ORD-9001").obligations == [Penalty]
  {
    PenaltyLinesInInstance();
    PenaltyObligations();
    InstanceObligations(Cancelled, PenaltyLines, "ORD-9001");
  }

  /** The penalty is the affiliate's, so the legacy fee column is the baseline. */
  lemma ScenarioCBaseline()
    ensures FinalBaseline(Cancelled, WithKey([Penalty], LinePartyId, Cancelled.supplierId)).amount == 50000
  {
    assert Cancelled.supplierId == "AGODA";
    assert WithKey([Penalty], LinePartyId, "AGODA") == [];
    assert LegacyFeeApplies(Cancelled, []);
  }

  lemma PenaltyNet()
    ensures Net([Penalty]) == 500000
  {
    assert [Penalty][..0] == [];
    assert Signed(Penalty) == 500000;
    assert SumBy([Penalty], Signed) == SumBy([], Signed) + Signed(Penalty);
  }

  /** Scenario C, total: the legacy fee plus the penalty owed to the affiliate: 50000 + 500000. */
  lemma ScenarioCTotal()
    ensures ProjectInstance(Cancelled, PenaltyLines, "ORD-9001").total == 550000
  {
    ScenarioCObligations();
    ScenarioCBaseline();
    PenaltyNet();
  }

  // ---------------------------------------------------------------------------
  // Order ORD-9002: a cancellation that re-states the affiliate's obligations

  const IssuedD: TimelineEntry := Snapshot("ORD-9002", "OD-002", None, 1, "ISSUED", 350000, None)
  const CancelledD: TimelineEntry := Snapshot("ORD-9002", "OD-002", None, 2, "CancelledWithFee", 350000, Some(75000))
  const OriginalCommission: PayableLine := Line("ORD-9002", "OD-002", 1, "AFFILIATE_COMMISSION", "100005361", 5000, Increases)
  const AdjustedCommission: PayableLine := Line("ORD-9002", "OD-002", 2, "AFFILIATE_COMMISSION", "100005361", 2000, Increases)
  const AdjustedVat: PayableLine := Line("ORD-9002", "OD-002", 2, "VAT", "100005361", 220, Increases)
  const LinesD: seq<PayableLine> := [OriginalCommission, AdjustedCommission, AdjustedVat]

  /** The cancellation's version carries the adjusted commission and its VAT. */
  lemma LinesDAtCancellation()
    ensures CancelledProjection(LinesD, 2) == [AdjustedCommission, AdjustedVat]
  {
    OneLineReplaced(OriginalCommission, AdjustedCommission, AdjustedVat, 2);
  }

  /** An earlier line followed by two lines of version `v` leaves, at version `v`, just
      the two later lines. */
  lemma OneLineReplaced(earlier: PayableLine, a: PayableLine, b: PayableLine, v: int)
    requires earlier.version != v && a.version == v && b.version == v
    ensures CancelledProjection([earlier, a, b], v) == [a, b]
  {
    DropFirstKeepTwo(earlier, a, b, AtVersion(v));
    assert a in [earlier, a, b];
  }

  lemma DropFirstKeepTwo<T(!new)>(x: T, a: T, b: T, p: T -> bool)
    requires !p(x) && p(a) && p(b)
    ensures Filter([x, a, b], p) == [a, b]
  {
    assert [x, a, b] == [x] + [a, b];
    FilterAppend([x], [a, b], p);
    FilterNone([x], p);
    FilterAll([a, b], p);
    assert [] + [a, b] == [a, b];
  }

  lemma LinesDNotStandalone()
    ensures Standalone(LinesD) == []
  {
    assert forall l :: l in LinesD ==> l == OriginalCommission || l == AdjustedCommission || l == AdjustedVat;
    NoStandaloneLines(LinesD);
  }

  /** Every line of order ORD-9002 belongs to the booking-level instance of OD-002. */
  lemma LinesDInInstance()
    ensures InstanceLines(LinesD, "ORD-9002", CancelledD) == LinesD
  {
    assert forall l :: l in LinesD ==> l == OriginalCommission || l == AdjustedCommission || l == AdjustedVat;
    FilterAll(LinesD, (l: PayableLine) => InInstance(l, "ORD-9002", CancelledD));
  }

  /** Under the cancellation the lines at its own version are the obligations. */
  lemma LinesDObligations()
    ensures Obligations(LinesD, CancelledD) == [AdjustedCommission, AdjustedVat]
  {
    assert Obligations(LinesD, CancelledD) == CancelledProjection(LinesD, 2) + Standalone(LinesD) by {
      assert !IsActiveStatus(CancelledD.status);
      CancelledObligations(LinesD, CancelledD);
    }
    assert CancelledProjection(LinesD, 2) == [AdjustedCommission, AdjustedVat] by {
      LinesDAtCancellation();
    }
    assert Standalone(LinesD) == [] by {
      LinesDNotStandalone();
    }
    assert [AdjustedCommission, AdjustedVat] + [] == [AdjustedCommission, AdjustedVat];
  }

  /** Scenario D, selection: the cancellation's own lines replace the issued commission. */
  lemma ScenarioDObligations()
    ensures ProjectInstance(CancelledD, LinesD, "ORD-9002").obligations == [AdjustedCommission, AdjustedVat]
  {
    LinesDInInstance();
    LinesDObligations();
    InstanceObligations(CancelledD, LinesD, "ORD-9002");
  }

  /** No adjusted line is the supplier's, so the legacy fee column is the baseline. */
  lemma ScenarioDBaseline()
    ensures FinalBaseline(CancelledD, WithKey([AdjustedCommission, AdjustedVat], LinePartyId, "AGODA")).amount == 75000
  {
    var obligations := [AdjustedCommission, AdjustedVat];
    assert forall l :: l in obligations ==> l.partyId != "AGODA";
    WithKeyAbsentByMembership(obligations, "AGODA");
    assert LegacyFeeApplies(CancelledD, []);
  }

  lemma ScenarioDNet()
    ensures Net([AdjustedCommission, AdjustedVat]) == 2220
  {
    assert [AdjustedCommission, AdjustedVat][..1] == [AdjustedCommission];
    assert [AdjustedCommission][..0] == [];
    assert SumBy([AdjustedCommission], Signed) == 2000;
  }

  /** Scenario D, total: the legacy fee plus the adjusted commission and VAT: 75000 + 2000 + 220. */
  lemma ScenarioDTotal()
    ensures ProjectInstance(CancelledD, LinesD, "ORD-9002").total == 77220
  {
    ScenarioDObligations();
    ScenarioDBaseline();
    ScenarioDNet();
  }

  // ---------------------------------------------------------------------------
  // A pass with a booking-level row and two redemptions

  const Booking: TimelineEntry := Snapshot("ORD-PASS", "OD-PASS", None, 1, "ISSUED", 100000, None)
  const Redemption1: TimelineEntry := Snapshot("ORD-PASS", "OD-PASS", Some("ticket_code_1757809185001"), 1, "ISSUED", 50000, None)
  const Redemption2: TimelineEntry := Snapshot("ORD-PASS", "OD-PASS", Some("ticket_code_1757809307001"), 1, "ISSUED", 50000, None)
  const PassTimeline: seq<TimelineEntry> := [Booking, Redemption1, Redemption2]

  /** Two redemptions plus the booking-level row give three independent instances. */
  lemma MultiInstanceCount(lines: seq<PayableLine>)
    ensures |TotalEffectivePayables(PassTimeline, lines, "ORD-PASS")| == 3
  {
    var p0, p1, p2 := PartitionOf(Booking), PartitionOf(Redemption1), PartitionOf(Redemption2);
    assert OrderPartitions(PassTimeline, "ORD-PASS") == {p0, p1, p2} by {
      assert forall e :: e in PassTimeline ==> e == Booking || e == Redemption1 || e == Redemption2;
    }
    assert p0 != p1 && p0 != p2 && p1 != p2 by {
      assert InstanceKey(Redemption1.fulfillmentInstanceId) != InstanceKey(Redemption2.fulfillmentInstanceId);
    }
    assert |{p0, p1, p2}| == 3 by {
      assert {p0, p1, p2} == {p0, p1} + {p2};
      assert {p0, p1} == {p0} + {p1};
    }
    ResultCountIsPartitionCount(PassTimeline, lines, "ORD-PASS");
  }
}
