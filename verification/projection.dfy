/** The payable projection engine (`get_total_effective_payables`): partition the
    supplier timeline of an order into fulfillment instances, take each instance's
    latest snapshot, select its obligation lines by status, and net them per party. */
module Projection {
  import opened Wrappers
  import opened Seqs
  import opened Facts
  import opened StatusRules
  import LatestState

  // ---------------------------------------------------------------------------
  // Partitioning

  /** `COALESCE(fulfillment_instance_id, '__BOOKING_LEVEL__')`, the key the SQL uses. */
  function InstanceKey(fid: Option<string>): string {
    fid.GetOr(BookingLevel)
  }

  /** The key the Python loop passes to the line queries: any falsy id (NULL or the empty
      string) becomes the booking-level sentinel. */
  function LookupKey(fid: Option<string>): string {
    if fid.None? || fid.value == "" then BookingLevel else fid.value
  }

  /** SQL `=` on nullable text: NULL equals nothing, not even NULL. */
  predicate SqlEq(a: Option<string>, b: Option<string>) {
    a.Some? && b.Some? && a.value == b.value
  }

  /** The `PARTITION BY` key of the timeline (the order id is fixed by the `WHERE`).
      A NULL reference is a value of its own here: window partitions group NULLs together. */
  datatype PartitionKey = PartitionKey(orderDetailId: string, supplierReferenceId: Option<string>, instance: string)

  function PartitionOf(e: TimelineEntry): PartitionKey {
    PartitionKey(e.orderDetailId, e.supplierReferenceId, InstanceKey(e.fulfillmentInstanceId))
  }

  /** The latest row of each listed partition, in the order the keys are listed. */
  function LatestPerPartition(rows: seq<TimelineEntry>, ks: seq<PartitionKey>): (r: seq<TimelineEntry>)
    requires forall k :: k in ks ==> k in Keys(rows, PartitionOf)
    ensures |r| == |ks|
    ensures forall i :: 0 <= i < |ks| ==> r[i] in rows && PartitionOf(r[i]) == ks[i]
    ensures forall i, e :: 0 <= i < |ks| && e in rows && PartitionOf(e) == ks[i] ==> e.version <= r[i].version
  {
    if |ks| == 0 then []
    else
      var k := ks[|ks| - 1];
      var g := WithKey(rows, PartitionOf, k);
      assert |g| > 0 by {
        assert k in ks;
        var y := KeyHasElement(rows, PartitionOf, k);
      }
      var j := LatestIndex(g, EntryVersion);
      assert g[j] in g;
      LatestPerPartition(rows, ks[..|ks| - 1]) + [g[j]]
  }

  /** The timeline rows of one order. */
  function OrderRows(timeline: seq<TimelineEntry>, orderId: string): (r: seq<TimelineEntry>)
    ensures forall e :: e in r <==> e in timeline && e.orderId == orderId
  {
    Filter(timeline, (e: TimelineEntry) => e.orderId == orderId)
  }

  /** Some row of `r` belongs to partition `p`. */
  predicate HasPartition(r: seq<TimelineEntry>, p: PartitionKey) {
    exists i :: 0 <= i < |r| && PartitionOf(r[i]) == p
  }

  /** Every partition of `rows` has its latest row among the latest rows of the distinct partitions. */
  lemma {:induction false} EveryPartitionListed(rows: seq<TimelineEntry>, e: TimelineEntry)
    requires e in rows
    ensures HasPartition(LatestPerPartition(rows, Distinct(Keys(rows, PartitionOf))), PartitionOf(e))
  {
    var ks := Distinct(Keys(rows, PartitionOf));
    var r := LatestPerPartition(rows, ks);
    KeyInKeys(rows, PartitionOf, e);
    assert PartitionOf(e) in ks;
    var i :| 0 <= i < |ks| && ks[i] == PartitionOf(e);
    assert PartitionOf(r[i]) == PartitionOf(e);
  }

  /** Distinct keys give rows of distinct partitions. */
  lemma {:induction false} LatestPerPartitionDistinct(rows: seq<TimelineEntry>, ks: seq<PartitionKey>)
    requires forall k :: k in ks ==> k in Keys(rows, PartitionOf)
    requires NoDups(ks)
    ensures forall i, j :: 0 <= i < j < |ks| ==>
      PartitionOf(LatestPerPartition(rows, ks)[i]) != PartitionOf(LatestPerPartition(rows, ks)[j])
  {
  }

  /** Step 1: the `ROW_NUMBER() ... rn = 1` query. One latest snapshot per distinct
      (order detail, supplier reference, instance-or-sentinel) of the order. */
  function LatestStatuses(timeline: seq<TimelineEntry>, orderId: string): (r: seq<TimelineEntry>)
    ensures forall i :: 0 <= i < |r| ==> r[i] in timeline && r[i].orderId == orderId
    ensures forall i, e :: 0 <= i < |r| && e in timeline && e.orderId == orderId && PartitionOf(e) == PartitionOf(r[i]) ==>
      e.version <= r[i].version
    ensures forall i, j :: 0 <= i < j < |r| ==> PartitionOf(r[i]) != PartitionOf(r[j])
    ensures forall e :: e in timeline && e.orderId == orderId ==> HasPartition(r, PartitionOf(e))
  {
    var rows := OrderRows(timeline, orderId);
    var ks := Distinct(Keys(rows, PartitionOf));
    forall e | e in rows ensures HasPartition(LatestPerPartition(rows, ks), PartitionOf(e)) {
      EveryPartitionListed(rows, e);
    }
    LatestPerPartitionDistinct(rows, ks);
    LatestPerPartition(rows, ks)
  }

  // ---------------------------------------------------------------------------
  // Obligation selection

  /** The `WHERE` shared by every line query of one instance: same order and order detail,
      the same supplier reference under SQL equality, and the instance key. */
  predicate InInstance(l: PayableLine, orderId: string, e: TimelineEntry) {
    && l.orderId == orderId
    && l.orderDetailId == e.orderDetailId
    && SqlEq(l.supplierReferenceId, e.supplierReferenceId)
    && InstanceKey(l.fulfillmentInstanceId) == LookupKey(e.fulfillmentInstanceId)
  }

  /** The payable lines of the instance whose latest snapshot is `e`. */
  function InstanceLines(lines: seq<PayableLine>, orderId: string, e: TimelineEntry): (r: seq<PayableLine>)
    ensures forall l :: l in r <==> l in lines && InInstance(l, orderId, e)
    ensures forall l :: multiset(r)[l] == if InInstance(l, orderId, e) then multiset(lines)[l] else 0
  {
    var inInstance := (l: PayableLine) => InInstance(l, orderId, e);
    FilterMultiset(lines, inInstance);
    Filter(lines, inInstance)
  }

  /** The `(party_id, obligation_type)` pair the active projection groups by. */
  function PartyObligation(l: PayableLine): (string, string) {
    (l.partyId, l.obligationType)
  }

  /** `l` is at the greatest timeline version (>= 1) of its party and obligation type. */
  ghost predicate LatestOfPair(l: PayableLine, ls: seq<PayableLine>) {
    forall m :: m in ls && m.version >= 1 && PartyObligation(m) == PartyObligation(l) ==> m.version <= l.version
  }

  /** Step 2, active statuses: the `latest_per_party` join. Every line at the greatest
      timeline version of its own (party, obligation type) pair; lines sharing that pair
      and version are all kept. */
  function ActiveProjection(ls: seq<PayableLine>): (r: seq<PayableLine>)
    ensures forall l :: l in r <==> l in ls && l.version >= 1 && LatestOfPair(l, ls)
    ensures forall l :: multiset(r)[l] == if l.version >= 1 && LatestOfPair(l, ls) then multiset(ls)[l] else 0
  {
    var timelineLinked := (l: PayableLine) => l.version >= 1;
    var linked := Filter(ls, timelineLinked);
    FilterMultiset(ls, timelineLinked);
    var r := LatestState.LatestView(linked, PartyObligation, LineVersion);
    LatestOfLinked(ls, linked, r);
    r
  }

  /** The latest view of the timeline-linked lines keeps, as often as they occur, exactly
      the linked lines at the greatest version of their own pair. */
  lemma LatestOfLinked(ls: seq<PayableLine>, linked: seq<PayableLine>, r: seq<PayableLine>)
    requires forall l :: l in linked <==> l in ls && l.version >= 1
    requires forall l :: multiset(linked)[l] == if l.version >= 1 then multiset(ls)[l] else 0
    requires forall l :: l in r <==> l in linked && LatestState.IsGroupLatest(l, linked, PartyObligation, LineVersion)
    requires forall l :: multiset(r)[l] == if LatestState.IsGroupLatest(l, linked, PartyObligation, LineVersion)
                                           then multiset(linked)[l] else 0
    ensures forall l :: l in r <==> l in ls && l.version >= 1 && LatestOfPair(l, ls)
    ensures forall l :: multiset(r)[l] == if l.version >= 1 && LatestOfPair(l, ls) then multiset(ls)[l] else 0
  {
    forall l | l in linked
      ensures LatestState.IsGroupLatest(l, linked, PartyObligation, LineVersion) <==> LatestOfPair(l, ls)
    {
    }
    forall l ensures multiset(r)[l] == if l.version >= 1 && LatestOfPair(l, ls) then multiset(ls)[l] else 0 {
      if l !in linked {
        assert multiset(linked)[l] == 0;
        assert l.version >= 1 ==> multiset(ls)[l] == 0;
      }
    }
  }

  /** Step 2, cancelled or unknown statuses: when the instance's own latest version has
      lines, exactly those lines (they replace, not join, the earlier ones); otherwise
      nothing. */
  function CancelledProjection(ls: seq<PayableLine>, latestVersion: int): (r: seq<PayableLine>)
    ensures forall l :: l in r <==> l in ls && l.version == latestVersion
    ensures r == [] <==> forall l :: l in ls ==> l.version != latestVersion
    ensures forall l :: multiset(r)[l] == if l.version == latestVersion then multiset(ls)[l] else 0
  {
    var hasLinesInLatestVersion := exists l | l in ls :: l.version == latestVersion;
    if hasLinesInLatestVersion then
      FilterMultiset(ls, AtVersion(latestVersion));
      Filter(ls, AtVersion(latestVersion))
    else []
  }

  /** The test `line.version == v`. */
  function AtVersion(v: int): PayableLine -> bool {
    (l: PayableLine) => l.version == v
  }

  /** Step 3: the standalone adjustments, included whatever the status. */
  function Standalone(ls: seq<PayableLine>): (r: seq<PayableLine>)
    ensures forall l :: l in r <==> l in ls && l.version == StandaloneVersion
    ensures forall l :: multiset(r)[l] == if l.version == StandaloneVersion then multiset(ls)[l] else 0
  {
    FilterMultiset(ls, AtVersion(StandaloneVersion));
    Filter(ls, AtVersion(StandaloneVersion))
  }

  /** Step 2 by status: the timeline-linked obligations of the instance. */
  function TimelineObligations(ls: seq<PayableLine>, e: TimelineEntry, includeTimeline: bool): seq<PayableLine> {
    if includeTimeline then ActiveProjection(ls) else CancelledProjection(ls, e.version)
  }

  /** Step 4: timeline-linked obligations followed by the standalone ones. */
  function Obligations(ls: seq<PayableLine>, e: TimelineEntry): (r: seq<PayableLine>)
    ensures forall l :: l in ls && l.version == StandaloneVersion ==> l in r
    ensures forall l :: l in r ==> l in ls
    ensures IsActiveStatus(e.status) ==>
      forall l :: l in r <==> l in ls && (l.version == StandaloneVersion || (l.version >= 1 && LatestOfPair(l, ls)))
    ensures !IsActiveStatus(e.status) ==>
      forall l :: l in r <==> l in ls && (l.version == StandaloneVersion || l.version == e.version)
    ensures IsActiveStatus(e.status) ==>
      forall l :: multiset(r)[l] == (if l.version >= 1 && LatestOfPair(l, ls) then multiset(ls)[l] else 0)
                                    + (if l.version == StandaloneVersion then multiset(ls)[l] else 0)
    ensures !IsActiveStatus(e.status) ==>
      forall l :: multiset(r)[l] == (if l.version == e.version then multiset(ls)[l] else 0)
                                    + (if l.version == StandaloneVersion then multiset(ls)[l] else 0)
  {
    TimelineObligations(ls, e, StatusBaseline(e).includeTimeline) + Standalone(ls)
  }

  // ---------------------------------------------------------------------------
  // Per-party netting

  /** A line's signed contribution: INCREASES_PAYABLE adds, DECREASES_PAYABLE subtracts,
      any other effect adds nothing. */
  function Signed(l: PayableLine): int {
    if l.amountEffect == Increases then l.amount
    else if l.amountEffect == Decreases then -l.amount
    else 0
  }

  /** Net adjustment of a list of obligations. */
  function Net(ls: seq<PayableLine>): int {
    SumBy(ls, Signed)
  }

  /** One party of an instance's breakdown. */
  datatype PartyPayable = PartyPayable(
    partyId: string,
    partyType: Option<string>,
    partyName: Option<string>,
    baseline: int,
    reason: BaselineReason,
    obligations: seq<PayableLine>,
    adjustment: int,
    total: int,
    currency: Option<string>)

  function PartyTotal(p: PartyPayable): int { p.total }
  function PartyIdOf(p: PartyPayable): string { p.partyId }

  /** The supplier's entry: always present, named after the supplier id, with the
      baseline plus its own net adjustment. */
  function SupplierParty(e: TimelineEntry, obligations: seq<PayableLine>, b: Baseline): (p: PartyPayable)
    ensures p.partyId == e.supplierId
    ensures p.partyType == Some("SUPPLIER") && p.partyName == Some(e.supplierId) && p.baseline == b.amount
    ensures forall l :: l in p.obligations <==> l in obligations && l.partyId == e.supplierId
    ensures forall l :: multiset(p.obligations)[l] == if l.partyId == e.supplierId then multiset(obligations)[l] else 0
    ensures p.total == b.amount + Net(p.obligations)
    ensures p.total == b.amount + Net(WithKey(obligations, LinePartyId, e.supplierId))
  {
    var mine := WithKey(obligations, LinePartyId, e.supplierId);
    WithKeyMultiset(obligations, LinePartyId, e.supplierId);
    var adjustment := Net(mine);
    PartyPayable(e.supplierId, Some("SUPPLIER"), Some(e.supplierId), b.amount, b.reason, mine, adjustment,
                 b.amount + adjustment, e.currency)
  }

  /** A non-supplier party's entry: no baseline, its total is its net adjustment, and its
      type and name are those of its last obligation (the dict entry is overwritten).
      Entries are only made for ids carried by some obligation; an id without one would
      get no type and no name. */
  function OtherParty(e: TimelineEntry, obligations: seq<PayableLine>, partyId: string): (p: PartyPayable)
    ensures p.partyId == partyId && p.baseline == 0
    ensures forall l :: l in p.obligations <==> l in obligations && l.partyId == partyId
    ensures forall l :: multiset(p.obligations)[l] == if l.partyId == partyId then multiset(obligations)[l] else 0
    ensures p.total == p.adjustment == Net(p.obligations)
    ensures forall i :: LastOfParty(obligations, partyId, i) ==>
      p.partyType == obligations[i].partyType && p.partyName == obligations[i].partyName
  {
    var mine := WithKey(obligations, LinePartyId, partyId);
    WithKeyMultiset(obligations, LinePartyId, partyId);
    assert forall i :: LastOfParty(obligations, partyId, i) ==> |mine| > 0 && mine[|mine| - 1] == obligations[i] by {
      forall i | LastOfParty(obligations, partyId, i) ensures |mine| > 0 && mine[|mine| - 1] == obligations[i] {
        WithKeyLast(obligations, LinePartyId, partyId, i);
      }
    }
    var partyType := if |mine| == 0 then None else mine[|mine| - 1].partyType;
    var partyName := if |mine| == 0 then None else mine[|mine| - 1].partyName;
    PartyPayable(partyId, partyType, partyName, 0, NoBaselineNonSupplier, mine, Net(mine), Net(mine), e.currency)
  }

  /** Obligation `i` is the last one of party `partyId`: the one whose type and name the
      party's entry keeps. */
  ghost predicate LastOfParty(obligations: seq<PayableLine>, partyId: string, i: int) {
    && 0 <= i < |obligations|
    && obligations[i].partyId == partyId
    && forall j :: i < j < |obligations| ==> obligations[j].partyId != partyId
  }

  /** The entry of a non-supplier party, as a function of its id. */
  function PartyEntry(e: TimelineEntry, obligations: seq<PayableLine>): string -> PartyPayable {
    partyId => OtherParty(e, obligations, partyId)
  }

  /** The entries of the listed non-supplier parties, in the listed order. */
  function OtherParties(e: TimelineEntry, obligations: seq<PayableLine>, ids: seq<string>): (r: seq<PartyPayable>)
    ensures |r| == |ids|
    ensures forall i :: 0 <= i < |ids| ==> r[i] == OtherParty(e, obligations, ids[i])
  {
    Map(ids, PartyEntry(e, obligations))
  }

  /** The total of one non-supplier party is the net of its group of obligations. */
  lemma OtherPartyTotal(e: TimelineEntry, obligations: seq<PayableLine>, partyId: string)
    ensures OtherParty(e, obligations, partyId).total == SumBy(WithKey(obligations, LinePartyId, partyId), Signed)
  {
  }

  /** The listed parties' totals add up to the grouped net of their obligations. */
  lemma {:induction false} OtherPartiesSum(e: TimelineEntry, obligations: seq<PayableLine>, ids: seq<string>)
    ensures SumBy(OtherParties(e, obligations, ids), PartyTotal) == SumOverGroups(obligations, LinePartyId, Signed, ids)
  {
    if |ids| > 0 {
      var front, k := ids[..|ids| - 1], ids[|ids| - 1];
      MapSnoc(ids, PartyEntry(e, obligations));
      OtherPartiesSum(e, obligations, front);
      SumBySnoc(OtherParties(e, obligations, front), OtherParty(e, obligations, k), PartyTotal);
      OtherPartyTotal(e, obligations, k);
    }
  }

  /** The non-supplier party ids, in order of first appearance among the obligations. */
  function OtherPartyIds(e: TimelineEntry, obligations: seq<PayableLine>): (ids: seq<string>)
    ensures NoDups(ids)
    ensures forall p :: p in ids <==> p != e.supplierId && exists l :: l in obligations && l.partyId == p
    ensures InFirstAppearanceOrder(ids, Keys(obligations, LinePartyId))
  {
    var keys := Keys(obligations, LinePartyId);
    var ids := Remove(Distinct(keys), e.supplierId);
    assert InFirstAppearanceOrder(ids, keys) by {
      DistinctInOrder(keys);
      RemoveKeepsOrder(Distinct(keys), e.supplierId, keys);
    }
    PartyIdKeys(obligations);
    ids
  }

  /** The party ids listed in `Keys` are those some obligation carries. */
  lemma PartyIdKeys(obligations: seq<PayableLine>)
    ensures forall p :: p in Keys(obligations, LinePartyId) <==> exists l :: l in obligations && l.partyId == p
  {
    forall p ensures p in Keys(obligations, LinePartyId) <==> exists l :: l in obligations && l.partyId == p {
      if exists l :: l in obligations && l.partyId == p {
        var l :| l in obligations && l.partyId == p;
        KeyInKeys(obligations, LinePartyId, l);
      }
    }
  }

  /** Steps 5 and 6 for one instance: the breakdown with the supplier first. */
  function Parties(e: TimelineEntry, obligations: seq<PayableLine>, b: Baseline): (r: seq<PartyPayable>)
    ensures |r| >= 1 && r[0] == SupplierParty(e, obligations, b)
    ensures r[1..] == OtherParties(e, obligations, OtherPartyIds(e, obligations))
    ensures SumBy(r, PartyTotal) == b.amount + Net(obligations)
  {
    var ids := OtherPartyIds(e, obligations);
    var others := OtherParties(e, obligations, ids);
    var r := [SupplierParty(e, obligations, b)] + others;
    assert SumBy(r, PartyTotal) == b.amount + Net(obligations) by {
      SumByAppend([SupplierParty(e, obligations, b)], others, PartyTotal);
      OtherPartiesSum(e, obligations, ids);
      assert [SupplierParty(e, obligations, b)][..0] == [];
      var all := Distinct(Keys(obligations, LinePartyId));
      GroupSumsConserve(obligations, LinePartyId, Signed);
      SumOverGroupsRemove(obligations, LinePartyId, Signed, all, e.supplierId);
      if e.supplierId !in all {
        WithKeyAbsent(obligations, LinePartyId, e.supplierId);
      }
    }
    assert r[1..] == others;
    r
  }

  // ---------------------------------------------------------------------------
  // The whole projection

  /** One element of the result: the breakdown of one fulfillment instance. */
  datatype InstancePayable = InstancePayable(
    orderDetailId: string,
    supplierReferenceId: Option<string>,
    fulfillmentInstanceId: Option<string>,
    supplierId: string,
    status: Option<string>,
    baseline: int,
    amountBasis: Option<string>,
    reason: BaselineReason,
    currency: Option<string>,
    parties: seq<PartyPayable>,
    obligations: seq<PayableLine>,
    total: int)

  /** Steps 2 to 6 for the instance whose latest snapshot is `e`. The total is the
      baseline plus the net of every selected obligation, whichever party owns it. */
  function ProjectInstance(e: TimelineEntry, lines: seq<PayableLine>, orderId: string): (r: InstancePayable)
    ensures forall l :: l in r.obligations ==> l in lines && InInstance(l, orderId, e)
    ensures r.total == r.baseline + Net(r.obligations)
    ensures |r.parties| >= 1 && r.parties[0].partyId == e.supplierId
    ensures r.parties[0].total == r.baseline + Net(WithKey(r.obligations, LinePartyId, e.supplierId))
    ensures r.baseline == FinalBaseline(e, WithKey(r.obligations, LinePartyId, e.supplierId)).amount
  {
    var ls := InstanceLines(lines, orderId, e);
    var obligations := Obligations(ls, e);
    var b := FinalBaseline(e, WithKey(obligations, LinePartyId, e.supplierId));
    var parties := Parties(e, obligations, b);
    InstancePayable(e.orderDetailId, e.supplierReferenceId, e.fulfillmentInstanceId, e.supplierId, e.status,
                    b.amount, e.amountBasis, b.reason, e.currency, parties, obligations, SumBy(parties, PartyTotal))
  }

  /** `get_total_effective_payables(order_id)`: one breakdown per fulfillment instance of
      the order, each computed from that instance's latest snapshot. */
  function TotalEffectivePayables(timeline: seq<TimelineEntry>, lines: seq<PayableLine>, orderId: string): (r: seq<InstancePayable>)
    ensures |r| == |LatestStatuses(timeline, orderId)|
    ensures forall i :: 0 <= i < |r| ==> r[i] == ProjectInstance(LatestStatuses(timeline, orderId)[i], lines, orderId)
  {
    ProjectAll(LatestStatuses(timeline, orderId), lines, orderId)
  }

  /** One breakdown per latest snapshot, in the snapshots' order. */
  function ProjectAll(statuses: seq<TimelineEntry>, lines: seq<PayableLine>, orderId: string): (r: seq<InstancePayable>)
    ensures |r| == |statuses|
    ensures forall i :: 0 <= i < |r| ==> r[i] == ProjectInstance(statuses[i], lines, orderId)
  {
    seq(|statuses|, i requires 0 <= i < |statuses| => ProjectInstance(statuses[i], lines, orderId))
  }
}
