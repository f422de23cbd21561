/** Properties of the payable projection that relate several of its steps: partitioning
    into instances, obligation selection by status, per-party netting and the totals. */
module ProjectionProperties {
  import opened Wrappers
  import opened Seqs
  import opened Facts
  import opened StatusRules
  import opened Projection
  import LatestState

  // ---------------------------------------------------------------------------
  // Partitioning

  /** The partition a result element stands for, read back from its own columns. */
  function ResultPartition(p: InstancePayable): PartitionKey {
    PartitionKey(p.orderDetailId, p.supplierReferenceId, InstanceKey(p.fulfillmentInstanceId))
  }

  /** `s` is a row of the order with the greatest version of its partition. */
  ghost predicate IsPartitionLatest(timeline: seq<TimelineEntry>, orderId: string, s: TimelineEntry) {
    && s in timeline && s.orderId == orderId
    && forall f :: f in timeline && f.orderId == orderId && PartitionOf(f) == PartitionOf(s) ==> f.version <= s.version
  }

  /** Result `i` carries the partition and the status of the `i`-th latest status row. */
  lemma {:induction false} ResultsFollowStatuses(timeline: seq<TimelineEntry>, lines: seq<PayableLine>, orderId: string)
    ensures |TotalEffectivePayables(timeline, lines, orderId)| == |LatestStatuses(timeline, orderId)|
    ensures forall i :: 0 <= i < |TotalEffectivePayables(timeline, lines, orderId)| ==>
      && PartitionOf(LatestStatuses(timeline, orderId)[i]) == ResultPartition(TotalEffectivePayables(timeline, lines, orderId)[i])
      && TotalEffectivePayables(timeline, lines, orderId)[i].status == LatestStatuses(timeline, orderId)[i].status
  {
    var r := TotalEffectivePayables(timeline, lines, orderId);
    var s := LatestStatuses(timeline, orderId);
    forall i | 0 <= i < |r| ensures ResultPartition(r[i]) == PartitionOf(s[i]) && r[i].status == s[i].status {
      assert r[i] == ProjectInstance(s[i], lines, orderId);
    }
  }

  /** Each result is computed from a latest row of its partition. */
  lemma {:induction false} ResultsFromLatestRows(timeline: seq<TimelineEntry>, lines: seq<PayableLine>, orderId: string)
    ensures forall i :: 0 <= i < |TotalEffectivePayables(timeline, lines, orderId)| ==>
      IsPartitionLatest(timeline, orderId, LatestStatuses(timeline, orderId)[i])
  {
    var s := LatestStatuses(timeline, orderId);
    forall i | 0 <= i < |s| ensures IsPartitionLatest(timeline, orderId, s[i]) {
    }
  }

  /** The results stand for pairwise different partitions. */
  lemma {:induction false} ResultsDistinct(timeline: seq<TimelineEntry>, lines: seq<PayableLine>, orderId: string)
    ensures forall i, j :: 0 <= i < j < |TotalEffectivePayables(timeline, lines, orderId)| ==>
      ResultPartition(TotalEffectivePayables(timeline, lines, orderId)[i]) !=
      ResultPartition(TotalEffectivePayables(timeline, lines, orderId)[j])
  {
    ResultsFollowStatuses(timeline, lines, orderId);
  }

  /** Every partition of the order's timeline has a result. */
  lemma {:induction false} ResultForEveryPartition(timeline: seq<TimelineEntry>, lines: seq<PayableLine>, orderId: string)
    ensures forall e :: e in timeline && e.orderId == orderId ==>
      exists i :: (0 <= i < |TotalEffectivePayables(timeline, lines, orderId)| &&
        ResultPartition(TotalEffectivePayables(timeline, lines, orderId)[i]) == PartitionOf(e))
  {
    var r := TotalEffectivePayables(timeline, lines, orderId);
    forall e | e in timeline && e.orderId == orderId
      ensures exists i :: 0 <= i < |r| && ResultPartition(r[i]) == PartitionOf(e)
    {
      var i := StatusOfPartition(timeline, orderId, e);
      ResultsFollowStatuses(timeline, lines, orderId);
      assert ResultPartition(r[i]) == PartitionOf(e);
    }
  }

  /** The position of the latest status row standing for the partition of `e`. */
  lemma StatusOfPartition(timeline: seq<TimelineEntry>, orderId: string, e: TimelineEntry) returns (i: nat)
    requires e in timeline && e.orderId == orderId
    ensures i < |LatestStatuses(timeline, orderId)|
    ensures PartitionOf(LatestStatuses(timeline, orderId)[i]) == PartitionOf(e)
  {
    var s := LatestStatuses(timeline, orderId);
    assert HasPartition(s, PartitionOf(e));
    i :| 0 <= i < |s| && PartitionOf(s[i]) == PartitionOf(e);
  }

  /** The partitions of the order's timeline. */
  function OrderPartitions(timeline: seq<TimelineEntry>, orderId: string): set<PartitionKey> {
    set e | e in timeline && e.orderId == orderId :: PartitionOf(e)
  }

  /** Exactly one result per distinct partition of the order. */
  lemma ResultCountIsPartitionCount(timeline: seq<TimelineEntry>, lines: seq<PayableLine>, orderId: string)
    ensures |TotalEffectivePayables(timeline, lines, orderId)| == |OrderPartitions(timeline, orderId)|
  {
    ResultsFollowStatuses(timeline, lines, orderId);
    StatusCountIsPartitionCount(timeline, orderId);
  }

  /** Exactly one latest snapshot per distinct partition of the order. */
  lemma StatusCountIsPartitionCount(timeline: seq<TimelineEntry>, orderId: string)
    ensures |LatestStatuses(timeline, orderId)| == |OrderPartitions(timeline, orderId)|
  {
    CoveringCount(timeline, orderId, LatestStatuses(timeline, orderId));
  }

  /** Rows of the order standing for pairwise different partitions and covering all of
      them are exactly as many as the partitions. */
  lemma CoveringCount(timeline: seq<TimelineEntry>, orderId: string, s: seq<TimelineEntry>)
    requires forall i :: 0 <= i < |s| ==> s[i] in timeline && s[i].orderId == orderId
    requires forall i, j :: 0 <= i < j < |s| ==> PartitionOf(s[i]) != PartitionOf(s[j])
    requires forall e :: e in timeline && e.orderId == orderId ==> HasPartition(s, PartitionOf(e))
    ensures |s| == |OrderPartitions(timeline, orderId)|
  {
    var ks := Keys(s, PartitionOf);
    assert NoDups(ks);
    forall k | k in ks ensures k in OrderPartitions(timeline, orderId) {
      var i :| 0 <= i < |ks| && ks[i] == k;
      assert s[i] in timeline;
    }
    forall k | k in OrderPartitions(timeline, orderId) ensures k in ks {
      var e :| e in timeline && e.orderId == orderId && PartitionOf(e) == k;
      assert HasPartition(s, k);
      var i :| 0 <= i < |s| && PartitionOf(s[i]) == k;
      assert ks[i] == k;
    }
    assert (set k | k in ks) == OrderPartitions(timeline, orderId);
    NoDupsCard(ks);
  }

  /** An order whose timeline rows all belong to one partition has exactly one result,
      computed from a row of the greatest version. */
  lemma {:induction false} OnePartitionOneResult(timeline: seq<TimelineEntry>, orderId: string, e: TimelineEntry)
    requires e in timeline && e.orderId == orderId
    requires forall f :: f in timeline && f.orderId == orderId ==> PartitionOf(f) == PartitionOf(e)
    ensures |LatestStatuses(timeline, orderId)| == 1
    ensures IsPartitionLatest(timeline, orderId, LatestStatuses(timeline, orderId)[0])
  {
    SinglePartition(timeline, orderId, e);
    StatusCountIsPartitionCount(timeline, orderId);
    var s := LatestStatuses(timeline, orderId);
    assert s[0] in timeline && s[0].orderId == orderId;
    assert PartitionOf(s[0]) == PartitionOf(e);
  }

  /** Rows of the order that all share `e`'s partition make that partition the only one. */
  lemma SinglePartition(timeline: seq<TimelineEntry>, orderId: string, e: TimelineEntry)
    requires e in timeline && e.orderId == orderId
    requires forall f :: f in timeline && f.orderId == orderId ==> PartitionOf(f) == PartitionOf(e)
    ensures OrderPartitions(timeline, orderId) == {PartitionOf(e)}
  {
    var ps := OrderPartitions(timeline, orderId);
    assert PartitionOf(e) in ps;
    forall p | p in ps ensures p == PartitionOf(e) {
      var f :| f in timeline && f.orderId == orderId && PartitionOf(f) == p;
    }
  }

  /** The source merges a real instance id spelled like the sentinel with the booking level. */
  lemma SentinelIdMergesWithBookingLevel(e: TimelineEntry, f: TimelineEntry)
    requires e.orderDetailId == f.orderDetailId && e.supplierReferenceId == f.supplierReferenceId
    requires e.fulfillmentInstanceId == None && f.fulfillmentInstanceId == Some(BookingLevel)
    ensures PartitionOf(e) == PartitionOf(f)
  {
  }

  /** An empty instance id is its own partition, yet it reads the booking-level lines:
      the partition coalesces only NULL, the line lookup every falsy id. */
  lemma EmptyIdReadsBookingLines(lines: seq<PayableLine>, orderId: string, e: TimelineEntry, f: TimelineEntry)
    requires e.orderDetailId == f.orderDetailId && e.supplierReferenceId == f.supplierReferenceId
    requires e.fulfillmentInstanceId == None && f.fulfillmentInstanceId == Some("")
    ensures PartitionOf(e) != PartitionOf(f)
    ensures forall l :: l in InstanceLines(lines, orderId, e) <==> l in InstanceLines(lines, orderId, f)
  {
    assert InstanceKey(f.fulfillmentInstanceId) == "";
  }

  // ---------------------------------------------------------------------------
  // Obligation selection

  /** A NULL supplier reference matches no line, so the instance has no obligations: its
      only party is the supplier and its total is the baseline. */
  lemma {:induction false} NullReferenceGetsNoLines(e: TimelineEntry, lines: seq<PayableLine>, orderId: string)
    requires e.supplierReferenceId.None?
    ensures ProjectInstance(e, lines, orderId).obligations == []
    ensures |ProjectInstance(e, lines, orderId).parties| == 1
    ensures ProjectInstance(e, lines, orderId).total == ProjectInstance(e, lines, orderId).baseline
  {
    var r := ProjectInstance(e, lines, orderId);
    assert forall l :: l !in r.obligations;
    assert r.obligations == [];
    var ids := OtherPartyIds(e, []);
    assert forall p :: p !in ids;
    assert |r.parties| == 1 + |OtherParties(e, [], ids)|;
  }

  /** Timeline lines come first and standalone lines last: active statuses contribute
      lines of versions at least 1, every other status lines of the snapshot's own version. */
  lemma {:induction false} ObligationsLayout(ls: seq<PayableLine>, e: TimelineEntry)
    ensures |Standalone(ls)| <= |Obligations(ls, e)|
    ensures Obligations(ls, e)[|Obligations(ls, e)| - |Standalone(ls)|..] == Standalone(ls)
    ensures IsActiveStatus(e.status) ==>
      forall i :: 0 <= i < |Obligations(ls, e)| - |Standalone(ls)| ==> Obligations(ls, e)[i].version >= 1
    ensures !IsActiveStatus(e.status) ==>
      forall i :: 0 <= i < |Obligations(ls, e)| - |Standalone(ls)| ==> Obligations(ls, e)[i].version == e.version
  {
    if IsActiveStatus(e.status) {
      ActiveObligations(ls, e);
      ConcatParts(ActiveProjection(ls), Standalone(ls), Obligations(ls, e), (l: PayableLine) => l.version >= 1);
    } else {
      CancelledObligations(ls, e);
      ConcatParts(CancelledProjection(ls, e.version), Standalone(ls), Obligations(ls, e), AtVersion(e.version));
    }
  }

  /** In `t + s` the last `|s|` elements are `s`, and every earlier one satisfies what
      every element of `t` satisfies. */
  lemma ConcatParts(t: seq<PayableLine>, s: seq<PayableLine>, r: seq<PayableLine>, p: PayableLine -> bool)
    requires r == t + s
    requires forall l :: l in t ==> p(l)
    ensures |s| <= |r| && r[|r| - |s|..] == s
    ensures forall i :: 0 <= i < |r| - |s| ==> p(r[i])
  {
    assert r[|t|..] == s;
    forall i | 0 <= i < |r| - |s| ensures p(r[i]) {
      assert r[i] == t[i];
    }
  }

  /** Under an active status the obligations are the active projection followed by the
      standalone lines. */
  lemma ActiveObligations(ls: seq<PayableLine>, e: TimelineEntry)
    requires IsActiveStatus(e.status)
    ensures Obligations(ls, e) == ActiveProjection(ls) + Standalone(ls)
  {
    assert StatusBaseline(e).includeTimeline;
  }

  /** Under any other status they are the lines at the snapshot's version followed by
      the standalone lines. */
  lemma CancelledObligations(ls: seq<PayableLine>, e: TimelineEntry)
    requires !IsActiveStatus(e.status)
    ensures Obligations(ls, e) == CancelledProjection(ls, e.version) + Standalone(ls)
  {
    assert !StatusBaseline(e).includeTimeline;
  }

  /** Reset: a cancelled, voided or unknown status whose own version has no lines keeps
      only the standalone lines. */
  lemma {:induction false} CancellationReset(ls: seq<PayableLine>, e: TimelineEntry)
    requires !IsActiveStatus(e.status)
    requires forall l :: l in ls ==> l.version != e.version
    ensures Obligations(ls, e) == Standalone(ls)
  {
    assert CancelledProjection(ls, e.version) == [];
    assert Obligations(ls, e) == [] + Standalone(ls);
  }

  /** Override: when the snapshot's own version has lines, those lines replace every
      earlier timeline line rather than joining them. */
  lemma {:induction false} CancellationOverride(ls: seq<PayableLine>, e: TimelineEntry, l: PayableLine)
    requires !IsActiveStatus(e.status)
    requires l in ls && l.version != StandaloneVersion
    ensures l in Obligations(ls, e) <==> l.version == e.version
  {
  }

  /** Active statuses never select a line older than the newest one of its
      (party, obligation type) pair, and every pair seen at a timeline version keeps a
      line at least as new as any of its lines. */
  lemma {:induction false} ActiveKeepsNewestOfEachPair(ls: seq<PayableLine>, m: PayableLine)
    requires m in ls && m.version >= 1
    ensures forall l :: l in ActiveProjection(ls) && PartyObligation(l) == PartyObligation(m) ==> m.version <= l.version
    ensures exists l :: l in ActiveProjection(ls) && PartyObligation(l) == PartyObligation(m) && m.version <= l.version
  {
    var linked := Filter(ls, (l: PayableLine) => l.version >= 1);
    var g := WithKey(linked, PartyObligation, PartyObligation(m));
    assert m in g;
    var k := LatestIndex(g, LineVersion);
    var top := g[k];
    assert top in g;
    assert forall x :: x in g ==> x.version <= top.version by {
      forall x | x in g ensures x.version <= top.version {
        var j :| 0 <= j < |g| && g[j] == x;
      }
    }
    assert LatestOfPair(top, ls);
    assert top in ActiveProjection(ls);
  }

  /** When no (party, obligation type) pair has lines at two timeline versions, the
      active projection keeps every timeline line, in order. */
  lemma {:induction false} ActiveKeepsSingleVersionPairs(ls: seq<PayableLine>)
    requires forall l :: l in ls ==> l.version >= 1
    requires forall l, m :: l in ls && m in ls && PartyObligation(l) == PartyObligation(m) ==> l.version == m.version
    ensures ActiveProjection(ls) == ls
  {
    FilterAll(ls, (l: PayableLine) => l.version >= 1);
    LatestState.LatestViewAll(ls, PartyObligation, LineVersion);
  }

  /** A cancelled snapshot whose version carries lines keeps all of them, in order. */
  lemma {:induction false} CancelledKeepsOwnVersion(ls: seq<PayableLine>, v: int)
    requires |ls| > 0 && forall l :: l in ls ==> l.version == v
    ensures CancelledProjection(ls, v) == ls
  {
    assert ls[0] in ls;
    FilterAll(ls, (l: PayableLine) => l.version == v);
  }

  /** Without standalone lines there is nothing to append. */
  lemma {:induction false} NoStandaloneLines(ls: seq<PayableLine>)
    requires forall l :: l in ls ==> l.version != StandaloneVersion
    ensures Standalone(ls) == []
  {
    FilterNone(ls, (l: PayableLine) => l.version == StandaloneVersion);
  }

  /** Lines tied at the newest version of their pair are all selected (the join keeps
      duplicates): every copy of a tying line is kept, identical rows included. */
  lemma TiesAreAllSelected(ls: seq<PayableLine>, l: PayableLine, m: PayableLine)
    requires l in ActiveProjection(ls) && m in ls
    requires PartyObligation(m) == PartyObligation(l) && m.version == l.version
    ensures m in ActiveProjection(ls)
    ensures multiset(ActiveProjection(ls))[m] == multiset(ls)[m]
  {
  }

  /** Two table rows that agree on every modelled column are two obligations, and both
      count in the total. */
  lemma IdenticalStandaloneLinesCountTwice(e: TimelineEntry, d: PayableLine, orderId: string)
    requires InInstance(d, orderId, e) && d.version == StandaloneVersion && e.version != StandaloneVersion
    ensures ProjectInstance(e, [d, d], orderId).obligations == [d, d]
    ensures ProjectInstance(e, [d, d], orderId).total == ProjectInstance(e, [d, d], orderId).baseline + 2 * Signed(d)
  {
    var ls := [d, d];
    FilterAll(ls, (l: PayableLine) => InInstance(l, orderId, e));
    assert InstanceLines(ls, orderId, e) == ls;
    assert ProjectInstance(e, ls, orderId).obligations == Obligations(ls, e);
    DuplicateStandaloneObligations(e, d);
    NetOfTwin(d);
  }

  lemma NetOfTwin(d: PayableLine)
    ensures Net([d, d]) == 2 * Signed(d)
  {
    assert [d, d][..1] == [d] && [d][..0] == [];
    assert SumBy([d], Signed) == Signed(d);
    assert SumBy([d, d], Signed) == SumBy([d], Signed) + Signed(d);
  }

  /** Both copies of a standalone row are obligations, whatever the status. */
  lemma DuplicateStandaloneObligations(e: TimelineEntry, d: PayableLine)
    requires d.version == StandaloneVersion && e.version != StandaloneVersion
    ensures Obligations([d, d], e) == [d, d]
  {
    var ls := [d, d];
    FilterAll(ls, (l: PayableLine) => l.version == StandaloneVersion);
    if StatusBaseline(e).includeTimeline {
      FilterNone(ls, (l: PayableLine) => l.version >= 1);
      assert ActiveProjection(ls) == [];
    } else {
      assert CancelledProjection(ls, e.version) == [];
    }
    assert Obligations(ls, e) == [] + ls;
  }

  /** An instance's obligations hold each of its lines as often as it occurs among all the
      lines, if it is standalone or selected for the status, and hold nothing else; under
      an active status a line that is both counts twice. */
  lemma InstanceObligations(e: TimelineEntry, lines: seq<PayableLine>, orderId: string)
    ensures IsActiveStatus(e.status) ==> forall l ::
      multiset(ProjectInstance(e, lines, orderId).obligations)[l]
        == (if InInstance(l, orderId, e) && l.version >= 1 && LatestOfPair(l, InstanceLines(lines, orderId, e))
            then multiset(lines)[l] else 0)
         + (if InInstance(l, orderId, e) && l.version == StandaloneVersion then multiset(lines)[l] else 0)
    ensures !IsActiveStatus(e.status) ==> forall l ::
      multiset(ProjectInstance(e, lines, orderId).obligations)[l]
        == (if InInstance(l, orderId, e) && l.version == e.version then multiset(lines)[l] else 0)
         + (if InInstance(l, orderId, e) && l.version == StandaloneVersion then multiset(lines)[l] else 0)
  {
    var ls := InstanceLines(lines, orderId, e);
    assert ProjectInstance(e, lines, orderId).obligations == Obligations(ls, e);
    CountsThroughInstance(e, lines, orderId, ls, Obligations(ls, e));
  }

  /** The counts of the selection from an instance's lines, in terms of all the lines. */
  lemma CountsThroughInstance(e: TimelineEntry, lines: seq<PayableLine>, orderId: string,
                              ls: seq<PayableLine>, r: seq<PayableLine>)
    requires forall l :: multiset(ls)[l] == if InInstance(l, orderId, e) then multiset(lines)[l] else 0
    requires IsActiveStatus(e.status) ==>
      forall l :: multiset(r)[l] == (if l.version >= 1 && LatestOfPair(l, ls) then multiset(ls)[l] else 0)
                                    + (if l.version == StandaloneVersion then multiset(ls)[l] else 0)
    requires !IsActiveStatus(e.status) ==>
      forall l :: multiset(r)[l] == (if l.version == e.version then multiset(ls)[l] else 0)
                                    + (if l.version == StandaloneVersion then multiset(ls)[l] else 0)
    ensures IsActiveStatus(e.status) ==> forall l ::
      multiset(r)[l] == (if InInstance(l, orderId, e) && l.version >= 1 && LatestOfPair(l, ls) then multiset(lines)[l] else 0)
                        + (if InInstance(l, orderId, e) && l.version == StandaloneVersion then multiset(lines)[l] else 0)
    ensures !IsActiveStatus(e.status) ==> forall l ::
      multiset(r)[l] == (if InInstance(l, orderId, e) && l.version == e.version then multiset(lines)[l] else 0)
                        + (if InInstance(l, orderId, e) && l.version == StandaloneVersion then multiset(lines)[l] else 0)
  {
  }

  /** Standalone lines of the instance survive whatever the status. */
  lemma StandaloneSurvives(e: TimelineEntry, lines: seq<PayableLine>, orderId: string, l: PayableLine)
    requires l in lines && InInstance(l, orderId, e) && l.version == StandaloneVersion
    ensures l in ProjectInstance(e, lines, orderId).obligations
  {
  }

  // ---------------------------------------------------------------------------
  // Netting and party emission

  predicate IsIncrease(l: PayableLine) { l.amountEffect == Increases }
  predicate IsDecrease(l: PayableLine) { l.amountEffect == Decreases }
  function LineAmount(l: PayableLine): int { l.amount }

  /** A net adjustment is the sum of the INCREASES_PAYABLE amounts minus the sum of the
      DECREASES_PAYABLE amounts; lines with any other effect count for nothing. */
  lemma {:induction false} NetIsIncreasesMinusDecreases(ls: seq<PayableLine>)
    ensures Net(ls) == SumBy(Filter(ls, IsIncrease), LineAmount) - SumBy(Filter(ls, IsDecrease), LineAmount)
  {
    if |ls| > 0 {
      var init, x := ls[..|ls| - 1], ls[|ls| - 1];
      assert ls == init + [x];
      NetIsIncreasesMinusDecreases(init);
      assert Net(ls) == Net(init) + Signed(x);
      FilteredSumSnoc(init, x, IsIncrease, LineAmount);
      FilteredSumSnoc(init, x, IsDecrease, LineAmount);
    }
  }

  /** `p` is the entry of a non-supplier party of `obligations`: no baseline, at least one
      obligation, every obligation carrying its id as often as it occurs and no other, its
      net as total, and the type and name of its last obligation. */
  ghost predicate IsOtherParty(p: PartyPayable, e: TimelineEntry, obligations: seq<PayableLine>) {
    && p.partyId != e.supplierId
    && p.baseline == 0
    && |p.obligations| > 0
    && p.total == Net(p.obligations)
    && (forall l :: l in p.obligations <==> l in obligations && l.partyId == p.partyId)
    && (forall l :: multiset(p.obligations)[l] == if l.partyId == p.partyId then multiset(obligations)[l] else 0)
    && (forall i :: LastOfParty(obligations, p.partyId, i) ==>
          p.partyType == obligations[i].partyType && p.partyName == obligations[i].partyName)
  }

  /** Entry `i` after the supplier is the entry of the `i`-th non-supplier party id. */
  lemma {:induction false} OtherPartiesListed(e: TimelineEntry, obligations: seq<PayableLine>, b: Baseline)
    ensures |Parties(e, obligations, b)| == |OtherPartyIds(e, obligations)| + 1
    ensures forall i :: 1 <= i < |Parties(e, obligations, b)| ==>
      Parties(e, obligations, b)[i] == OtherParty(e, obligations, OtherPartyIds(e, obligations)[i - 1])
    ensures forall i :: 1 <= i < |Parties(e, obligations, b)| ==>
      Parties(e, obligations, b)[i].partyId == OtherPartyIds(e, obligations)[i - 1]
    ensures InFirstAppearanceOrder(Map(Parties(e, obligations, b)[1..], PartyIdOf), Keys(obligations, LinePartyId))
  {
    PartiesAfterSupplier(e, obligations, b);
    PartyIdsAfterSupplier(e, obligations, b);
  }

  /** The entries after the supplier's are the entries of the non-supplier party ids. */
  lemma PartiesAfterSupplier(e: TimelineEntry, obligations: seq<PayableLine>, b: Baseline)
    ensures forall i :: 1 <= i < |Parties(e, obligations, b)| ==>
      Parties(e, obligations, b)[i] == OtherParty(e, obligations, OtherPartyIds(e, obligations)[i - 1])
  {
    var r := Parties(e, obligations, b);
    var ids := OtherPartyIds(e, obligations);
    MapAfterHead(r, ids, PartyEntry(e, obligations));
  }

  /** The ids of the entries after the supplier's are the non-supplier party ids. */
  lemma PartyIdsAfterSupplier(e: TimelineEntry, obligations: seq<PayableLine>, b: Baseline)
    ensures Map(Parties(e, obligations, b)[1..], PartyIdOf) == OtherPartyIds(e, obligations)
  {
    var ids := OtherPartyIds(e, obligations);
    var others := OtherParties(e, obligations, ids);
    forall k | 0 <= k < |ids| ensures Map(others, PartyIdOf)[k] == ids[k] {
      assert others[k] == OtherParty(e, obligations, ids[k]);
    }
  }

  /** The parties of an instance: the supplier first with the baseline plus its own net,
      then entries of other parties only, each with no baseline, at least one obligation,
      all of its own obligations and its net as total. */
  lemma {:induction false} PartiesShape(e: TimelineEntry, obligations: seq<PayableLine>, b: Baseline)
    ensures Parties(e, obligations, b)[0].partyId == e.supplierId
    ensures Parties(e, obligations, b)[0].total == b.amount + Net(WithKey(obligations, LinePartyId, e.supplierId))
    ensures forall l :: multiset(Parties(e, obligations, b)[0].obligations)[l]
                        == if l.partyId == e.supplierId then multiset(obligations)[l] else 0
    ensures forall i :: 1 <= i < |Parties(e, obligations, b)| ==>
      IsOtherParty(Parties(e, obligations, b)[i], e, obligations)
  {
    var r := Parties(e, obligations, b);
    var ids := OtherPartyIds(e, obligations);
    OtherPartiesListed(e, obligations, b);
    forall i | 1 <= i < |r| ensures IsOtherParty(r[i], e, obligations) {
      assert ids[i - 1] in ids;
      var l :| l in obligations && l.partyId == ids[i - 1];
      assert l in r[i].obligations;
    }
  }

  /** No party is listed twice. */
  lemma {:induction false} PartiesDistinct(e: TimelineEntry, obligations: seq<PayableLine>, b: Baseline)
    ensures forall i, j :: 0 <= i < j < |Parties(e, obligations, b)| ==>
      Parties(e, obligations, b)[i].partyId != Parties(e, obligations, b)[j].partyId
  {
    var r := Parties(e, obligations, b);
    var ids := OtherPartyIds(e, obligations);
    OtherPartiesListed(e, obligations, b);
    forall i, j | 0 <= i < j < |r| ensures r[i].partyId != r[j].partyId {
      assert r[j].partyId == ids[j - 1];
      if i > 0 {
        assert r[i].partyId == ids[i - 1];
      } else {
        assert ids[j - 1] in ids;
      }
    }
  }

  /** Every obligation belongs to a listed party. */
  lemma {:induction false} PartiesCoverObligations(e: TimelineEntry, obligations: seq<PayableLine>, b: Baseline)
    ensures forall l :: l in obligations ==>
      exists i :: 0 <= i < |Parties(e, obligations, b)| && Parties(e, obligations, b)[i].partyId == l.partyId
  {
    var r := Parties(e, obligations, b);
    var ids := OtherPartyIds(e, obligations);
    OtherPartiesListed(e, obligations, b);
    forall l | l in obligations ensures exists i :: 0 <= i < |r| && r[i].partyId == l.partyId {
      if l.partyId != e.supplierId {
        assert l.partyId in ids;
        var j :| 0 <= j < |ids| && ids[j] == l.partyId;
        assert r[j + 1].partyId == l.partyId;
      }
    }
  }

  /** An instance whose supplier has no obligation line owes the supplier exactly the baseline. */
  lemma SupplierWithoutLinesOwesBaseline(e: TimelineEntry, lines: seq<PayableLine>, orderId: string)
    requires forall l :: l in ProjectInstance(e, lines, orderId).obligations ==> l.partyId != e.supplierId
    ensures ProjectInstance(e, lines, orderId).parties[0].obligations == []
    ensures ProjectInstance(e, lines, orderId).parties[0].total == ProjectInstance(e, lines, orderId).baseline
  {
    var r := ProjectInstance(e, lines, orderId);
    WithKeyAbsentByMembership(r.obligations, e.supplierId);
  }

  /** A party id no obligation carries selects no obligations. */
  lemma {:induction false} WithKeyAbsentByMembership(ls: seq<PayableLine>, p: string)
    requires forall l :: l in ls ==> l.partyId != p
    ensures WithKey(ls, LinePartyId, p) == []
  {
    forall i | 0 <= i < |ls| ensures Keys(ls, LinePartyId)[i] != p {
      assert ls[i] in ls;
    }
    WithKeyAbsent(ls, LinePartyId, p);
  }
}
