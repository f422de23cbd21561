/** The order explorer's arithmetic: the lineage of one pricing component and its net
    amount after refunds, the regular/refund split of the latest breakdown with its
    total, and the one-line rendering of a component's dimensions. */
module Lineage {
  import opened Wrappers
  import opened Seqs
  import opened Strings
  import opened Facts
  import LatestState

  // ---------------------------------------------------------------------------
  // Component lineage

  /** The original occurrences of a component and the refund components that point back to it. */
  datatype ComponentLineage = ComponentLineage(original: seq<PricingComponent>, refunds: seq<PricingComponent>)

  /** `get_component_lineage`: the non-refund rows carrying the semantic id, and the
      refund rows whose `refund_of_component_semantic_id` is that id (a NULL link matches
      nothing). */
  function LineageOf(facts: seq<PricingComponent>, semanticId: string): (r: ComponentLineage)
    ensures forall x :: x in r.original <==> x in facts && x.semanticId == semanticId && !x.isRefund
    ensures forall x :: x in r.refunds <==> x in facts && x.isRefund && x.refundOf == Some(semanticId)
  {
    ComponentLineage(
      Filter(facts, (c: PricingComponent) => c.semanticId == semanticId && !c.isRefund),
      Filter(facts, (c: PricingComponent) => c.isRefund && c.refundOf == Some(semanticId)))
  }

  /** The amount of the latest original occurrence (the first one of the greatest
      version), or 0 when there is none. */
  function OriginalAmount(original: seq<PricingComponent>): (a: int)
    ensures |original| == 0 ==> a == 0
    ensures |original| > 0 ==>
      exists c :: c in original && a == c.amount && forall d :: d in original ==> d.version <= c.version
  {
    if |original| == 0 then 0
    else
      var c := original[LatestIndex(original, ComponentVersion)];
      assert forall d :: d in original ==> d.version <= c.version;
      c.amount
  }

  /** Index of the first `"RFD"` part at or after `i` that has a part after it. */
  function FirstRfd(parts: seq<string>, i: nat): (r: Option<nat>)
    requires i <= |parts|
    ensures r.Some? ==> i <= r.value && r.value + 1 < |parts| && parts[r.value] == "RFD"
    ensures r.Some? ==> forall j :: i <= j < r.value ==> parts[j] != "RFD"
    ensures r.None? ==> forall j :: i <= j && j + 1 < |parts| ==> parts[j] != "RFD"
    decreases |parts| - i
  {
    if i + 1 >= |parts| then None
    else if parts[i] == "RFD" then Some(i)
    else FirstRfd(parts, i + 1)
  }

  /** `parts[i]` is the first `"RFD"` part and some part follows it. */
  predicate FirstRfdAt(parts: seq<string>, i: int) {
    && 0 <= i && i + 1 < |parts| && parts[i] == "RFD"
    && forall j :: 0 <= j < i ==> parts[j] != "RFD"
  }

  /** The refund id in a refund's semantic id: split on `-`, find the first part `RFD`
      that is not the last part, and join it with the part after it. */
  function RefundId(semanticId: string): (r: Option<string>)
    ensures r.Some? ==> |r.value| >= 4 && r.value[..4] == "RFD-"
  {
    var parts := Split(semanticId, '-');
    match FirstRfd(parts, 0)
    case None => None
    case Some(i) => Some("RFD-" + parts[i + 1])
  }

  /** A refund row filed under the refund id extracted from its semantic id (one entry
      of the `refund_by_id` lists). */
  datatype TaggedRefund = TaggedRefund(refundId: string, row: PricingComponent)

  function TagId(t: TaggedRefund): string { t.refundId }
  function TagVersion(t: TaggedRefund): int { t.row.version }
  function TagAmount(t: TaggedRefund): int { t.row.amount }

  /** The identified refund rows, in order, each tagged with its refund id. */
  function TagRefunds(refunds: seq<PricingComponent>): (r: seq<TaggedRefund>)
    ensures |r| <= |refunds|
    ensures forall t :: t in r ==> t.row in refunds && RefundId(t.row.semanticId) == Some(t.refundId)
  {
    if |refunds| == 0 then []
    else
      var init, c := refunds[..|refunds| - 1], refunds[|refunds| - 1];
      assert refunds == init + [c];
      TagRefunds(init) + match RefundId(c.semanticId) { case None => [] case Some(id) => [TaggedRefund(id, c)] }
  }

  /** The amount of the first row of the greatest version of a non-empty group
      (Python's `max(group, key=version)` keeps the first maximal row). */
  function LatestAmount(group: seq<TaggedRefund>): (a: int)
    requires |group| > 0
    ensures exists t :: t in group && a == t.row.amount && forall u :: u in group ==> u.row.version <= t.row.version
  {
    var t := group[LatestIndex(group, TagVersion)];
    assert forall u :: u in group ==> u.row.version <= t.row.version;
    t.row.amount
  }

  /** The latest amount of the rows of refund id `k`; 0 when no row has that id, which
      never happens for an id taken from the rows themselves. */
  function IdLatestAmount(ts: seq<TaggedRefund>, k: string): int {
    var g := WithKey(ts, TagId, k);
    if |g| == 0 then 0 else LatestAmount(g)
  }

  /** Sum, over the listed refund ids, of each id's latest amount. */
  function SumLatest(ts: seq<TaggedRefund>, ids: seq<string>): int {
    if |ids| == 0 then 0
    else SumLatest(ts, ids[..|ids| - 1]) + IdLatestAmount(ts, ids[|ids| - 1])
  }

  /** The refund ids in order of first appearance (the dict's insertion order). */
  function RefundIds(ts: seq<TaggedRefund>): (ids: seq<string>)
    ensures NoDups(ids)
    ensures forall k :: k in ids <==> k in Keys(ts, TagId)
  {
    Distinct(Keys(ts, TagId))
  }

  /** The refund total: for each refund id, the amount of its latest row. */
  function RefundTotal(refunds: seq<PricingComponent>): int {
    var ts := TagRefunds(refunds);
    SumLatest(ts, RefundIds(ts))
  }

  /** The net amount the lineage view shows: the latest original amount plus the refund
      total. The view computes it only when the component has refund rows. */
  function NetAmount(l: ComponentLineage): (r: Option<int>)
    ensures r.None? <==> l.refunds == []
    ensures r.Some? ==> r.value == OriginalAmount(l.original) + RefundTotal(l.refunds)
  {
    if l.refunds == [] then None else Some(OriginalAmount(l.original) + RefundTotal(l.refunds))
  }

  // ---------------------------------------------------------------------------
  // Latest breakdown

  /** What the latest breakdown shows: nothing, only the refund rows (no regular row),
      or the regular rows with their total, the refund rows going on to the refund view. */
  datatype Breakdown =
    | NoComponents
    | OnlyRefunds(refunds: seq<PricingComponent>)
    | Priced(regular: seq<PricingComponent>, refunds: seq<PricingComponent>, total: int)

  /** `get_order_pricing_latest`: the rows of the order in `order_pricing_latest`. */
  function OrderLatest(facts: seq<PricingComponent>, orderId: string): (r: seq<PricingComponent>)
    ensures forall c :: c in r <==> (c in facts && c.orderId == orderId &&
      forall d :: d in facts && d.orderId == c.orderId && d.semanticId == c.semanticId ==> d.version <= c.version)
  {
    Filter(LatestState.PricingLatest(facts), (c: PricingComponent) => c.orderId == orderId)
  }

  predicate IsRegular(c: PricingComponent) { !c.isRefund }
  predicate IsRefundRow(c: PricingComponent) { c.isRefund }

  /** `render_latest_breakdown` without the rendering: split the latest rows by `is_refund`
      and total the regular amounts. */
  function LatestBreakdown(facts: seq<PricingComponent>, orderId: string): (b: Breakdown)
    ensures b.NoComponents? <==> OrderLatest(facts, orderId) == []
    ensures b.OnlyRefunds? ==> forall c :: c in b.refunds <==> c in OrderLatest(facts, orderId)
    ensures b.OnlyRefunds? ==> forall c :: c in OrderLatest(facts, orderId) ==> c.isRefund
    ensures b.OnlyRefunds? ==> multiset(b.refunds) == multiset(OrderLatest(facts, orderId))
    ensures b.Priced? ==> forall c :: c in b.regular <==> c in OrderLatest(facts, orderId) && !c.isRefund
    ensures b.Priced? ==> forall c :: c in b.refunds <==> c in OrderLatest(facts, orderId) && c.isRefund
    ensures b.Priced? ==> |b.regular| > 0
    ensures b.Priced? ==> b.total == SumBy(b.regular, ComponentAmount)
    ensures b.Priced? ==>
      forall c :: multiset(b.regular)[c] == if c.isRefund then 0 else multiset(OrderLatest(facts, orderId))[c]
    ensures b.Priced? ==>
      forall c :: multiset(b.refunds)[c] == if c.isRefund then multiset(OrderLatest(facts, orderId))[c] else 0
  {
    BreakdownOf(OrderLatest(facts, orderId))
  }

  /** The breakdown of a given list of latest rows. */
  function BreakdownOf(all: seq<PricingComponent>): (b: Breakdown)
    ensures b.NoComponents? <==> all == []
    ensures b.OnlyRefunds? ==> forall c :: c in b.refunds <==> c in all
    ensures b.OnlyRefunds? ==> forall c :: c in all ==> c.isRefund
    ensures b.OnlyRefunds? ==> multiset(b.refunds) == multiset(all)
    ensures b.Priced? ==> forall c :: c in b.regular <==> c in all && !c.isRefund
    ensures b.Priced? ==> forall c :: c in b.refunds <==> c in all && c.isRefund
    ensures b.Priced? ==> |b.regular| > 0
    ensures b.Priced? ==> b.total == SumBy(b.regular, ComponentAmount)
    ensures b.Priced? ==> forall c :: multiset(b.regular)[c] == if c.isRefund then 0 else multiset(all)[c]
    ensures b.Priced? ==> forall c :: multiset(b.refunds)[c] == if c.isRefund then multiset(all)[c] else 0
  {
    if all == [] then NoComponents
    else
      var regular := Filter(all, IsRegular);
      var refunds := Filter(all, IsRefundRow);
      FilterMultiset(all, IsRegular);
      FilterMultiset(all, IsRefundRow);
      if regular == [] then
        assert forall c :: c in all ==> c.isRefund;
        FilterAll(all, IsRefundRow);
        OnlyRefunds(refunds)
      else Priced(regular, refunds, SumBy(regular, ComponentAmount))
  }

  // ---------------------------------------------------------------------------
  // Dimensions

  /** One `k=v` pair. */
  function FormatPair(kv: (string, string)): (r: string)
    ensures '=' in r
  {
    assert (kv.0 + "=" + kv.1)[|kv.0|] == '=';
    kv.0 + "=" + kv.1
  }

  function FormatPairs(dims: seq<(string, string)>): (r: seq<string>)
    ensures |r| == |dims|
    ensures forall i :: 0 <= i < |dims| ==> r[i] == FormatPair(dims[i])
  {
    if |dims| == 0 then [] else FormatPairs(dims[..|dims| - 1]) + [FormatPair(dims[|dims| - 1])]
  }

  /** `format_dimensions`: `"ORDER"` for an empty dimension map, otherwise the `k=v`
      pairs in iteration order joined by `", "`. Only the empty map renders as `"ORDER"`:
      every other rendering holds an `=`. */
  function FormatDimensions(dims: seq<(string, string)>): (r: string)
    ensures r == "ORDER" <==> dims == []
  {
    if |dims| == 0 then "ORDER"
    else
      var r := Join(FormatPairs(dims), ", ");
      assert '=' in r by {
        JoinHolds(FormatPairs(dims), ", ", '=');
      }
      assert '=' !in "ORDER";
      r
  }

  /** A join of non-empty parts list that all hold `c` holds `c`. */
  lemma {:induction false} JoinHolds(parts: seq<string>, sep: string, c: char)
    requires |parts| > 0 && forall i :: 0 <= i < |parts| ==> c in parts[i]
    ensures c in Join(parts, sep)
  {
    var j := Join(parts, sep);
    if |parts| > 1 {
      var k :| 0 <= k < |parts[0]| && parts[0][k] == c;
      assert j == parts[0] + sep + Join(parts[1..], sep);
      assert j[k] == c;
    }
  }
}
