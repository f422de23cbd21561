/** The latest-state resolver: the derived `*_latest` views, which keep the rows at the
    greatest version of their group, and the `get_latest_*_version` lookups, which return
    that greatest version or nothing. */
module LatestState {
  import opened Wrappers
  import opened Seqs
  import opened Facts

  /** `x` carries the greatest version among the rows of `xs` that share its key. */
  ghost predicate IsGroupLatest<T, K>(x: T, xs: seq<T>, key: T -> K, ver: T -> int) {
    forall y :: y in xs && key(y) == key(x) ==> ver(y) <= ver(x)
  }

  /** The SQL condition `(key, v) IN (SELECT key, MAX(v) ... GROUP BY key)` for one row. */
  function AtGroupMax<T(!new), K(==)>(xs: seq<T>, key: T -> K, ver: T -> int, x: T): bool {
    MaxVersion(WithKey(xs, key, key(x)), ver) == Some(ver(x))
  }

  /** For a row of the table, being at its group's maximum is being the group's latest. */
  lemma {:induction false} AtGroupMaxIsLatest<T(!new), K(!new)>(xs: seq<T>, key: T -> K, ver: T -> int, x: T)
    requires x in xs
    ensures AtGroupMax(xs, key, ver, x) <==> IsGroupLatest(x, xs, key, ver)
  {
    var g := WithKey(xs, key, key(x));
    assert x in g;
    if IsGroupLatest(x, xs, key, ver) {
      var m := MaxVersion(g, ver).value;
      var z :| z in g && ver(z) == m;
      assert ver(z) <= ver(x);
    }
  }

  /** `SELECT * FROM t WHERE (key, v) IN (SELECT key, MAX(v) FROM t GROUP BY key)`:
      every row whose version equals the maximum of its own group, in table order. */
  function LatestView<T(!new), K(==,!new)>(xs: seq<T>, key: T -> K, ver: T -> int): (r: seq<T>)
    ensures forall x :: x in r <==> x in xs && IsGroupLatest(x, xs, key, ver)
    ensures forall x :: multiset(r)[x] == if IsGroupLatest(x, xs, key, ver) then multiset(xs)[x] else 0
  {
    var atMax := x => AtGroupMax(xs, key, ver, x);
    var r := Filter(xs, atMax);
    FilterMultiset(xs, atMax);
    assert forall x | x in xs :: AtGroupMax(xs, key, ver, x) <==> IsGroupLatest(x, xs, key, ver) by {
      forall x | x in xs
        ensures AtGroupMax(xs, key, ver, x) <==> IsGroupLatest(x, xs, key, ver)
      {
        AtGroupMaxIsLatest(xs, key, ver, x);
      }
    }
    r
  }

  /** A table whose every row is the latest of its group is its own latest view. */
  lemma {:induction false} LatestViewAll<T(!new), K(!new)>(xs: seq<T>, key: T -> K, ver: T -> int)
    requires forall x :: x in xs ==> IsGroupLatest(x, xs, key, ver)
    ensures LatestView(xs, key, ver) == xs
  {
    forall x | x in xs ensures AtGroupMax(xs, key, ver, x) {
      AtGroupMaxIsLatest(xs, key, ver, x);
    }
    FilterAll(xs, x => AtGroupMax(xs, key, ver, x));
  }

  function PricingGroup(c: PricingComponent): (string, string) { (c.orderId, c.semanticId) }
  function PaymentGroup(p: PaymentEntry): string { p.orderId }
  function PaymentVersion(p: PaymentEntry): int { p.timelineVersion }
  function SupplierGroup(e: TimelineEntry): (string, string) { (e.orderId, e.orderDetailId) }
  function RefundGroup(e: RefundEntry): (string, string) { (e.orderId, e.refundId) }
  function RefundVersion(e: RefundEntry): int { e.refundTimelineVersion }

  /** View `order_pricing_latest`: the latest version of each semantic component of each order. */
  function PricingLatest(rows: seq<PricingComponent>): (r: seq<PricingComponent>)
    ensures forall c :: c in r <==> (c in rows &&
      forall d :: d in rows && d.orderId == c.orderId && d.semanticId == c.semanticId ==> d.version <= c.version)
  {
    LatestView(rows, PricingGroup, ComponentVersion)
  }

  /** View `payment_timeline_latest`: the latest payment timeline rows of each order. */
  function PaymentLatest(rows: seq<PaymentEntry>): (r: seq<PaymentEntry>)
    ensures forall p :: p in r <==> (p in rows &&
      forall q :: q in rows && q.orderId == p.orderId ==> q.timelineVersion <= p.timelineVersion)
  {
    LatestView(rows, PaymentGroup, PaymentVersion)
  }

  /** View `supplier_timeline_latest`: the latest supplier rows of each order detail. */
  function SupplierLatest(rows: seq<TimelineEntry>): (r: seq<TimelineEntry>)
    ensures forall e :: e in r <==> (e in rows &&
      forall f :: f in rows && f.orderId == e.orderId && f.orderDetailId == e.orderDetailId ==> f.version <= e.version)
  {
    LatestView(rows, SupplierGroup, EntryVersion)
  }

  /** View `refund_timeline_latest`: the latest rows of each refund of each order. */
  function RefundLatest(rows: seq<RefundEntry>): (r: seq<RefundEntry>)
    ensures forall e :: e in r <==> (e in rows &&
      forall f :: f in rows && f.orderId == e.orderId && f.refundId == e.refundId ==>
        f.refundTimelineVersion <= e.refundTimelineVersion)
  {
    LatestView(rows, RefundGroup, RefundVersion)
  }

  /** `get_latest_pricing_version`: the greatest pricing version of the order, or `None`
      when the order has no pricing rows. */
  function LatestPricingVersion(rows: seq<PricingComponent>, orderId: string): (r: Option<int>)
    ensures r.None? <==> forall c :: c in rows ==> c.orderId != orderId
    ensures r.Some? ==> forall c :: c in rows && c.orderId == orderId ==> c.version <= r.value
    ensures r.Some? ==> exists c :: c in rows && c.orderId == orderId && c.version == r.value
  {
    var g := Filter(rows, (c: PricingComponent) => c.orderId == orderId);
    assert forall c :: c in rows && c.orderId == orderId ==> c in g;
    MaxVersion(g, ComponentVersion)
  }

  /** `get_latest_payment_timeline_version`: the greatest payment timeline version of
      the order, or `None` when the order has no payment rows. */
  function LatestPaymentTimelineVersion(rows: seq<PaymentEntry>, orderId: string): (r: Option<int>)
    ensures r.None? <==> forall p :: p in rows ==> p.orderId != orderId
    ensures r.Some? ==> forall p :: p in rows && p.orderId == orderId ==> p.timelineVersion <= r.value
    ensures r.Some? ==> exists p :: p in rows && p.orderId == orderId && p.timelineVersion == r.value
  {
    var g := Filter(rows, (p: PaymentEntry) => p.orderId == orderId);
    assert forall p :: p in rows && p.orderId == orderId ==> p in g;
    MaxVersion(g, PaymentVersion)
  }

  /** `get_latest_supplier_timeline_version`: the greatest supplier timeline version of
      the order detail, or `None` when it has no supplier rows. */
  function LatestSupplierTimelineVersion(rows: seq<TimelineEntry>, orderId: string, orderDetailId: string): (r: Option<int>)
    ensures r.None? <==> forall e :: e in rows ==> !(e.orderId == orderId && e.orderDetailId == orderDetailId)
    ensures r.Some? ==> forall e :: e in rows && e.orderId == orderId && e.orderDetailId == orderDetailId ==> e.version <= r.value
    ensures r.Some? ==> exists e :: e in rows && e.orderId == orderId && e.orderDetailId == orderDetailId && e.version == r.value
  {
    var g := Filter(rows, (e: TimelineEntry) => e.orderId == orderId && e.orderDetailId == orderDetailId);
    assert forall e :: e in rows && e.orderId == orderId && e.orderDetailId == orderDetailId ==> e in g;
    MaxVersion(g, EntryVersion)
  }

  /** The view and the lookup agree: a row is in `supplier_timeline_latest` exactly when
      its version is the one `get_latest_supplier_timeline_version` returns for its
      order detail, and a detail with a latest version has a row in the view. */
  lemma {:induction false} SupplierViewMatchesLookup(rows: seq<TimelineEntry>, orderId: string, orderDetailId: string)
    ensures forall e :: e in rows && e.orderId == orderId && e.orderDetailId == orderDetailId ==>
      (e in SupplierLatest(rows) <==> LatestSupplierTimelineVersion(rows, orderId, orderDetailId) == Some(e.version))
    ensures LatestSupplierTimelineVersion(rows, orderId, orderDetailId).Some? ==>
      exists e :: e in SupplierLatest(rows) && e.orderId == orderId && e.orderDetailId == orderDetailId
  {
    var r := LatestSupplierTimelineVersion(rows, orderId, orderDetailId);
    if r.Some? {
      var e :| e in rows && e.orderId == orderId && e.orderDetailId == orderDetailId && e.version == r.value;
      assert e in SupplierLatest(rows);
    }
  }
}
