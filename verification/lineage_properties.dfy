/** What the lineage net amount, the latest breakdown and the dimension rendering
    promise: how one more refund row moves the refund total (skipped, superseded,
    revised or new), that without revisions the total is the plain sum, where the
    refund id is found in a semantic id, and how the displayed breakdown total and the
    dimension string are built. */
module LineageProperties {
  import opened Wrappers
  import opened Seqs
  import opened Strings
  import opened Facts
  import opened Lineage

  // ---------------------------------------------------------------------------
  // Refund ids

  /** Scanning from `j` finds the first `"RFD"` part when it lies at or after `j`. */
  lemma {:induction false} FirstRfdFinds(parts: seq<string>, j: nat, i: nat)
    requires FirstRfdAt(parts, i) && j <= i
    ensures FirstRfd(parts, j) == Some(i)
    decreases i - j
  {
    if j < i {
      FirstRfdFinds(parts, j + 1, i);
    }
  }

  /** When the first `"RFD"` part with a part after it sits at index `i`, the refund id
      is `"RFD-"` followed by that next part. */
  lemma RefundIdFound(semanticId: string, i: nat)
    requires FirstRfdAt(Split(semanticId, '-'), i)
    ensures RefundId(semanticId) == Some("RFD-" + Split(semanticId, '-')[i + 1])
  {
    FirstRfdFinds(Split(semanticId, '-'), 0, i);
  }

  /** Without an `"RFD"` part followed by another part there is no refund id. */
  lemma RefundIdAbsent(semanticId: string)
    requires forall j :: 0 <= j && j + 1 < |Split(semanticId, '-')| ==> Split(semanticId, '-')[j] != "RFD"
    ensures RefundId(semanticId) == None
  {
  }

  /** A refund id exists exactly when some `"RFD"` part has a part after it. */
  lemma RefundIdExists(semanticId: string)
    ensures RefundId(semanticId).Some? <==>
      exists j :: 0 <= j && j + 1 < |Split(semanticId, '-')| && Split(semanticId, '-')[j] == "RFD"
  {
    var parts := Split(semanticId, '-');
    var f := FirstRfd(parts, 0);
    assert RefundId(semanticId).Some? <==> f.Some?;
    if f.Some? {
      var i := f.value;
      assert 0 <= i && i + 1 < |Split(semanticId, '-')| && Split(semanticId, '-')[i] == "RFD";
    } else {
      assert forall j :: 0 <= j && j + 1 < |parts| ==> parts[j] != "RFD";
    }
  }

  lemma PartsHyphenFree(prefix: seq<string>, id: string, rest: seq<string>)
    requires forall i :: 0 <= i < |prefix| ==> '-' !in prefix[i]
    requires '-' !in id
    requires forall i :: 0 <= i < |rest| ==> '-' !in rest[i]
    ensures forall i :: 0 <= i < |prefix + ["RFD", id] + rest| ==> '-' !in (prefix + ["RFD", id] + rest)[i]
  {
    var parts := prefix + ["RFD", id] + rest;
    forall i | 0 <= i < |parts| ensures '-' !in parts[i] {
      if i < |prefix| {
        assert parts[i] == prefix[i];
      } else if i >= |prefix| + 2 {
        assert parts[i] == rest[i - |prefix| - 2];
      }
    }
  }

  lemma PartsFirstRfd(prefix: seq<string>, id: string, rest: seq<string>)
    requires forall i :: 0 <= i < |prefix| ==> prefix[i] != "RFD"
    ensures FirstRfdAt(prefix + ["RFD", id] + rest, |prefix|)
    ensures (prefix + ["RFD", id] + rest)[|prefix| + 1] == id
  {
    var parts := prefix + ["RFD", id] + rest;
    forall j | 0 <= j < |prefix| ensures parts[j] != "RFD" {
      assert parts[j] == prefix[j];
    }
  }

  /** A semantic id built from `-`-free parts, whose first `"RFD"` part is followed by
      `id`, carries the refund id `"RFD-" + id`; for instance
      `cs-ORD-NEW-RFD-001-OD-001-RoomRate` carries `RFD-001`. */
  lemma RefundIdOfParts(prefix: seq<string>, id: string, rest: seq<string>)
    requires forall i :: 0 <= i < |prefix| ==> prefix[i] != "RFD" && '-' !in prefix[i]
    requires '-' !in id
    requires forall i :: 0 <= i < |rest| ==> '-' !in rest[i]
    ensures RefundId(Join(prefix + ["RFD", id] + rest, "-")) == Some("RFD-" + id)
  {
    var parts := prefix + ["RFD", id] + rest;
    PartsHyphenFree(prefix, id, rest);
    SplitJoin(parts, '-');
    PartsFirstRfd(prefix, id, rest);
    RefundIdFound(Join(parts, "-"), |prefix|);
  }

  /** A semantic id with no `-` has a single part and so no refund id. */
  lemma RefundIdNeedsHyphen(semanticId: string)
    requires '-' !in semanticId
    ensures RefundId(semanticId) == None
  {
    assert CountChar(semanticId, '-') == 0;
  }

  // ---------------------------------------------------------------------------
  // Refund total, one row at a time

  /** Tagging one more row appends its tagged entry when it has a refund id. */
  lemma TagSnoc(refunds: seq<PricingComponent>, c: PricingComponent)
    ensures TagRefunds(refunds + [c]) == TagRefunds(refunds)
      + match RefundId(c.semanticId) { case None => [] case Some(id) => [TaggedRefund(id, c)] }
  {
    assert (refunds + [c])[..|refunds|] == refunds;
  }

  /** Every identified row is filed under its refund id. */
  lemma {:induction false} TaggedMember(refunds: seq<PricingComponent>, d: PricingComponent, id: string)
    requires d in refunds && RefundId(d.semanticId) == Some(id)
    ensures TaggedRefund(id, d) in TagRefunds(refunds)
  {
    var init, c := refunds[..|refunds| - 1], refunds[|refunds| - 1];
    assert refunds == init + [c];
    if d == c {
      TaggedLast(init, c, id);
    } else {
      assert d in init by {
        assert d in init + [c];
      }
      TaggedMember(init, d, id);
      TaggedKept(init, c, TaggedRefund(id, d));
    }
  }

  lemma TaggedLast(init: seq<PricingComponent>, c: PricingComponent, id: string)
    requires RefundId(c.semanticId) == Some(id)
    ensures TaggedRefund(id, c) in TagRefunds(init + [c])
  {
    TagSnoc(init, c);
  }

  lemma TaggedKept(init: seq<PricingComponent>, c: PricingComponent, t: TaggedRefund)
    requires t in TagRefunds(init)
    ensures t in TagRefunds(init + [c])
  {
    TagSnoc(init, c);
  }

  /** Summing the latest amounts of the same ids over two tagged lists that agree on
      every id's latest amount gives the same total. */
  lemma {:induction false} SumLatestCongruent(xs: seq<TaggedRefund>, ys: seq<TaggedRefund>, ids: seq<string>)
    requires forall k :: k in ids ==> IdLatestAmount(xs, k) == IdLatestAmount(ys, k)
    ensures SumLatest(xs, ids) == SumLatest(ys, ids)
  {
    if |ids| > 0 {
      assert ids[|ids| - 1] in ids;
      SumLatestCongruent(xs, ys, ids[..|ids| - 1]);
    }
  }

  /** When only id `k0` changes its latest amount, the sum changes by exactly that change. */
  lemma {:induction false} SumLatestOneChanged(xs: seq<TaggedRefund>, ys: seq<TaggedRefund>, ids: seq<string>, k0: string)
    requires NoDups(ids) && k0 in ids
    requires forall k :: k in ids && k != k0 ==> IdLatestAmount(xs, k) == IdLatestAmount(ys, k)
    ensures SumLatest(ys, ids) == SumLatest(xs, ids) - IdLatestAmount(xs, k0) + IdLatestAmount(ys, k0)
  {
    var init, last := ids[..|ids| - 1], ids[|ids| - 1];
    assert ids == init + [last];
    assert NoDups(init);
    if last == k0 {
      assert k0 !in init;
      SumLatestCongruent(xs, ys, init);
    } else {
      assert k0 in init;
      SumLatestOneChanged(xs, ys, init, k0);
    }
  }

  /** An id's latest amount depends only on the id's own entries. */
  lemma SameGroupSameAmount(xs: seq<TaggedRefund>, ys: seq<TaggedRefund>, k: string)
    requires WithKey(xs, TagId, k) == WithKey(ys, TagId, k)
    ensures IdLatestAmount(xs, k) == IdLatestAmount(ys, k)
  {
  }

  /** Appending an entry leaves the latest amount of every other refund id alone. */
  lemma OtherIdUnchanged(ts: seq<TaggedRefund>, t: TaggedRefund, k: string)
    requires t.refundId != k
    ensures IdLatestAmount(ts + [t], k) == IdLatestAmount(ts, k)
  {
    WithKeySnoc(ts, t, TagId, k);
    assert WithKey(ts + [t], TagId, k) == WithKey(ts, TagId, k) + [];
    SameGroupSameAmount(ts + [t], ts, k);
  }

  /** Appending an entry to a group whose latest row is at least as new keeps that
      latest row's amount. */
  lemma GroupKeepsLatest(g: seq<TaggedRefund>, t: TaggedRefund, u: TaggedRefund)
    requires u in g && u.row.version >= t.row.version
    ensures |g| > 0 && LatestAmount(g + [t]) == LatestAmount(g)
  {
    var j :| 0 <= j < |g| && g[j] == u;
    LatestIndexSnocNotNewer(g, t, TagVersion);
    assert (g + [t])[LatestIndex(g, TagVersion)] == g[LatestIndex(g, TagVersion)];
  }

  /** Appending an entry newer than every entry of its group makes it the latest. */
  lemma GroupTakesNewer(g: seq<TaggedRefund>, t: TaggedRefund)
    requires forall u :: u in g ==> u.row.version < t.row.version
    ensures LatestAmount(g + [t]) == t.row.amount
  {
    var g' := g + [t];
    var m := LatestIndex(g', TagVersion);
    assert g'[|g|] == t;
  }

  /** The refund total depends only on the tagged rows. */
  lemma SameTagsSameTotal(refunds: seq<PricingComponent>, refunds': seq<PricingComponent>)
    requires TagRefunds(refunds) == TagRefunds(refunds')
    ensures RefundTotal(refunds) == RefundTotal(refunds')
  {
  }

  /** Appending a refund row that has no refund id leaves the refund total unchanged:
      the row is skipped. */
  lemma RefundTotalUnidentified(refunds: seq<PricingComponent>, c: PricingComponent)
    requires RefundId(c.semanticId) == None
    ensures RefundTotal(refunds + [c]) == RefundTotal(refunds)
  {
    TagSnoc(refunds, c);
    assert TagRefunds(refunds + [c]) == TagRefunds(refunds) + [];
    SameTagsSameTotal(refunds + [c], refunds);
  }

  /** Appending the first row of a new refund id adds its amount to the refund total. */
  lemma RefundTotalNewId(refunds: seq<PricingComponent>, c: PricingComponent, id: string)
    requires RefundId(c.semanticId) == Some(id)
    requires forall d :: d in refunds ==> RefundId(d.semanticId) != Some(id)
    ensures RefundTotal(refunds + [c]) == RefundTotal(refunds) + c.amount
  {
    var ts := TagRefunds(refunds);
    var t := TaggedRefund(id, c);
    TagSnoc(refunds, c);
    assert TagRefunds(refunds + [c]) == ts + [t];
    assert id !in Keys(ts, TagId) by {
      if id in Keys(ts, TagId) {
        var u := KeyHasElement(ts, TagId, id);
      }
    }
    DistinctKeysSnoc(ts, t, TagId);
    var ids := RefundIds(ts);
    assert RefundIds(ts + [t]) == ids + [id];
    assert (ids + [id])[..|ids|] == ids;
    forall k | k in ids ensures IdLatestAmount(ts + [t], k) == IdLatestAmount(ts, k) {
      OtherIdUnchanged(ts, t, k);
    }
    SumLatestCongruent(ts + [t], ts, ids);
    assert IdLatestAmount(ts + [t], id) == c.amount by {
      WithKeyAbsent(ts, TagId, id);
      WithKeySnoc(ts, t, TagId, id);
      assert WithKey(ts + [t], TagId, id) == [t];
      GroupTakesNewer([], t);
    }
  }

  /** Appending a row of a known refund id whose version is not newer than that id's
      row `d` leaves the refund total unchanged: a superseded or repeated version never
      counts twice. */
  lemma RefundTotalSuperseded(refunds: seq<PricingComponent>, c: PricingComponent, d: PricingComponent, id: string)
    requires RefundId(c.semanticId) == Some(id)
    requires d in refunds && RefundId(d.semanticId) == Some(id) && d.version >= c.version
    ensures RefundTotal(refunds + [c]) == RefundTotal(refunds)
  {
    var ts := TagRefunds(refunds);
    var t := TaggedRefund(id, c);
    TagSnoc(refunds, c);
    assert TagRefunds(refunds + [c]) == ts + [t];
    TaggedMember(refunds, d, id);
    KeyInKeys(ts, TagId, TaggedRefund(id, d));
    DistinctKeysSnoc(ts, t, TagId);
    var ids := RefundIds(ts);
    assert RefundIds(ts + [t]) == ids;
    forall k | k in ids ensures IdLatestAmount(ts + [t], k) == IdLatestAmount(ts, k) {
      if k == id {
        WithKeySnoc(ts, t, TagId, id);
        GroupKeepsLatest(WithKey(ts, TagId, id), t, TaggedRefund(id, d));
      } else {
        OtherIdUnchanged(ts, t, k);
      }
    }
    SumLatestCongruent(ts + [t], ts, ids);
  }

  /** `d` is the row whose amount the refund total counts for refund id `id`: a row of
      that id with the greatest version. */
  ghost predicate CountedRow(d: PricingComponent, refunds: seq<PricingComponent>, id: string) {
    && d in refunds && RefundId(d.semanticId) == Some(id)
    && forall e :: e in refunds && RefundId(e.semanticId) == Some(id) ==> e.version <= d.version
  }

  /** On tagged entries: appending an entry newer than every entry of its (existing) id
      replaces that id's latest amount by the entry's amount. */
  lemma TagsRevised(ts: seq<TaggedRefund>, t: TaggedRefund)
    requires t.refundId in Keys(ts, TagId)
    requires forall u :: u in ts && u.refundId == t.refundId ==> u.row.version < t.row.version
    ensures SumLatest(ts + [t], RefundIds(ts + [t]))
         == SumLatest(ts, RefundIds(ts)) - IdLatestAmount(ts, t.refundId) + t.row.amount
  {
    var id := t.refundId;
    DistinctKeysSnoc(ts, t, TagId);
    var ids := RefundIds(ts);
    assert RefundIds(ts + [t]) == ids;
    forall k | k in ids && k != id ensures IdLatestAmount(ts, k) == IdLatestAmount(ts + [t], k) {
      OtherIdUnchanged(ts, t, k);
    }
    SumLatestOneChanged(ts, ts + [t], ids, id);
    var g := WithKey(ts, TagId, id);
    WithKeySnoc(ts, t, TagId, id);
    assert WithKey(ts + [t], TagId, id) == g + [t];
    GroupTakesNewer(g, t);
    assert IdLatestAmount(ts + [t], id) == t.row.amount;
  }

  /** The amount the refund total counts for a refund id that has rows is that of a
      counted row. */
  lemma CountedRowOf(refunds: seq<PricingComponent>, id: string, d0: PricingComponent) returns (d: PricingComponent)
    requires d0 in refunds && RefundId(d0.semanticId) == Some(id)
    ensures CountedRow(d, refunds, id)
    ensures IdLatestAmount(TagRefunds(refunds), id) == d.amount
  {
    var ts := TagRefunds(refunds);
    var g := WithKey(ts, TagId, id);
    TaggedMember(refunds, d0, id);
    assert TaggedRefund(id, d0) in g;
    var u := g[LatestIndex(g, TagVersion)];
    assert u in ts;
    d := u.row;
    forall e | e in refunds && RefundId(e.semanticId) == Some(id) ensures e.version <= d.version {
      TaggedMember(refunds, e, id);
      assert TaggedRefund(id, e) in g;
    }
  }

  /** Appending a newer version of a known refund id replaces that id's counted amount:
      the total loses the previous latest amount and gains the new one. */
  lemma RefundTotalRevised(refunds: seq<PricingComponent>, c: PricingComponent, d0: PricingComponent, id: string)
    requires RefundId(c.semanticId) == Some(id)
    requires d0 in refunds && RefundId(d0.semanticId) == Some(id)
    requires forall e :: e in refunds && RefundId(e.semanticId) == Some(id) ==> e.version < c.version
    ensures exists d :: (CountedRow(d, refunds, id)
      && RefundTotal(refunds + [c]) == RefundTotal(refunds) - d.amount + c.amount)
  {
    var ts := TagRefunds(refunds);
    var t := TaggedRefund(id, c);
    assert TagRefunds(refunds + [c]) == ts + [t] by {
      TagSnoc(refunds, c);
    }
    assert id in Keys(ts, TagId) by {
      TaggedMember(refunds, d0, id);
      KeyInKeys(ts, TagId, TaggedRefund(id, d0));
    }
    TagsRevised(ts, t);
    var d := CountedRowOf(refunds, id, d0);
    assert CountedRow(d, refunds, id) && RefundTotal(refunds + [c]) == RefundTotal(refunds) - d.amount + c.amount;
  }

  /** No two refund rows carry the same refund id. */
  ghost predicate NoRevisions(refunds: seq<PricingComponent>) {
    forall i, j :: 0 <= i < j < |refunds| && RefundId(refunds[i].semanticId).Some? ==>
      RefundId(refunds[i].semanticId) != RefundId(refunds[j].semanticId)
  }

  lemma NoRevisionsSnoc(init: seq<PricingComponent>, c: PricingComponent)
    requires NoRevisions(init + [c])
    ensures NoRevisions(init)
    ensures forall d :: d in init ==> RefundId(d.semanticId) == None || RefundId(d.semanticId) != RefundId(c.semanticId)
  {
    var refunds := init + [c];
    forall i, j | 0 <= i < j < |init| && RefundId(init[i].semanticId).Some?
      ensures RefundId(init[i].semanticId) != RefundId(init[j].semanticId)
    {
      assert refunds[i] == init[i] && refunds[j] == init[j];
    }
    forall d | d in init ensures RefundId(d.semanticId) == None || RefundId(d.semanticId) != RefundId(c.semanticId) {
      var i :| 0 <= i < |init| && init[i] == d;
      assert refunds[i] == d && refunds[|init|] == c;
    }
  }

  lemma TaggedSumSnoc(refunds: seq<PricingComponent>, c: PricingComponent)
    ensures SumBy(TagRefunds(refunds + [c]), TagAmount)
         == SumBy(TagRefunds(refunds), TagAmount) + (if RefundId(c.semanticId).Some? then c.amount else 0)
  {
    TagSnoc(refunds, c);
    var ts, ts' := TagRefunds(refunds), TagRefunds(refunds + [c]);
    match RefundId(c.semanticId)
    case None =>
      assert ts' == ts;
    case Some(id) =>
      var t := TaggedRefund(id, c);
      assert ts' == ts + [t];
      SumBySnoc(ts, t, TagAmount);
      assert SumBy(ts', TagAmount) == SumBy(ts, TagAmount) + c.amount;
  }

  /** Without revisions (no two refund rows carry the same refund id) the refund total
      is the plain sum of the amounts of the rows that have a refund id. */
  lemma {:induction false} RefundTotalWithoutRevisions(refunds: seq<PricingComponent>)
    requires NoRevisions(refunds)
    ensures RefundTotal(refunds) == SumBy(TagRefunds(refunds), TagAmount)
  {
    if |refunds| > 0 {
      var init, c := refunds[..|refunds| - 1], refunds[|refunds| - 1];
      assert refunds == init + [c];
      NoRevisionsSnoc(init, c);
      RefundTotalWithoutRevisions(init);
      RefundTotalStep(init, c);
      TaggedSumSnoc(init, c);
    }
  }

  /** Without revisions a further row adds its amount when it has a refund id. */
  lemma RefundTotalStep(init: seq<PricingComponent>, c: PricingComponent)
    requires NoRevisions(init + [c])
    ensures RefundTotal(init + [c]) == RefundTotal(init) + if RefundId(c.semanticId).Some? then c.amount else 0
  {
    NoRevisionsSnoc(init, c);
    match RefundId(c.semanticId)
    case None =>
      RefundTotalUnidentified(init, c);
    case Some(id) =>
      RefundTotalNewId(init, c, id);
  }

  // ---------------------------------------------------------------------------
  // Latest breakdown

  /** The regular and refund rows split the latest rows of the order between them, and
      the displayed total is the latest rows' sum less the refund rows' sum. */
  lemma BreakdownSplitsLatest(facts: seq<PricingComponent>, orderId: string)
    ensures LatestBreakdown(facts, orderId).Priced? ==>
      var b := LatestBreakdown(facts, orderId);
      var all := OrderLatest(facts, orderId);
      && |b.regular| + |b.refunds| == |all|
      && b.total == SumBy(all, ComponentAmount) - SumBy(b.refunds, ComponentAmount)
  {
    FilterComplement(OrderLatest(facts, orderId), IsRegular, IsRefundRow, ComponentAmount);
  }

  // ---------------------------------------------------------------------------
  // Dimensions

  /** A single pair renders as `k=v`. */
  lemma FormatDimensionsSingle(kv: (string, string))
    ensures FormatDimensions([kv]) == kv.0 + "=" + kv.1
  {
  }

  /** One more pair appends `", k=v"` to a non-empty rendering. */
  lemma FormatDimensionsSnoc(dims: seq<(string, string)>, kv: (string, string))
    requires |dims| > 0
    ensures FormatDimensions(dims + [kv]) == FormatDimensions(dims) + ", " + kv.0 + "=" + kv.1
  {
    var ps := FormatPairs(dims);
    assert FormatPairs(dims + [kv]) == ps + [FormatPair(kv)] by {
      assert (dims + [kv])[..|dims|] == dims;
    }
    JoinSnoc(ps, FormatPair(kv), ", ");
  }

  /** A pair with `=`-free key and value renders with exactly one `=`. */
  lemma PairHasOneEquals(kv: (string, string))
    requires '=' !in kv.0 && '=' !in kv.1
    ensures CountChar(FormatPair(kv), '=') == 1
  {
    CountCharAppend(kv.0 + "=", kv.1, '=');
    CountCharAppend(kv.0, "=", '=');
    assert "="[1..] == [];
  }

  /** With `=`-free keys and values, a non-empty rendering holds exactly one `=` per pair. */
  lemma {:induction false} FormatDimensionsPairCount(dims: seq<(string, string)>)
    requires |dims| > 0
    requires forall i :: 0 <= i < |dims| ==> '=' !in dims[i].0 && '=' !in dims[i].1
    ensures CountChar(FormatDimensions(dims), '=') == |dims|
  {
    var kv := dims[|dims| - 1];
    PairHasOneEquals(kv);
    if |dims| > 1 {
      var init := dims[..|dims| - 1];
      FormatDimensionsPairCount(init);
      PairCountStep(dims);
    } else {
      assert dims == [kv];
      FormatDimensionsSingle(kv);
    }
  }

  /** Appending a pair adds its one `=` and the `", "` separator adds none. */
  lemma PairCountStep(dims: seq<(string, string)>)
    requires |dims| > 1
    requires CountChar(FormatPair(dims[|dims| - 1]), '=') == 1
    ensures CountChar(FormatDimensions(dims), '=') == CountChar(FormatDimensions(dims[..|dims| - 1]), '=') + 1
  {
    var init, kv := dims[..|dims| - 1], dims[|dims| - 1];
    var f, p := FormatDimensions(init), FormatPair(kv);
    assert FormatDimensions(dims) == (f + ", ") + p by {
      assert dims == init + [kv];
      FormatDimensionsSnoc(init, kv);
    }
    assert CountChar((f + ", ") + p, '=') == CountChar(f, '=') + 1 by {
      CountCharAppend(f + ", ", p, '=');
      CountCharAppend(f, ", ", '=');
      assert '=' !in ", ";
    }
  }
}
