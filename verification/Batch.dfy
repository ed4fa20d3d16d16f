/** Version 2 delivery batches. */
module Batch {
  import opened Finite
  import opened Wire
  import opened Limits
  import opened Durable

  // ---------------------------------------------------------------------------
  // The batch a queue stands for
  // ---------------------------------------------------------------------------

  /** The members of a set in ascending order. */
  ghost predicate Lists(s: set<nat>, xs: seq<nat>) {
    && (forall i, j :: 0 <= i < j < |xs| ==> xs[i] < xs[j])
    && (forall x :: x in xs <==> x in s)
  }

  lemma ListsOnce(s: set<nat>, xs: seq<nat>, ys: seq<nat>)
    requires Lists(s, xs) && Lists(s, ys)
    ensures xs == ys
  {
    var a := seq(|xs|, i requires 0 <= i < |xs| => Keyed(xs[i], 0, xs[i]));
    var b := seq(|ys|, i requires 0 <= i < |ys| => Keyed(ys[i], 0, ys[i]));
    forall k
      ensures k in a <==> k == Keyed(k.value, 0, k.value) && k.value in s
      ensures k in b <==> k == Keyed(k.value, 0, k.value) && k.value in s
    {
      if k == Keyed(k.value, 0, k.value) && k.value in s {
        var i :| 0 <= i < |xs| && xs[i] == k.value;
        var j :| 0 <= j < |ys| && ys[j] == k.value;
        assert a[i] == k && b[j] == k;
      }
    }
    StrictOrderIsUnique(a, b);
    forall i | 0 <= i < |xs| ensures xs[i] == ys[i] { assert a[i] == b[i]; }
  }

  /** How many bytes an item takes in a batch. */
  ghost function ItemLength(s: nat, item: Item): nat {
    match item
    case Record(r) => V2RecordLength(s, r.admittedAt, EnvelopeLength(r.env))
    case Gap(n) => GapLength(n)
    case Damaged(_) => 0
  }

  function Delivered(s: nat, r: StoredRecord): RecordV2 { RecordV2(StableOf(r), r.recordId, s, r.admittedAt, r.env) }

  function KeyOf(s: nat, item: Item): ItemKey {
    match item
    case Record(r) => ItemKey(s, true, StableOf(r))
    case Gap(n) => ItemKey(s, false, n.noticeId)
    case Damaged(id) => ItemKey(s, true, id)
  }

  /** The first items of a queue as a batch. */
  function Records(v: map<nat, Item>, xs: seq<nat>): seq<RecordV2>
    requires forall x :: x in xs ==> x in v
  {
    if xs == [] then []
    else
      var s := xs[|xs| - 1];
      var rest := xs[..|xs| - 1];
      if v[s].Record? then Records(v, rest) + [Delivered(s, v[s].stored)] else Records(v, rest)
  }

  function Gaps(v: map<nat, Item>, xs: seq<nat>): seq<GapNotice>
    requires forall x :: x in xs ==> x in v
  {
    if xs == [] then []
    else
      var s := xs[|xs| - 1];
      var rest := xs[..|xs| - 1];
      if v[s].Gap? then Gaps(v, rest) + [v[s].notice] else Gaps(v, rest)
  }

  ghost function Bytes(v: map<nat, Item>, xs: seq<nat>): nat
    requires forall x :: x in xs ==> x in v
  {
    if xs == [] then 0
    else Bytes(v, xs[..|xs| - 1]) + ItemLength(xs[|xs| - 1], v[xs[|xs| - 1]])
  }

  function Keys(v: map<nat, Item>, xs: seq<nat>): (r: seq<ItemKey>)
    requires forall x :: x in xs ==> x in v
  {
    seq(|xs|, i requires 0 <= i < |xs| => KeyOf(xs[i], v[xs[i]]))
  }

  /** A batch stays within the configured number of items, 256 of each kind and the byte limit. */
  ghost predicate Fits(cfg: Config, v: map<nat, Item>, xs: seq<nat>)
    requires forall x :: x in xs ==> x in v
  {
    && |xs| <= cfg.batchMaxRecords
    && |Records(v, xs)| <= MAX_BATCH_ITEMS && |Gaps(v, xs)| <= MAX_BATCH_ITEMS
    && Bytes(v, xs) <= cfg.batchMaxBytes
  }

  /** The first `k` items of the queue are as many as fit. */
  ghost predicate MostThatFit(cfg: Config, v: map<nat, Item>, xs: seq<nat>, k: nat)
    requires forall x :: x in xs ==> x in v
  {
    k <= |xs| && Fits(cfg, v, xs[..k]) && (k == |xs| || !Fits(cfg, v, xs[..k + 1]))
  }

  ghost predicate BatchHolds(cfg: Config, v: map<nat, Item>, xs: seq<nat>, k: nat, b: BatchV2) {
    && Lists(v.Keys, xs) && MostThatFit(cfg, v, xs, k)
    && (forall i :: 0 <= i < k ==> !v[xs[i]].Damaged?)
    && b == BatchV2(BatchV2Digest(Keys(v, xs[..k])), Records(v, xs[..k]), Gaps(v, xs[..k]))
  }

  /** The batch is exactly the longest prefix of the queue, in sequence order, that fits, and its
      identifier names exactly these items. */
  ghost predicate IsBatch(cfg: Config, v: map<nat, Item>, b: BatchV2) {
    exists xs, k :: BatchHolds(cfg, v, xs, k, b)
  }

  lemma {:induction false} FitsShorter(cfg: Config, v: map<nat, Item>, xs: seq<nat>, k: nat)
    requires (forall x :: x in xs ==> x in v) && Fits(cfg, v, xs) && k <= |xs|
    ensures Fits(cfg, v, xs[..k])
    decreases |xs|
  {
    if k < |xs| {
      FitsShorter(cfg, v, xs[..|xs| - 1], k);
      assert xs[..|xs| - 1][..k] == xs[..k];
    } else {
      assert xs[..k] == xs;
    }
  }

  lemma MostIsUnique(cfg: Config, v: map<nat, Item>, xs: seq<nat>, j: nat, k: nat)
    requires (forall x :: x in xs ==> x in v) && MostThatFit(cfg, v, xs, j) && MostThatFit(cfg, v, xs, k)
    ensures j == k
  {
    if j < k { FitsFirst(cfg, v, xs, k, j + 1); }
    if k < j { FitsFirst(cfg, v, xs, j, k + 1); }
  }

  lemma FitsFirst(cfg: Config, v: map<nat, Item>, xs: seq<nat>, k: nat, n: nat)
    requires (forall x :: x in xs ==> x in v) && n <= k <= |xs| && Fits(cfg, v, xs[..k])
    ensures Fits(cfg, v, xs[..n])
  {
    FitsShorter(cfg, v, xs[..k], n);
    assert xs[..k][..n] == xs[..n];
  }

  /** A queue has one batch only: whatever leaves the queue the same, such as writing the gap file of
      a counted expiry or reopening, leaves the batch and its identifier the same. */
  lemma BatchIsUnique(cfg: Config, v: map<nat, Item>, a: BatchV2, b: BatchV2)
    requires IsBatch(cfg, v, a) && IsBatch(cfg, v, b)
    ensures a == b
  {
    var xs, j :| BatchHolds(cfg, v, xs, j, a);
    var ys, k :| BatchHolds(cfg, v, ys, k, b);
    ListsOnce(v.Keys, xs, ys);
    MostIsUnique(cfg, v, xs, j, k);
  }

  /** Different batch contents have different identifiers, and an empty batch means an empty queue
      when every single item fits. */
  lemma EmptyOnlyIfNothingPending(cfg: Config, v: map<nat, Item>, b: BatchV2)
    requires IsBatch(cfg, v, b) && 1 <= cfg.batchMaxRecords
    requires forall s :: s in v ==> ItemLength(s, v[s]) <= cfg.batchMaxBytes
    ensures b.records == [] && b.gaps == [] <==> v == map[]
  {
    var xs, k :| BatchHolds(cfg, v, xs, k, b);
    if xs != [] {
      assert xs[0] in v;
      OneFits(cfg, v, xs[0]);
      assert xs[..1] == [xs[0]] && xs[..0] == [];
      if k > 0 { NothingLost(v, xs[..k]); }
    } else {
      assert forall s :: s in v ==> s in xs;
    }
  }

  lemma OneFits(cfg: Config, v: map<nat, Item>, s: nat)
    requires s in v && ItemLength(s, v[s]) <= cfg.batchMaxBytes && 1 <= cfg.batchMaxRecords
    ensures Fits(cfg, v, [s])
  {
    assert [s][..0] == [];
    assert Bytes(v, [s]) == Bytes(v, []) + ItemLength(s, v[s]);
    assert Records(v, []) == [] && Gaps(v, []) == [];
  }

  lemma {:induction false} NothingLost(v: map<nat, Item>, xs: seq<nat>)
    requires forall x :: x in xs ==> x in v && !v[x].Damaged?
    ensures |Records(v, xs)| + |Gaps(v, xs)| == |xs|
  {
    if xs != [] { NothingLost(v, xs[..|xs| - 1]); }
  }

  // ---------------------------------------------------------------------------
  // Merging records and gaps back into one order
  // ---------------------------------------------------------------------------

  function KeyedRecord(r: RecordV2): Keyed<ItemKey> { Keyed(r.spoolSeq, 0, ItemKey(r.spoolSeq, true, r.recordId)) }

  function KeyedGap(n: GapNotice): Keyed<ItemKey> { Keyed(n.spoolSeq, 0, ItemKey(n.spoolSeq, false, n.noticeId)) }

  /** Records and gaps chained, as `batch_id_v2` and `v2_ack_is_merged_prefix` start. */
  function Chained(records: seq<RecordV2>, gaps: seq<GapNotice>): seq<Keyed<ItemKey>> {
    seq(|records|, i requires 0 <= i < |records| => KeyedRecord(records[i]))
    + seq(|gaps|, i requires 0 <= i < |gaps| => KeyedGap(gaps[i]))
  }

  /** ... and sorted by sequence number. */
  function Merged(records: seq<RecordV2>, gaps: seq<GapNotice>): seq<ItemKey> {
    var sorted := Sort(Chained(records, gaps));
    seq(|sorted|, i requires 0 <= i < |sorted| => sorted[i].value)
  }

  /** `batch_id_v2` */
  function BatchIdV2(records: seq<RecordV2>, gaps: seq<GapNotice>): BatchId { BatchV2Digest(Merged(records, gaps)) }

  predicate Increasing(xs: seq<nat>) { forall i, j :: 0 <= i < j < |xs| ==> xs[i] < xs[j] }

  /** A queue whose gaps carry the number they stand at. */
  ghost predicate GapsInPlace(v: map<nat, Item>) {
    forall s :: s in v && v[s].Gap? ==> v[s].notice.spoolSeq == s
  }

  /** The records of a batch are the records of the queue, in order. */
  lemma {:induction false} RecordsInOrder(v: map<nat, Item>, xs: seq<nat>)
    requires (forall x :: x in xs ==> x in v) && Increasing(xs)
    ensures forall i :: 0 <= i < |Records(v, xs)| ==>
              var r := Records(v, xs)[i];
              r.spoolSeq in xs && v[r.spoolSeq].Record? && r == Delivered(r.spoolSeq, v[r.spoolSeq].stored)
    ensures forall i, j :: 0 <= i < j < |Records(v, xs)| ==> Records(v, xs)[i].spoolSeq < Records(v, xs)[j].spoolSeq
    ensures forall x :: x in xs && v[x].Record? ==> Delivered(x, v[x].stored) in Records(v, xs)
  {
    if xs != [] {
      RecordsInOrder(v, xs[..|xs| - 1]);
      assert xs == xs[..|xs| - 1] + [xs[|xs| - 1]];
    }
  }

  lemma {:induction false} GapsInOrder(v: map<nat, Item>, xs: seq<nat>)
    requires (forall x :: x in xs ==> x in v) && Increasing(xs) && GapsInPlace(v)
    ensures forall i :: 0 <= i < |Gaps(v, xs)| ==>
              var n := Gaps(v, xs)[i]; n.spoolSeq in xs && v[n.spoolSeq] == Gap(n)
    ensures forall i, j :: 0 <= i < j < |Gaps(v, xs)| ==> Gaps(v, xs)[i].spoolSeq < Gaps(v, xs)[j].spoolSeq
    ensures forall x :: x in xs && v[x].Gap? ==> v[x].notice in Gaps(v, xs)
  {
    if xs != [] {
      GapsInOrder(v, xs[..|xs| - 1]);
      assert xs == xs[..|xs| - 1] + [xs[|xs| - 1]];
    }
  }

  ghost function KeyedItems(v: map<nat, Item>, xs: seq<nat>): seq<Keyed<ItemKey>>
    requires forall x :: x in xs ==> x in v
  {
    seq(|xs|, i requires 0 <= i < |xs| => Keyed(xs[i], 0, KeyOf(xs[i], v[xs[i]])))
  }

  lemma ChainedElements(v: map<nat, Item>, xs: seq<nat>, records: seq<RecordV2>, gaps: seq<GapNotice>, i: nat)
    requires forall x :: x in xs ==> x in v
    requires forall r :: r in records ==>
            r.spoolSeq in xs && v[r.spoolSeq].Record? && r == Delivered(r.spoolSeq, v[r.spoolSeq].stored)
    requires forall n :: n in gaps ==> n.spoolSeq in xs && v[n.spoolSeq] == Gap(n)
    requires i < |Chained(records, gaps)|
    ensures Chained(records, gaps)[i] in KeyedItems(v, xs)
  {
    var s := if i < |records| then records[i].spoolSeq else gaps[i - |records|].spoolSeq;
    assert i < |records| ==> records[i] in records;
    assert i >= |records| ==> gaps[i - |records|] in gaps;
    var j :| 0 <= j < |xs| && xs[j] == s;
    assert KeyedItems(v, xs)[j] == Chained(records, gaps)[i];
  }

  lemma ItemChained(v: map<nat, Item>, xs: seq<nat>, records: seq<RecordV2>, gaps: seq<GapNotice>, j: nat)
    requires (forall x :: x in xs ==> x in v) && j < |xs| && !v[xs[j]].Damaged? && GapsInPlace(v)
    requires v[xs[j]].Record? ==> Delivered(xs[j], v[xs[j]].stored) in records
    requires v[xs[j]].Gap? ==> v[xs[j]].notice in gaps
    ensures KeyedItems(v, xs)[j] in Chained(records, gaps)
  {
    var s, chain := xs[j], Chained(records, gaps);
    if v[s].Record? {
      var i :| 0 <= i < |records| && records[i] == Delivered(s, v[s].stored);
      assert chain[i] == KeyedItems(v, xs)[j];
    } else {
      var i :| 0 <= i < |gaps| && gaps[i] == v[s].notice;
      assert chain[|records| + i] == KeyedItems(v, xs)[j];
    }
  }

  lemma ChainedDiffer(records: seq<RecordV2>, gaps: seq<GapNotice>)
    requires forall i, j :: 0 <= i < j < |records| ==> records[i].spoolSeq < records[j].spoolSeq
    requires forall i, j :: 0 <= i < j < |gaps| ==> gaps[i].spoolSeq < gaps[j].spoolSeq
    requires forall i, j :: 0 <= i < |records| && 0 <= j < |gaps| ==> records[i].spoolSeq != gaps[j].spoolSeq
    ensures DifferentKeys(Chained(records, gaps))
  {
  }

  /** Merging the records and gaps of a batch gives back the order of the queue. */
  lemma MergedIsQueueOrder(v: map<nat, Item>, xs: seq<nat>)
    requires (forall x :: x in xs ==> x in v && !v[x].Damaged?) && Increasing(xs) && GapsInPlace(v)
    ensures Merged(Records(v, xs), Gaps(v, xs)) == Keys(v, xs)
  {
    var records, gaps := Records(v, xs), Gaps(v, xs);
    RecordsInOrder(v, xs);
    GapsInOrder(v, xs);
    ChainedDiffer(records, gaps);
    MergedIs(v, xs, records, gaps);
  }

  lemma MergedIs(v: map<nat, Item>, xs: seq<nat>, records: seq<RecordV2>, gaps: seq<GapNotice>)
    requires (forall x :: x in xs ==> x in v && !v[x].Damaged?) && Increasing(xs) && GapsInPlace(v)
    requires forall r :: r in records ==>
            r.spoolSeq in xs && v[r.spoolSeq].Record? && r == Delivered(r.spoolSeq, v[r.spoolSeq].stored)
    requires forall n :: n in gaps ==> n.spoolSeq in xs && v[n.spoolSeq] == Gap(n)
    requires forall x :: x in xs && v[x].Record? ==> Delivered(x, v[x].stored) in records
    requires forall x :: x in xs && v[x].Gap? ==> v[x].notice in gaps
    requires DifferentKeys(Chained(records, gaps))
    ensures Merged(records, gaps) == Keys(v, xs)
  {
    var chain, items := Chained(records, gaps), KeyedItems(v, xs);
    SortStrictly(chain);
    forall i | 0 <= i < |chain| ensures chain[i] in items { ChainedElements(v, xs, records, gaps, i); }
    forall j | 0 <= j < |items| ensures items[j] in chain { ItemChained(v, xs, records, gaps, j); }
    SameElements(chain, items);
    StrictOrderIsUnique(Sort(chain), items);
  }

  lemma SameElements<T>(a: seq<T>, b: seq<T>)
    requires (forall i :: 0 <= i < |a| ==> a[i] in b) && (forall j :: 0 <= j < |b| ==> b[j] in a)
    ensures forall x :: x in a <==> x in b
  {
  }

  // ---------------------------------------------------------------------------
  // Acknowledged prefixes
  // ---------------------------------------------------------------------------

  /** The identifiers of one kind among items. */
  function IdsOf(items: seq<ItemKey>, records: bool): set<RecordId> {
    set i | 0 <= i < |items| && items[i].isRecord == records :: items[i].id
  }

  /** No two items of a kind share an identifier. */
  predicate DistinctItems(items: seq<ItemKey>) {
    forall i, j :: 0 <= i < j < |items| && items[i].isRecord == items[j].isRecord ==> items[i].id != items[j].id
  }

  /** The acknowledgement accepts exactly the first `k` items. */
  predicate AcceptsFirst(items: seq<ItemKey>, ack: AckV2, k: nat) {
    && k <= |items|
    && Members(ack.recordIds) == IdsOf(items[..k], true)
    && Members(ack.gapIds) == IdsOf(items[..k], false)
  }

  predicate AcceptsItem(ack: AckV2, item: ItemKey) {
    if item.isRecord then item.id in ack.recordIds else item.id in ack.gapIds
  }

  lemma {:induction false} IdCount(items: seq<ItemKey>)
    requires DistinctItems(items)
    ensures |IdsOf(items, true)| + |IdsOf(items, false)| == |items|
  {
    if items != [] {
      var rest, last := items[..|items| - 1], items[|items| - 1];
      IdCount(rest);
      OneMoreId(rest, last, true);
      OneMoreId(rest, last, false);
      assert items == rest + [last];
    }
  }

  lemma OneMoreId(items: seq<ItemKey>, item: ItemKey, records: bool)
    ensures IdsOf(items + [item], records) ==
            if item.isRecord == records then IdsOf(items, records) + {item.id} else IdsOf(items, records)
    ensures DistinctItems(items + [item]) && item.isRecord == records ==> item.id !in IdsOf(items, records)
  {
    var more := items + [item];
    forall id
      ensures id in IdsOf(more, records) <==> id in IdsOf(items, records) || (item.isRecord == records && id == item.id)
    {
      if id in IdsOf(items, records) {
        var i :| 0 <= i < |items| && items[i].isRecord == records && items[i].id == id;
        assert more[i] == items[i];
      }
      if item.isRecord == records && id == item.id { assert more[|items|] == item; }
    }
    forall i | 0 <= i < |items| && items[i].isRecord == item.isRecord
      ensures DistinctItems(more) ==> items[i].id != item.id
    {
      assert more[i] == items[i] && more[|items|] == item;
    }
  }

  /** `v2_ack_is_merged_prefix`: true exactly when the acknowledgement accepts the first items of the
      batch in sequence order, all of them and nothing else. */
  method IsMergedPrefix(batch: BatchV2, ack: AckV2) returns (ok: bool)
    requires DistinctItems(Merged(batch.records, batch.gaps))
    ensures ok <==> exists k: nat :: AcceptsFirst(Merged(batch.records, batch.gaps), ack, k)
  {
    var acceptedRecords, acceptedGaps := Members(ack.recordIds), Members(ack.gapIds);
    var items := Merged(batch.records, batch.gaps);
    var matched := 0;
    var sawUnaccepted := false;
    for i := 0 to |items|
      invariant matched <= i && (!sawUnaccepted ==> matched == i)
      invariant sawUnaccepted ==> matched < i && !AcceptsItem(ack, items[matched])
      invariant forall j :: 0 <= j < i ==> (AcceptsItem(ack, items[j]) <==> j < matched)
    {
      var accepted := if items[i].isRecord then items[i].id in acceptedRecords else items[i].id in acceptedGaps;
      if accepted {
        if sawUnaccepted {
          NotFirst(items, ack, matched, i);
          return false;
        }
        matched := matched + 1;
      } else {
        sawUnaccepted := true;
      }
    }
    ok := matched == |acceptedRecords| + |acceptedGaps|;
    FirstByCount(items, ack, matched);
  }

  lemma AcceptsFirstItems(items: seq<ItemKey>, ack: AckV2, k: nat, i: nat)
    requires DistinctItems(items) && AcceptsFirst(items, ack, k) && i < |items|
    ensures AcceptsItem(ack, items[i]) <==> i < k
  {
    var ids := IdsOf(items[..k], items[i].isRecord);
    if i < k { assert items[..k][i] == items[i] && items[i].id in ids; }
    if AcceptsItem(ack, items[i]) {
      assert items[i].id in ids;
      var j :| 0 <= j < k && items[..k][j].isRecord == items[i].isRecord && items[..k][j].id == items[i].id;
      assert items[j] == items[..k][j];
    }
  }

  lemma NotFirst(items: seq<ItemKey>, ack: AckV2, i: nat, j: nat)
    requires DistinctItems(items) && i < j < |items| && !AcceptsItem(ack, items[i]) && AcceptsItem(ack, items[j])
    ensures forall k: nat :: !AcceptsFirst(items, ack, k)
  {
    forall k: nat ensures !AcceptsFirst(items, ack, k) {
      if AcceptsFirst(items, ack, k) {
        AcceptsFirstItems(items, ack, k, i);
        AcceptsFirstItems(items, ack, k, j);
      }
    }
  }

  lemma FirstByCount(items: seq<ItemKey>, ack: AckV2, matched: nat)
    requires DistinctItems(items) && matched <= |items|
    requires forall i :: 0 <= i < |items| ==> (AcceptsItem(ack, items[i]) <==> i < matched)
    ensures matched == |Members(ack.recordIds)| + |Members(ack.gapIds)| <==>
            exists k: nat :: AcceptsFirst(items, ack, k)
  {
    var first := items[..matched];
    IdCount(first);
    var rs, gs := IdsOf(first, true), IdsOf(first, false);
    assert rs <= Members(ack.recordIds) && gs <= Members(ack.gapIds);
    SubsetSize(rs, Members(ack.recordIds));
    SubsetSize(gs, Members(ack.gapIds));
    if matched == |Members(ack.recordIds)| + |Members(ack.gapIds)| {
      SameSize(rs, Members(ack.recordIds));
      SameSize(gs, Members(ack.gapIds));
      assert AcceptsFirst(items, ack, matched);
    }
    if exists k: nat :: AcceptsFirst(items, ack, k) {
      var k: nat :| AcceptsFirst(items, ack, k);
      if k < matched { AcceptsFirstItems(items, ack, k, k); }
      if matched < k { AcceptsFirstItems(items, ack, k, matched); }
    }
  }

  lemma SameSize<T>(a: set<T>, b: set<T>)
    requires a <= b && |a| == |b|
    ensures a == b
  {
    assert b == a + (b - a);
    assert |b - a| == 0;
  }
}
