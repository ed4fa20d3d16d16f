/** Version 2 acknowledgements. */
module Acknowledge {
  import opened Finite
  import opened Wire
  import opened Limits
  import opened Durable
  import opened Invariant
  import opened Safety
  import opened Cache
  import opened Machine
  import opened Expiry
  import opened Batch
  import opened Delivery
  import opened Receipts

  // ---------------------------------------------------------------------------
  // From accepted identifiers to exact occurrences
  // ---------------------------------------------------------------------------

  function AdmissionFrom(r: RecordV2): Admission { Admission(r.spoolSeq, r.recordId, r.legacyId) }

  function Admissions(records: seq<RecordV2>): seq<Admission> {
    seq(|records|, i requires 0 <= i < |records| => AdmissionFrom(records[i]))
  }

  /** The delivered records with an accepted identifier. */
  function Chosen(records: seq<RecordV2>, ids: set<RecordId>): seq<Admission> {
    if records == [] then []
    else
      var last := records[|records| - 1];
      Chosen(records[..|records| - 1], ids) + (if last.recordId in ids then [AdmissionFrom(last)] else [])
  }

  /** An entry stands for a delivered record. */
  predicate EntryFor(st: State, r: RecordV2) {
    r.legacyId in st.entries && AdmissionFor(st.entries[r.legacyId]) == AdmissionFrom(r)
  }

  /** `receipt_admissions_v2` */
  method ReceiptAdmissions(st: State, delivered: BatchV2, ack: AckV2) returns (r: Result<seq<Admission>>)
    ensures r.Ok? ==> r.value == Chosen(delivered.records, Members(ack.recordIds))
    ensures (forall i :: 0 <= i < |delivered.records| ==> EntryFor(st, delivered.records[i])) ==> r.Ok?
  {
    var accepted := Members(ack.recordIds);
    var admissions := [];
    for i := 0 to |delivered.records|
      invariant admissions == Chosen(delivered.records[..i], accepted)
    {
      var record := delivered.records[i];
      assert delivered.records[..i + 1][..i] == delivered.records[..i];
      if record.recordId in accepted {
        if record.legacyId !in st.entries { return Err(InvalidAcknowledgement); }
        var e := st.entries[record.legacyId];
        if e.spoolSeq != record.spoolSeq || e.stableId != record.recordId { return Err(InvalidAcknowledgement); }
        admissions := admissions + [Admission(record.spoolSeq, record.recordId, record.legacyId)];
      }
    }
    assert delivered.records[..|delivered.records|] == delivered.records;
    r := Ok(admissions);
  }

  /** The acknowledgement accepts exactly the first `m` numbers. */
  ghost predicate AcceptsUpTo(v: map<nat, Item>, xs: seq<nat>, ack: AckV2, m: nat) {
    && m <= |xs| && (forall x :: x in xs ==> x in v)
    && forall i {:trigger KeyOf(xs[i], v[xs[i]])} :: 0 <= i < |xs| ==>
        (AcceptsItem(ack, KeyOf(xs[i], v[xs[i]])) <==> i < m)
  }

  lemma OneMoreChosen(records: seq<RecordV2>, r: RecordV2, ids: set<RecordId>)
    ensures Chosen(records + [r], ids) == Chosen(records, ids) + (if r.recordId in ids then [AdmissionFrom(r)] else [])
    ensures Admissions(records + [r]) == Admissions(records) + [AdmissionFrom(r)]
  {
    assert (records + [r])[..|records|] == records;
  }

  /** Every record before `m` is chosen ... */
  lemma {:induction false} ChosenUpTo(v: map<nat, Item>, xs: seq<nat>, j: nat, ack: AckV2, m: nat)
    requires AcceptsUpTo(v, xs, ack, m) && j <= m
    ensures Chosen(Records(v, xs[..j]), Members(ack.recordIds)) == Admissions(Records(v, xs[..j]))
  {
    if j > 0 {
      ChosenUpTo(v, xs, j - 1, ack, m);
      ChosenStep(v, xs, j - 1, ack, m);
    }
  }

  /** ... and none from `m` on. */
  lemma {:induction false} ChosenIsPrefix(v: map<nat, Item>, xs: seq<nat>, j: nat, ack: AckV2, m: nat)
    requires AcceptsUpTo(v, xs, ack, m) && m <= j <= |xs|
    ensures Chosen(Records(v, xs[..j]), Members(ack.recordIds)) == Admissions(Records(v, xs[..m]))
  {
    if j == m {
      ChosenUpTo(v, xs, m, ack, m);
    } else {
      ChosenIsPrefix(v, xs, j - 1, ack, m);
      ChosenStep(v, xs, j - 1, ack, m);
    }
  }

  lemma ChosenStep(v: map<nat, Item>, xs: seq<nat>, j: nat, ack: AckV2, m: nat)
    requires AcceptsUpTo(v, xs, ack, m) && j < |xs|
    ensures var ids, s := Members(ack.recordIds), xs[j];
            var before, after := Records(v, xs[..j]), Records(v, xs[..j + 1]);
            if v[s].Record? then
              && Admissions(after) == Admissions(before) + [AdmissionFrom(Delivered(s, v[s].stored))]
              && Chosen(after, ids) ==
                 Chosen(before, ids) + (if j < m then [AdmissionFrom(Delivered(s, v[s].stored))] else [])
            else after == before
  {
    OneMoreItem(v, xs, j);
    var s, before := xs[j], Records(v, xs[..j]);
    assert AcceptsItem(ack, KeyOf(s, v[s])) <==> j < m;
    if v[s].Record? {
      OneMoreChosen(before, Delivered(s, v[s].stored), Members(ack.recordIds));
    } else {
      assert before + [] == before;
    }
  }

  lemma DistinctFirst(items: seq<ItemKey>, n: nat)
    requires DistinctItems(items) && n <= |items|
    ensures DistinctItems(items[..n])
  {
  }

  lemma {:induction false} KindCounts(v: map<nat, Item>, xs: seq<nat>, n: nat)
    requires n <= |xs| && (forall x :: x in xs ==> x in v && !v[x].Damaged?) && DistinctItems(Keys(v, xs))
    ensures |IdsOf(Keys(v, xs)[..n], true)| == |Records(v, xs[..n])|
    ensures |IdsOf(Keys(v, xs)[..n], false)| == |Gaps(v, xs[..n])|
  {
    if n > 0 {
      var items, key := Keys(v, xs)[..n - 1], KeyOf(xs[n - 1], v[xs[n - 1]]);
      KindCounts(v, xs, n - 1);
      OneMoreItem(v, xs, n - 1);
      assert Keys(v, xs)[..n] == items + [key];
      DistinctFirst(Keys(v, xs), n);
      OneMoreCounts(items, key, true);
      OneMoreCounts(items, key, false);
    }
  }

  lemma OneMoreCounts(items: seq<ItemKey>, key: ItemKey, records: bool)
    requires DistinctItems(items + [key])
    ensures |IdsOf(items + [key], records)| == |IdsOf(items, records)| + if key.isRecord == records then 1 else 0
  {
    OneMoreId(items, key, records);
  }

  lemma {:induction false} DistinctSize<T>(xs: seq<T>)
    requires Distinct(xs)
    ensures |Members(xs)| == |xs|
  {
    if xs != [] {
      DistinctSize(xs[..|xs| - 1]);
      assert xs == xs[..|xs| - 1] + [xs[|xs| - 1]];
      assert Members(xs) == Members(xs[..|xs| - 1]) + {xs[|xs| - 1]};
    }
  }

  /** Everything a receipt of the first `m` numbers needs to know about the queue. */
  ghost predicate Prefix(v: map<nat, Item>, xs: seq<nat>, ack: AckV2, m: nat) {
    && Increasing(xs) && GapsInPlace(v) && AcceptsUpTo(v, xs, ack, m)
    && (forall x :: x in xs ==> x in v && !v[x].Damaged?)
    && DistinctItems(Keys(v, xs)) && AcceptsFirst(Keys(v, xs), ack, m)
  }

  function ReceiptFor(ack: AckV2, sequence: nat, admissions: seq<Admission>): Receipt {
    Receipt(2, sequence, ack.batchId, [], ack.recordIds, ack.gapIds, admissions)
  }

  lemma KeysUpTo(v: map<nat, Item>, xs: seq<nat>, m: nat)
    requires m <= |xs| && forall x :: x in xs ==> x in v
    ensures Keys(v, xs)[..m] == Keys(v, xs[..m])
  {
  }

  /** The identifiers of the accepted items are those of the first records and gaps. */
  lemma AcceptedRecordIds(v: map<nat, Item>, xs: seq<nat>, ack: AckV2, m: nat)
    requires Prefix(v, xs, ack, m)
    ensures StableIds(Admissions(Records(v, xs[..m]))) == Members(ack.recordIds)
    ensures Distinct(ack.recordIds) ==> |Records(v, xs[..m])| == |ack.recordIds|
    ensures Distinct(ack.gapIds) ==> |Gaps(v, xs[..m])| == |ack.gapIds|
  {
    var ys := xs[..m];
    KeysUpTo(v, xs, m);
    KindCounts(v, xs, m);
    if Distinct(ack.recordIds) { DistinctSize(ack.recordIds); }
    if Distinct(ack.gapIds) { DistinctSize(ack.gapIds); }
    StableIdsOf(v, ys);
  }

  lemma StableIdsOf(v: map<nat, Item>, xs: seq<nat>)
    requires (forall x :: x in xs ==> x in v && !v[x].Damaged?) && Increasing(xs)
    ensures StableIds(Admissions(Records(v, xs))) == IdsOf(Keys(v, xs), true)
  {
    forall id
      ensures id in StableIds(Admissions(Records(v, xs))) <==> id in IdsOf(Keys(v, xs), true)
    {
      if id in StableIds(Admissions(Records(v, xs))) { AdmittedIsKey(v, xs, id); }
      if id in IdsOf(Keys(v, xs), true) { KeyIsAdmitted(v, xs, id); }
    }
  }

  lemma AdmittedIsKey(v: map<nat, Item>, xs: seq<nat>, id: RecordId)
    requires (forall x :: x in xs ==> x in v && !v[x].Damaged?) && Increasing(xs)
    requires id in StableIds(Admissions(Records(v, xs)))
    ensures id in IdsOf(Keys(v, xs), true)
  {
    var records := Records(v, xs);
    RecordsInOrder(v, xs);
    var a :| a in Admissions(records) && a.stableId == id;
    var i :| 0 <= i < |records| && Admissions(records)[i] == a;
    var s := records[i].spoolSeq;
    var j :| 0 <= j < |xs| && xs[j] == s;
    assert Keys(v, xs)[j] == KeyOf(s, v[s]);
  }

  lemma KeyIsAdmitted(v: map<nat, Item>, xs: seq<nat>, id: RecordId)
    requires (forall x :: x in xs ==> x in v && !v[x].Damaged?) && Increasing(xs)
    requires id in IdsOf(Keys(v, xs), true)
    ensures id in StableIds(Admissions(Records(v, xs)))
  {
    var records := Records(v, xs);
    RecordsInOrder(v, xs);
    var j :| 0 <= j < |xs| && Keys(v, xs)[j].isRecord && Keys(v, xs)[j].id == id;
    var i :| 0 <= i < |records| && records[i] == Delivered(xs[j], v[xs[j]].stored);
    assert Admissions(records)[i].stableId == id;
  }

  /** The accepted gap identifiers are those of the gaps among the first numbers. */
  lemma AcceptedGapId(v: map<nat, Item>, xs: seq<nat>, ack: AckV2, m: nat, g: RecordId)
    requires Prefix(v, xs, ack, m)
    ensures g in ack.gapIds <==> exists x :: x in xs[..m] && v[x].Gap? && v[x].notice.noticeId == g
  {
    var items := Keys(v, xs);
    KeysUpTo(v, xs, m);
    assert g in ack.gapIds <==> g in Members(ack.gapIds);
    if g in ack.gapIds {
      assert g in IdsOf(items[..m], false);
      var j :| 0 <= j < m && !items[..m][j].isRecord && items[..m][j].id == g;
      assert xs[..m][j] == xs[j] && items[..m][j] == KeyOf(xs[j], v[xs[j]]);
      assert xs[j] in xs[..m];
    }
    if x :| x in xs[..m] && v[x].Gap? && v[x].notice.noticeId == g {
      var j :| 0 <= j < m && xs[..m][j] == x;
      assert items[..m][j] == KeyOf(x, v[x]);
      assert g in IdsOf(items[..m], false);
    }
  }

  /** Gaps of the queue are named by digests that carry their number. */
  ghost predicate NoticesNamed(v: map<nat, Item>) {
    forall s :: s in v && v[s].Gap? ==>
      v[s].notice.spoolSeq == s && v[s].notice.noticeId.NoticeDigest? && v[s].notice.noticeId.spoolSeq == s
  }

  lemma QueueNoticesNamed(cfg: Config, run: Run)
    requires Legal(cfg, run)
    ensures NoticesNamed(View(End(run).disk)) && forall s :: s in View(End(run).disk) ==> 1 <= s < U64_MAX
  {
    var w := End(run);
    var v := View(w.disk);
    forall s | s in v
      ensures 1 <= s < U64_MAX
      ensures v[s].Gap? ==>
                v[s].notice.spoolSeq == s && v[s].notice.noticeId.NoticeDigest? && v[s].notice.noticeId.spoolSeq == s
    {
      FateAt(cfg, run, s);
      NumberIsU64(cfg, run, s);
    }
  }

  /** Two records of the queue are different events and two gaps have different notices. */
  lemma ItemsDiffer(cfg: Config, run: Run, s: nat, t: nat)
    requires Legal(cfg, run) && NoticesNamed(View(End(run).disk)) && s in View(End(run).disk)
    requires t in View(End(run).disk) && s != t
    requires var v := View(End(run).disk); (v[s].Record? && v[t].Record?) || (v[s].Gap? && v[t].Gap?)
    ensures KeyOf(s, View(End(run).disk)[s]).id != KeyOf(t, View(End(run).disk)[t]).id
  {
    if View(End(run).disk)[s].Record? {
      FateAt(cfg, run, s);
      FateAt(cfg, run, t);
      StablesDifferAt(cfg, run, s, t);
    }
  }

  lemma QueueDistinct(cfg: Config, run: Run, xs: seq<nat>)
    requires Legal(cfg, run) && Increasing(xs)
    requires forall x :: x in xs ==> x in View(End(run).disk) && !View(End(run).disk)[x].Damaged?
    ensures DistinctItems(Keys(View(End(run).disk), xs))
  {
    var v := View(End(run).disk);
    QueueNoticesNamed(cfg, run);
    var items := Keys(v, xs);
    forall i, j | 0 <= i < j < |items| && items[i].isRecord == items[j].isRecord
      ensures items[i].id != items[j].id
    {
      assert xs[i] in xs && xs[j] in xs;
      ItemsDiffer(cfg, run, xs[i], xs[j]);
    }
  }

  /** The batch numbers in terms of which an acknowledgement of a delivered batch is understood. */
  lemma DeliveredPrefix(cfg: Config, run: Run, xs: seq<nat>, k: nat, b: BatchV2, ack: AckV2, m: nat)
    requires Legal(cfg, run) && BatchHolds(cfg, View(End(run).disk), xs, k, b)
    requires AcceptsFirst(Keys(View(End(run).disk), xs[..k]), ack, m)
    ensures Prefix(View(End(run).disk), xs[..k], ack, m)
  {
    var v, ys := View(End(run).disk), xs[..k];
    forall x | x in ys ensures x in v && !v[x].Damaged? { var j :| 0 <= j < k && ys[j] == x; }
    QueueDistinct(cfg, run, ys);
    QueueGapsInPlace(cfg, run);
    forall i | 0 <= i < |ys|
      ensures AcceptsItem(ack, KeyOf(ys[i], v[ys[i]])) <==> i < m
    {
      AcceptsFirstItems(Keys(v, ys), ack, m, i);
      assert Keys(v, ys)[i] == KeyOf(ys[i], v[ys[i]]);
    }
  }

  /** The receipt names exactly the accepted items of the queue. */
  lemma ReceiptNames(v: map<nat, Item>, xs: seq<nat>, ack: AckV2, m: nat, sequence: nat)
    requires Prefix(v, xs, ack, m) && NoticesNamed(v)
    ensures var r := ReceiptFor(ack, sequence, Admissions(Records(v, xs[..m])));
            && (forall a :: a in r.admissions ==>
                a.spoolSeq in xs[..m] && v[a.spoolSeq].Record? && a == AdmissionOf(a.spoolSeq, v[a.spoolSeq].stored))
            && (forall g :: g in r.gapIds ==>
                g.NoticeDigest? && g.spoolSeq in xs[..m] && v[g.spoolSeq].Gap? && v[g.spoolSeq].notice.noticeId == g)
            && ReceiptSeqs(r) == Members(xs[..m])
  {
    var ys := xs[..m];
    var r := ReceiptFor(ack, sequence, Admissions(Records(v, ys)));
    RecordsInOrder(v, ys);
    forall a | a in r.admissions
      ensures a.spoolSeq in ys && v[a.spoolSeq].Record? && a == AdmissionOf(a.spoolSeq, v[a.spoolSeq].stored)
    {
      var i :| 0 <= i < |r.admissions| && r.admissions[i] == a;
      assert a == AdmissionFrom(Records(v, ys)[i]);
    }
    forall g | g in r.gapIds
      ensures g.NoticeDigest? && g.spoolSeq in ys && v[g.spoolSeq].Gap? && v[g.spoolSeq].notice.noticeId == g
    {
      AcceptedGapId(v, xs, ack, m, g);
    }
    forall x | x in ys
      ensures x in ReceiptSeqs(r)
    {
      if v[x].Record? {
        var i :| 0 <= i < |Records(v, ys)| && Records(v, ys)[i] == Delivered(x, v[x].stored);
        assert r.admissions[i] == AdmissionOf(x, v[x].stored);
      } else {
        AcceptedGapId(v, xs, ack, m, v[x].notice.noticeId);
      }
    }
  }

  lemma ReceiptIsShaped(v: map<nat, Item>, xs: seq<nat>, ack: AckV2, m: nat, sequence: nat)
    requires Prefix(v, xs, ack, m) && sequence < U64_MAX && (forall x :: x in xs ==> 1 <= x)
    requires ValidDigest(ack.batchId) && Distinct(ack.recordIds) && Distinct(ack.gapIds)
    requires |Records(v, xs)| <= MAX_BATCH_ITEMS && |Gaps(v, xs)| <= MAX_BATCH_ITEMS
    ensures ReceiptShape(ReceiptFor(ack, sequence, Admissions(Records(v, xs[..m]))))
  {
    AcceptedRecordIds(v, xs, ack, m);
    FewerFirst(v, xs, m);
    forall x | x in xs[..m] ensures x in v && 1 <= x { assert x in xs; }
    AdmissionsShaped(v, xs[..m]);
  }

  lemma AdmissionsShaped(v: map<nat, Item>, xs: seq<nat>)
    requires (forall x :: x in xs ==> x in v && 1 <= x) && Increasing(xs)
    ensures Distinct(Admissions(Records(v, xs)))
    ensures forall i :: 0 <= i < |Records(v, xs)| ==> Admissions(Records(v, xs))[i].spoolSeq > 0
  {
    RecordsInOrder(v, xs);
    var records := Records(v, xs);
    forall i, j | 0 <= i < j < |records|
      ensures Admissions(records)[i] != Admissions(records)[j]
    {
      assert records[i].spoolSeq < records[j].spoolSeq;
    }
    forall i | 0 <= i < |records| ensures Admissions(records)[i].spoolSeq > 0 { assert records[i].spoolSeq in xs; }
  }

  lemma {:induction false} FewerFirst(v: map<nat, Item>, xs: seq<nat>, m: nat)
    requires (forall x :: x in xs ==> x in v) && m <= |xs|
    ensures |Records(v, xs[..m])| <= |Records(v, xs)| && |Gaps(v, xs[..m])| <= |Gaps(v, xs)|
    decreases |xs|
  {
    if m < |xs| {
      FewerFirst(v, xs[..|xs| - 1], m);
      assert xs[..|xs| - 1][..m] == xs[..m];
    } else {
      assert xs[..m] == xs;
    }
  }

  /** Nothing of the queue is left before an accepted number. */
  lemma PrefixClosed(v: map<nat, Item>, xs: seq<nat>, k: nat, m: nat, s: nat, t: nat)
    requires Lists(v.Keys, xs) && m <= k <= |xs| && s in xs[..k][..m] && t in v && t < s
    ensures t in xs[..k][..m]
  {
    var i :| 0 <= i < m && xs[..k][..m][i] == s;
    var j :| 0 <= j < |xs| && xs[j] == t;
    assert j < i;
    assert xs[..k][..m][j] == t;
  }

  // ---------------------------------------------------------------------------
  // Acknowledging
  // ---------------------------------------------------------------------------

  predicate WellFormed(ack: AckV2) {
    ack.version == 2 && ValidDigest(ack.batchId) && Distinct(ack.recordIds) && Distinct(ack.gapIds)
  }

  /** The acknowledgement names the current batch and accepts exactly the numbers `accepted`, which are
      its first ones. */
  ghost predicate Acknowledges(cfg: Config, v: map<nat, Item>, ack: AckV2, accepted: set<nat>) {
    exists xs, k, b, m :: AcknowledgesFirst(cfg, v, ack, accepted, xs, k, b, m)
  }

  ghost predicate AcknowledgesFirst(cfg: Config, v: map<nat, Item>, ack: AckV2, accepted: set<nat>,
                                    xs: seq<nat>, k: nat, b: BatchV2, m: nat) {
    && BatchHolds(cfg, v, xs, k, b) && ack.batchId == b.batchId
    && m <= k && AcceptsFirst(Keys(v, xs[..k]), ack, m)
    && accepted == Members(xs[..k][..m])
  }

  /** The receipt of an acknowledgement of the current batch may be written, and accepts exactly what
      the acknowledgement accepts. */
  lemma MayAccept(cfg: Config, run: Run, st: State, ack: AckV2, accepted: set<nat>, xs: seq<nat>, k: nat,
                  b: BatchV2, m: nat, sequence: nat)
    requires Legal(cfg, run) && Steady(st, End(run)) && End(run).disk.pending.Keys !! End(run).disk.gaps.Keys
    requires AcknowledgesFirst(cfg, View(End(run).disk), ack, accepted, xs, k, b, m)
    requires WellFormed(ack) && ack.batchId !in st.receipts && st.nextReceipt <= sequence < U64_MAX
    ensures var r := ReceiptFor(ack, sequence, Chosen(b.records, Members(ack.recordIds)));
            MayWriteReceipt(End(run), r) && ReceiptSeqs(r) == accepted && forall a :: a in r.admissions ==>
                a.spoolSeq <= U64_MAX
  {
    var w := End(run);
    var v, ys := View(w.disk), xs[..k];
    var r := ReceiptFor(ack, sequence, Chosen(b.records, Members(ack.recordIds)));
    DeliveredPrefix(cfg, run, xs, k, b, ack, m);
    ChosenIsPrefix(v, ys, k, ack, m);
    assert ys[..k] == ys;
    QueueNoticesNamed(cfg, run);
    ReceiptNames(v, ys, ack, m, sequence);
    forall x | x in ys ensures 1 <= x { assert x in v; }
    ReceiptIsShaped(v, ys, ack, m, sequence);
    forall s, t | s in ReceiptSeqs(r) && t in v && t < s
      ensures t in ReceiptSeqs(r)
    {
      PrefixClosed(v, xs, k, m, s, t);
    }
    NewReceipt(st, w.disk, r);
    ReceiptIsLive(w.disk, r, ys[..m]);
    FirstOfBatch(cfg, w.disk, xs, k, b);
  }

  lemma FirstOfBatch(cfg: Config, d: Disk, xs: seq<nat>, k: nat, b: BatchV2)
    requires BatchHolds(cfg, View(d), xs, k, b)
    ensures NamesFirst(d, b.batchId)
  {
    if k > 0 {
      assert Keys(View(d), xs[..k])[0].spoolSeq == xs[0] && xs[0] in xs;
      forall t | t in View(d)
        ensures xs[0] <= t
      {
        var j :| 0 <= j < |xs| && xs[j] == t;
      }
    }
  }

  lemma ReceiptIsLive(d: Disk, r: Receipt, xs: seq<nat>)
    requires forall x :: x in xs ==> x in View(d)
    requires forall a :: a in r.admissions ==>
            a.spoolSeq in xs && View(d)[a.spoolSeq].Record? && a == AdmissionOf(a.spoolSeq, View(d)[a.spoolSeq].stored)
    requires forall g :: g in r.gapIds ==>
            g.NoticeDigest? && g.spoolSeq in xs && View(d)[g.spoolSeq].Gap? && View(d)[g.spoolSeq].notice.noticeId == g
    ensures AcceptsLive(d, r)
  {
  }

  lemma NewReceipt(st: State, d: Disk, r: Receipt)
    requires ReceiptsAgree(st, d) && r.batchId !in st.receipts && st.nextReceipt <= r.sequence
    ensures forall m :: m in d.receipts ==> m < r.sequence && d.receipts[m].batchId != r.batchId
  {
    forall m | m in d.receipts
      ensures m < r.sequence && d.receipts[m].batchId != r.batchId
    {
      assert HasReceipt(st, d, m);
    }
  }

  /** The checks of a delivered batch against an acknowledgement. */
  method Matches(delivered: BatchV2, ack: AckV2) returns (ok: bool)
    requires DistinctItems(Merged(delivered.records, delivered.gaps))
    ensures ok <==>
            && ack.batchId == delivered.batchId
            && exists m: nat :: AcceptsFirst(Merged(delivered.records, delivered.gaps), ack, m)
  {
    var recordIds := set r | r in delivered.records :: r.recordId;
    var gapIds := set n | n in delivered.gaps :: n.noticeId;
    var prefix := IsMergedPrefix(delivered, ack);
    if prefix {
      ghost var m: nat :| AcceptsFirst(Merged(delivered.records, delivered.gaps), ack, m);
      OnlyDelivered(delivered, ack, m);
      assert forall i :: 0 <= i < |ack.recordIds| ==> ack.recordIds[i] in ack.recordIds;
      assert forall i :: 0 <= i < |ack.gapIds| ==> ack.gapIds[i] in ack.gapIds;
    }
    ok := && delivered.batchId == ack.batchId
          && (forall i :: 0 <= i < |ack.recordIds| ==> ack.recordIds[i] in recordIds)
          && (forall i :: 0 <= i < |ack.gapIds| ==> ack.gapIds[i] in gapIds)
          && prefix;
  }

  /** What an accepted prefix names was delivered. */
  lemma OnlyDelivered(b: BatchV2, ack: AckV2, m: nat)
    requires AcceptsFirst(Merged(b.records, b.gaps), ack, m)
    ensures forall id :: id in ack.recordIds ==> exists r :: r in b.records && r.recordId == id
    ensures forall id :: id in ack.gapIds ==> exists n :: n in b.gaps && n.noticeId == id
  {
    var items := Merged(b.records, b.gaps);
    forall id | id in ack.recordIds
      ensures exists r :: r in b.records && r.recordId == id
    {
      assert id in IdsOf(items[..m], true);
      var i :| 0 <= i < m && items[..m][i].isRecord && items[..m][i].id == id;
      MergedFrom(b.records, b.gaps, i);
    }
    forall id | id in ack.gapIds
      ensures exists n :: n in b.gaps && n.noticeId == id
    {
      assert id in IdsOf(items[..m], false);
      var i :| 0 <= i < m && !items[..m][i].isRecord && items[..m][i].id == id;
      MergedFrom(b.records, b.gaps, i);
    }
  }

  lemma MergedFrom(records: seq<RecordV2>, gaps: seq<GapNotice>, i: nat)
    requires i < |Merged(records, gaps)|
    ensures var k := Merged(records, gaps)[i];
            if k.isRecord then exists r :: r in records && r.recordId == k.id
            else exists n :: n in gaps && n.noticeId == k.id
  {
    var chain := Chained(records, gaps);
    assert Sort(chain)[i] in chain;
    var j :| 0 <= j < |chain| && chain[j] == Sort(chain)[i];
    if j < |records| { assert records[j] in records; } else { assert gaps[j - |records|] in gaps; }
  }

  lemma DeliveredItems(cfg: Config, run: Run, b: BatchV2) returns (xs: seq<nat>, k: nat)
    requires Legal(cfg, run) && IsBatch(cfg, View(End(run).disk), b)
    ensures BatchHolds(cfg, View(End(run).disk), xs, k, b)
    ensures Merged(b.records, b.gaps) == Keys(View(End(run).disk), xs[..k]) && DistinctItems(Merged(b.records, b.gaps))
  {
    var v := View(End(run).disk);
    xs, k :| BatchHolds(cfg, v, xs, k, b);
    forall x | x in xs[..k] ensures x in v && !v[x].Damaged? { var j :| 0 <= j < k && xs[..k][j] == x; }
    QueueGapsInPlace(cfg, run);
    MergedIsQueueOrder(v, xs[..k]);
    QueueDistinct(cfg, run, xs[..k]);
  }

  /** The acknowledgements of a queue are those of its one batch. */
  lemma AcknowledgesBatch(cfg: Config, v: map<nat, Item>, ack: AckV2, xs: seq<nat>, k: nat, b: BatchV2)
    requires BatchHolds(cfg, v, xs, k, b)
    ensures (exists accepted :: Acknowledges(cfg, v, ack, accepted)) <==>
            ack.batchId == b.batchId && exists m: nat :: AcceptsFirst(Keys(v, xs[..k]), ack, m)
  {
    if m: nat :| ack.batchId == b.batchId && AcceptsFirst(Keys(v, xs[..k]), ack, m) {
      assert AcknowledgesFirst(cfg, v, ack, Members(xs[..k][..m]), xs, k, b, m);
      assert Acknowledges(cfg, v, ack, Members(xs[..k][..m]));
    }
    if accepted :| Acknowledges(cfg, v, ack, accepted) {
      var ys, j, c, m :| AcknowledgesFirst(cfg, v, ack, accepted, ys, j, c, m);
      assert IsBatch(cfg, v, b) && IsBatch(cfg, v, c);
      BatchIsUnique(cfg, v, b, c);
      ListsOnce(v.Keys, xs, ys);
      MostIsUnique(cfg, v, xs, k, j);
    }
  }

  /** The receipt for an acknowledgement, if it names the current batch and accepts its first items. */
  method Examine(store: Store, st: State, delivered: BatchV2, ack: AckV2)
    returns (r: Result<Receipt>, ghost accepted: set<nat>)
    requires store.Valid() && Steady(st, store.W()) && store.disk.pending.Keys !! store.disk.gaps.Keys
    requires IsBatch(store.cfg, View(store.disk), delivered) && WellFormed(ack) && ack.batchId !in st.receipts
    ensures r.Ok? ==>
              && Acknowledges(store.cfg, View(store.disk), ack, accepted)
              && MayWriteReceipt(store.W(), r.value) && ReceiptSeqs(r.value) == accepted
              && st.nextReceipt < U64_MAX && r.value == ReceiptFor(ack, st.nextReceipt, r.value.admissions)
    ensures r.Err? && st.nextReceipt < U64_MAX ==>
            r.error.InvalidAcknowledgement? && forall s :: !Acknowledges(store.cfg, View(store.disk), ack, s)
  {
    ghost var v := View(store.disk);
    ghost var xs, k := DeliveredItems(store.cfg, store.run, delivered);
    AcknowledgesBatch(store.cfg, v, ack, xs, k, delivered);
    accepted := {};
    var ok := Matches(delivered, ack);
    if !ok { return Err(InvalidAcknowledgement), accepted; }
    ghost var m: nat :| AcceptsFirst(Keys(v, xs[..k]), ack, m);
    accepted := Members(xs[..k][..m]);
    assert AcknowledgesFirst(store.cfg, v, ack, accepted, xs, k, delivered, m);
    var admissions := ReceiptAdmissions(st, delivered, ack);
    EntriesDelivered(store.cfg, store.run, st, xs, k, delivered);
    if admissions.Err? { assert false; }
    if st.nextReceipt >= U64_MAX { return Err(InvalidConfig), accepted; }
    var receipt := ReceiptFor(ack, st.nextReceipt, admissions.value);
    MayAccept(store.cfg, store.run, st, ack, accepted, xs, k, delivered, m, st.nextReceipt);
    ReceiptIsReadable(receipt);
    if ReceiptLength(receipt) + ENCRYPTION_OVERHEAD > MAX_ENCRYPTED_RECEIPT_BYTES { assert false; }
    r := Ok(receipt);
  }

  /** A new acknowledgement: accepted exactly when it names the current batch and accepts its first
      items, and then the queue loses exactly these in one step and the receipt answers from then on. */
  ghost predicate AnswersNew(cfg: Config, run: Run, st: State, ack: AckV2, r: Result<AckResultV2>,
                             accepted: set<nat>, run': Run, st': State) {
    var v := View(End(run).disk);
    && (r.Ok? ==>
          && Acknowledges(cfg, v, ack, accepted) && Loses(run, run', accepted)
          && r.value == AckResultV2(ack.recordIds, ack.gapIds)
          && End(run').hist == End(run).hist.(acked := End(run).hist.acked + accepted)
          && Newest(st'.receipts, ack.batchId) && Remembers(st'.receipts[ack.batchId], ack)
          && |st'.receipts| <= MAX_ACK_RECEIPTS && st.nextReceipt < U64_MAX
          && OnlyNew(st.receipts, st'.receipts, ack.batchId))
    && (r.Err? ==> Unmoved(run, run') && st' == st)
    && (r.Err? && st.nextReceipt < U64_MAX ==>
        r.error.InvalidAcknowledgement? && forall s :: !Acknowledges(cfg, v, ack, s))
  }

  /** What happens once the current batch is known: an acknowledgement of its first items is accepted,
      any other is refused and changes nothing. */
  method AcceptDelivered(store: Store, st: State, delivered: BatchV2, ack: AckV2)
    returns (r: Result<AckResultV2>, st': State, ghost accepted: set<nat>)
    requires store.Valid() && Steady(st, store.W()) && store.disk.pending.Keys !! store.disk.gaps.Keys
    requires IsBatch(store.cfg, View(store.disk), delivered) && WellFormed(ack) && ack.batchId !in st.receipts
    modifies store
    ensures store.Valid() && Steady(st', store.W()) && Continues(old(store.run), store.run)
    ensures AnswersNew(store.cfg, old(store.run), st, ack, r, accepted, store.run, st')
    ensures store.W().hist.damaged == old(store.W().hist.damaged)
  {
    var receipt;
    receipt, accepted := Examine(store, st, delivered, ack);
    UnmovedSame(store.run);
    if receipt.Err? { return Err(receipt.error), st, accepted; }
    st' := StoreAnswer(store, st, ack, receipt.value);
    r := Ok(AckResultV2(ack.recordIds, ack.gapIds));
  }

  /** Stores the receipt of an acknowledgement. */
  method StoreAnswer(store: Store, st: State, ack: AckV2, receipt: Receipt) returns (st': State)
    requires store.Valid() && Steady(st, store.W()) && MayWriteReceipt(store.W(), receipt)
    requires Acknowledges(store.cfg, View(store.disk), ack, ReceiptSeqs(receipt)) && ack.batchId !in st.receipts
    requires receipt == ReceiptFor(ack, st.nextReceipt, receipt.admissions) && st.nextReceipt < U64_MAX
    modifies store
    ensures store.Valid() && Steady(st', store.W()) && Continues(old(store.run), store.run)
    ensures AnswersNew(store.cfg, old(store.run), st, ack, Ok(AckResultV2(ack.recordIds, ack.gapIds)),
                ReceiptSeqs(receipt), store.run, st')
    ensures store.W().hist.damaged == old(store.W().hist.damaged)
  {
    var next := st.(nextReceipt := st.nextReceipt + 1);
    NextReceipt(st, store.W(), next);
    st' := StoreReceipt(store, next, receipt);
    Answered(store.cfg, old(store.run), st, ack, receipt, store.run, st');
  }

  /** A receipt for the acknowledgement was stored. */
  lemma Answered(cfg: Config, run: Run, st: State, ack: AckV2, receipt: Receipt, run': Run, st': State)
    requires Acknowledges(cfg, View(End(run).disk), ack, ReceiptSeqs(receipt)) && Loses(run, run', ReceiptSeqs(receipt))
    requires End(run').hist == ApplyHistory(End(run).disk, End(run).hist, WriteReceipt(receipt))
    requires receipt == ReceiptFor(ack, receipt.sequence, receipt.admissions)
    requires ack.batchId in st'.receipts && st'.receipts[ack.batchId] == receipt && |st'.receipts| <= MAX_ACK_RECEIPTS
    requires OnlyNew(st.receipts, st'.receipts, ack.batchId) && Newest(st'.receipts, ack.batchId)
    requires st.nextReceipt < U64_MAX
    ensures AnswersNew(cfg, run, st, ack, Ok(AckResultV2(ack.recordIds, ack.gapIds)), ReceiptSeqs(receipt), run', st')
  {
  }

  /** A retained receipt answers an acknowledgement: it is of version 2 and accepts the same ids. */
  predicate Replays(prior: Receipt, ack: AckV2) {
    prior.version == 2 && SameIds(prior.stableIds, ack.recordIds) && SameIds(prior.gapIds, ack.gapIds)
  }

  /** The receipt holds the very identifiers the acknowledgement sent, in their order. */
  predicate Remembers(prior: Receipt, ack: AckV2) {
    prior.version == 2 && prior.stableIds == ack.recordIds && prior.gapIds == ack.gapIds
  }

  lemma NextReceipt(st: State, w: World, st': State)
    requires Steady(st, w) && st' == st.(nextReceipt := st.nextReceipt + 1)
    ensures Steady(st', w)
  {
    EntriesUntouched(st, st', w, w);
    GapsUntouched(st, st', w.disk, w.disk);
    ReceiptsUntouched(st, st', w.disk, w.disk);
    forall s ensures Lags(st', w.disk, s) { assert Lags(st, w.disk, s); }
  }

  lemma EntriesDelivered(cfg: Config, run: Run, st: State, xs: seq<nat>, k: nat, b: BatchV2)
    requires Legal(cfg, run) && Steady(st, End(run)) && BatchHolds(cfg, View(End(run).disk), xs, k, b)
    ensures forall i :: 0 <= i < |b.records| ==> EntryFor(st, b.records[i])
  {
    var v := View(End(run).disk);
    RecordsInOrder(v, xs[..k]);
    forall i | 0 <= i < |b.records|
      ensures EntryFor(st, b.records[i])
    {
      RecordHasEntry(cfg, run, st, b.records[i].spoolSeq);
    }
  }

  lemma RecordHasEntry(cfg: Config, run: Run, st: State, s: nat)
    requires Legal(cfg, run) && EntriesAgree(st, End(run)) && s in View(End(run).disk) && View(End(run).disk)[s].Record?
    ensures EntryFor(st, Delivered(s, View(End(run).disk)[s].stored))
  {
    FateAt(cfg, run, s);
    assert HasEntry(st, End(run), s);
  }

  // ---------------------------------------------------------------------------
  // Replaying
  // ---------------------------------------------------------------------------

  lemma NothingLeft(w: World, r: Receipt)
    requires AllSettled(w) && r.sequence in w.disk.receipts && w.disk.receipts[r.sequence] == r
    ensures w.disk.pending - ReceiptSeqs(r) == w.disk.pending && w.disk.gaps - ReceiptSeqs(r) == w.disk.gaps
    ensures SettledBut(w, ReceiptSeqs(r))
  {
    forall s | s in ReceiptSeqs(r) ensures s !in w.disk.pending && s !in w.disk.gaps { assert Settled(w, s); }
    forall s | s !in ReceiptSeqs(r) ensures Settled(w, s) { assert Settled(w, s); }
  }

  /** The agreeing entries and gaps depend on the files alone. */
  lemma SameFilesSameCache(st: State, w: World, st': State, w': World)
    requires Cached(st, w) && Cached(st', w') && w'.hist.admitted == w.hist.admitted
    requires w'.disk.pending == w.disk.pending && w'.disk.gaps == w.disk.gaps
    ensures st'.entries == st.entries && st'.gaps == st.gaps
  {
    EntriesUntouched(st, st, w, w');
    GapsUntouched(st, st, w.disk, w'.disk);
    forall id
      ensures id in st.entries <==> id in st'.entries
      ensures id in st.entries ==> st'.entries[id] == st.entries[id]
      ensures id in st.gaps <==> id in st'.gaps
      ensures id in st.gaps ==> st'.gaps[id] == st.gaps[id]
    {
      SameEntry(st, st', w', id);
      SameEntry(st', st, w', id);
      SameGap(st, st', w'.disk, id);
      SameGap(st', st, w'.disk, id);
    }
  }

  /** Completing a retained receipt again changes no entry, no gap and no file but the sequence state. */
  method Recomplete(store: Store, st: State, b: BatchId) returns (st': State)
    requires store.Valid() && Steady(st, store.W()) && b in st.receipts
    modifies store
    ensures store.Valid() && Steady(st', store.W()) && Unmoved(old(store.run), store.run)
    ensures st'.entries == st.entries && st'.gaps == st.gaps && SameReceipts(st, st')
    ensures store.disk == old(store.disk).(sequence := store.disk.sequence)
  {
    ghost var w := store.W();
    assert ReceiptOnDisk(st, store.disk, b);
    NothingLeft(w, st.receipts[b]);
    st' := CompleteReceipt(store, st, st.receipts[b]);
    SameFilesSameCache(st, w, st', store.W());
  }

  // ---------------------------------------------------------------------------
  // The operation
  // ---------------------------------------------------------------------------

  /** Exact replay: a retained receipt gives its answer again, to the same identifiers only, and no
      entry, gap or item of the queue changes. */
  ghost predicate AnswersAgain(run: Run, st: State, ack: AckV2, r: Result<AckResultV2>, run': Run, st': State)
    requires ack.batchId in st.receipts
  {
    var prior := st.receipts[ack.batchId];
    && (if Replays(prior, ack) then r == Ok(AckResultV2(prior.stableIds, prior.gapIds))
        else r == Err(InvalidAcknowledgement))
    && Unmoved(run, run') && st'.entries == st.entries && st'.gaps == st.gaps && SameReceipts(st, st')
  }

  method Replay(store: Store, st: State, ack: AckV2) returns (r: Result<AckResultV2>, st': State)
    requires store.Valid() && Steady(st, store.W()) && ack.batchId in st.receipts
    modifies store
    ensures store.Valid() && Steady(st', store.W()) && AnswersAgain(old(store.run), st, ack, r, store.run, st')
  {
    var prior := st.receipts[ack.batchId];
    UnmovedSame(store.run);
    if !Replays(prior, ack) { return Err(InvalidAcknowledgement), st; }
    st' := Recomplete(store, st, ack.batchId);
    r := Ok(AckResultV2(prior.stableIds, prior.gapIds));
  }

  /** A new acknowledgement in a directory that may hold damaged files: `mid` and `stm` are what looking
      up the current batch left, with damaged records turned into gaps; the answer is exact for the
      queue there. A refusal forgets nothing. */
  ghost predicate AnswersAfter(cfg: Config, run: Run, mid: Run, stm: State, ack: AckV2, r: Result<AckResultV2>,
                               accepted: set<nat>, run': Run, st': State) {
    && Kept(run, mid)
    && (|| AnswersNew(cfg, mid, stm, ack, r, accepted, run', st')
        || (End(run).hist.damaged && r.Err? && run' == mid && st' == stm))
  }

  method AcceptNew(store: Store, st: State, ack: AckV2)
    returns (r: Result<AckResultV2>, st': State, ghost accepted: set<nat>, ghost mid: Run, ghost stm: State)
    requires store.Valid() && Steady(st, store.W()) && WellFormed(ack) && ack.batchId !in st.receipts
    modifies store
    ensures store.Valid() && Steady(st', store.W()) && Continues(old(store.run), store.run)
    ensures AnswersAfter(store.cfg, old(store.run), mid, stm, ack, r, accepted, store.run, st')
    ensures !store.W().hist.damaged ==> AnswersNew(store.cfg, old(store.run), st, ack, r, accepted, store.run, st')
  {
    accepted := {};
    var delivered;
    delivered, st' := BuildBatchV2(store, st);
    mid, stm := store.run, st';
    if delivered.Err? { return Err(delivered.error), st', accepted, mid, stm; }
    var before := st';
    r, st', accepted := AcceptDelivered(store, before, delivered.value, ack);
    if !store.W().hist.damaged {
      KeepsThenAnswers(store.cfg, old(store.run), mid, store.run, st, ack, r, accepted, st');
    }
  }

  lemma KeepsThenAnswers(cfg: Config, a: Run, b: Run, c: Run, st: State, ack: AckV2, r: Result<AckResultV2>,
                         accepted: set<nat>, st': State)
    requires Kept(a, b) && !End(a).hist.damaged && Continues(b, c) && AnswersNew(cfg, b, st, ack, r, accepted, c, st')
    ensures AnswersNew(cfg, a, st, ack, r, accepted, c, st')
  {
    if r.Ok? { KeepsThenLoses(a, b, c, accepted); } else { UnmovedTwice(a, b, c); }
  }

  lemma KeepsThenLoses(a: Run, b: Run, c: Run, accepted: set<nat>)
    requires Kept(a, b) && !End(a).hist.damaged && Continues(b, c) && Loses(b, c, accepted)
    ensures Loses(a, c, accepted)
  {
    var v := View(End(a).disk);
    VisitsWider(b, |a.steps|, {v}, {v, v - accepted});
    VisitsJoin(b, c, |a.steps|, {v, v - accepted});
  }

  // ---------------------------------------------------------------------------
  // What an acknowledgement can reach
  // ---------------------------------------------------------------------------

  /** A batch identifier pins the occurrences: an acknowledgement only ever accepts numbers the batch
      with its identifier was built from, so never an occurrence admitted later. */
  lemma OnlyTheDelivered(cfg: Config, v: map<nat, Item>, ack: AckV2, accepted: set<nat>, s: nat)
    requires Acknowledges(cfg, v, ack, accepted) && s in accepted
    ensures ack.batchId.BatchV2Digest? && s in v && KeyOf(s, v[s]) in ack.batchId.items
  {
    var xs, k: nat, b, m: nat :| AcknowledgesFirst(cfg, v, ack, accepted, xs, k, b, m);
    var ys := xs[..k];
    assert s in ys[..m];
    var i: nat :| i < |ys[..m]| && ys[..m][i] == s;
    assert ys[i] == s && xs[i] in xs;
    assert Keys(v, ys)[i] == KeyOf(s, v[s]);
  }

  predicate NamesNothing(ack: AckV2) { ack.recordIds == [] && ack.gapIds == [] }

  /** An acknowledgement accepts nothing exactly if it names nothing. */
  lemma AcceptsNothing(cfg: Config, v: map<nat, Item>, ack: AckV2, accepted: set<nat>)
    requires Acknowledges(cfg, v, ack, accepted)
    ensures accepted == {} <==> NamesNothing(ack)
  {
    var xs, k: nat, b, m: nat :| AcknowledgesFirst(cfg, v, ack, accepted, xs, k, b, m);
    var items := Keys(v, xs[..k]);
    if m == 0 {
      assert items[..m] == [];
      NoIds(ack);
      NoMembers(xs[..k][..m]);
    } else {
      assert items[..m][0] == items[0];
      assert items[0].id in IdsOf(items[..m], items[0].isRecord);
      assert xs[..k][..m][0] in Members(xs[..k][..m]);
    }
  }

  lemma NoIds(ack: AckV2)
    requires Members(ack.recordIds) == IdsOf([], true) && Members(ack.gapIds) == IdsOf([], false)
    ensures NamesNothing(ack)
  {
    SomeMember(ack.recordIds);
    SomeMember(ack.gapIds);
    assert IdsOf([], true) == {} && IdsOf([], false) == {};
  }

  /** The current batch can always be acknowledged without accepting anything. */
  lemma NothingAcknowledged(cfg: Config, v: map<nat, Item>, b: BatchV2)
    requires IsBatch(cfg, v, b)
    ensures Acknowledges(cfg, v, AckV2(2, b.batchId, [], []), {})
  {
    var xs, k: nat :| BatchHolds(cfg, v, xs, k, b);
    var ack := AckV2(2, b.batchId, [], []);
    NoMembers(xs[..k][..0]);
    assert AcceptsFirst(Keys(v, xs[..k]), ack, 0);
    assert AcknowledgesFirst(cfg, v, ack, {}, xs, k, b, 0);
  }

  /** After an accepted acknowledgement the next batch has a new identifier, unless the acknowledgement
      named nothing. In that one case the batch stays current while its identifier has a receipt. */
  lemma BatchMovesOn(cfg: Config, v: map<nat, Item>, ack: AckV2, accepted: set<nat>, next: BatchV2)
    requires Acknowledges(cfg, v, ack, accepted) && IsBatch(cfg, v - accepted, next)
    ensures next.batchId == ack.batchId <==> NamesNothing(ack)
  {
    AcceptsNothing(cfg, v, ack, accepted);
    var xs, k: nat, b, m: nat :| AcknowledgesFirst(cfg, v, ack, accepted, xs, k, b, m);
    var ys, j: nat :| BatchHolds(cfg, v - accepted, ys, j, next);
    if accepted == {} {
      assert v - accepted == v;
      SameBatch(cfg, v, xs, k, b, ys, j, next);
    } else {
      FirstAccepted(xs, k, m, accepted);
      if next.batchId == ack.batchId { FirstKeyDiffers(cfg, v, accepted, xs, k, b, ys, j, next); }
    }
  }

  lemma SameBatch(cfg: Config, v: map<nat, Item>, xs: seq<nat>, k: nat, b: BatchV2, ys: seq<nat>, j: nat, c: BatchV2)
    requires BatchHolds(cfg, v, xs, k, b) && BatchHolds(cfg, v, ys, j, c)
    ensures b == c
  {
    BatchIsUnique(cfg, v, b, c);
  }

  lemma SomeMember<T>(xs: seq<T>)
    ensures xs != [] ==> Members(xs) != {}
  {
    if xs != [] { assert xs[0] in Members(xs); }
  }

  lemma NoMembers<T>(xs: seq<T>)
    ensures |xs| == 0 ==> Members(xs) == {}
  {
  }

  lemma FirstAccepted(xs: seq<nat>, k: nat, m: nat, accepted: set<nat>)
    requires m <= k <= |xs| && accepted == Members(xs[..k][..m]) && accepted != {}
    ensures 0 < k && xs[0] in accepted
  {
    NoMembers(xs[..k][..m]);
    assert xs[..k][..m][0] == xs[0];
  }

  lemma FirstKeyDiffers(cfg: Config, v: map<nat, Item>, accepted: set<nat>, xs: seq<nat>, k: nat, b: BatchV2,
                        ys: seq<nat>, j: nat, c: BatchV2)
    requires BatchHolds(cfg, v, xs, k, b) && BatchHolds(cfg, v - accepted, ys, j, c) && 0 < k && xs[0] in accepted
    ensures b.batchId != c.batchId
  {
    assert Keys(v, xs[..k])[0].spoolSeq == xs[0];
    if 0 < j {
      assert ys[0] in ys;
      assert Keys(v - accepted, ys[..j])[0].spoolSeq == ys[0];
    } else {
      assert |Keys(v - accepted, ys[..j])| == 0;
    }
  }

  /** Only the empty acknowledgement is answered by an empty receipt. */
  lemma EmptyReceiptRefuses(prior: Receipt, ack: AckV2, more: AckV2)
    requires Replays(prior, ack) && NamesNothing(ack) && !NamesNothing(more)
    ensures !Replays(prior, more)
  {
  }

  /** What an acknowledgement accepts next starts above the first item the last one accepted. */
  lemma NextStartsLater(cfg: Config, v: map<nat, Item>, ack: AckV2, accepted: set<nat>, more: AckV2, others: set<nat>)
    returns (first: nat)
    requires Acknowledges(cfg, v, ack, accepted) && !NamesNothing(ack)
    requires Acknowledges(cfg, v - accepted, more, others) && !NamesNothing(more)
    ensures first in v && more.batchId.BatchV2Digest? && more.batchId.items != []
    ensures first < more.batchId.items[0].spoolSeq
    ensures more.batchId != ack.batchId
  {
    AcceptsNothing(cfg, v, ack, accepted);
    AcceptsNothing(cfg, v - accepted, more, others);
    var xs, k: nat, b, m: nat :| AcknowledgesFirst(cfg, v, ack, accepted, xs, k, b, m);
    var ys, j: nat, c, n: nat :| AcknowledgesFirst(cfg, v - accepted, more, others, ys, j, c, n);
    FirstAccepted(xs, k, m, accepted);
    FirstAccepted(ys, j, n, others);
    assert IsBatch(cfg, v - accepted, c);
    BatchMovesOn(cfg, v, ack, accepted, c);
    first := xs[0];
    FirstKey(v - accepted, ys, j);
    LaterFirst(v, accepted, xs, ys);
  }

  lemma FirstKey(v: map<nat, Item>, xs: seq<nat>, k: nat)
    requires 0 < k <= |xs| && forall x :: x in xs ==> x in v
    ensures Keys(v, xs[..k]) != [] && Keys(v, xs[..k])[0].spoolSeq == xs[0]
  {
  }

  lemma LaterFirst(v: map<nat, Item>, accepted: set<nat>, xs: seq<nat>, ys: seq<nat>)
    requires Lists(v.Keys, xs) && Lists((v - accepted).Keys, ys) && xs != [] && ys != [] && xs[0] in accepted
    ensures xs[0] in v && xs[0] < ys[0]
  {
    assert xs[0] in xs && ys[0] in ys;
    var i :| 0 <= i < |xs| && xs[i] == ys[0];
  }
}
