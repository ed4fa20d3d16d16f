/** The in-memory state of the spool and what it means for it to agree with the disk. */
module Cache {
  import opened Finite
  import opened Wire
  import opened Limits
  import opened Durable
  import opened Invariant

  datatype Error =
    | InvalidConfig
    | CapacityExceeded
    | BatchItemTooLarge
    | CorruptRecord
    | SequenceStateMissing
    | V1AcknowledgementHistoryPruned
    | InvalidAcknowledgement
    | ProtocolUpgradeRequired

  datatype Result<+T> = Ok(value: T) | Err(error: Error)

  datatype Entry = Entry(
    recordId: RecordId, stableId: RecordId, spoolSeq: nat, admittedAt: int, expiresAt: int, bytes: nat)

  /** `State`: maps keyed by record id, notice id and batch id, with running totals. */
  datatype State = State(
    entries: map<RecordId, Entry>, stableIndex: map<RecordId, RecordId>, gaps: map<RecordId, GapNotice>,
    receipts: map<BatchId, Receipt>, next: nat, nextReceipt: nat, v1Pruned: bool,
    pendingBytes: nat, gapBytes: nat, corruptRecords: nat, expiredRecords: nat, counted: map<nat, RecordId>)

  const EMPTY_STATE: State := State(map[], map[], map[], map[], 1, 0, false, 0, 0, 0, 0, map[])

  function EntryOf(s: nat, r: StoredRecord, bytes: nat): Entry {
    Entry(r.recordId, StableOf(r), s, r.admittedAt, r.expiresAt, bytes)
  }

  function AdmissionFor(e: Entry): Admission { Admission(e.spoolSeq, e.stableId, e.recordId) }

  function ExpiryNotice(e: Entry): GapNotice { NoticeFor(e.spoolSeq, e.stableId, e.expiresAt, RetentionExpired) }

  // ---------------------------------------------------------------------------
  // Agreement
  // ---------------------------------------------------------------------------

  /** Every pending file has its entry. */
  ghost predicate HasEntry(st: State, w: World, s: nat) {
    s in w.disk.pending ==>
      && s in w.hist.admitted
      && w.hist.admitted[s].recordId in st.entries
      && st.entries[w.hist.admitted[s].recordId] == EntryOf(s, w.hist.admitted[s], w.disk.pending[s].bytes)
  }

  /** Every entry has its pending file. */
  ghost predicate EntryOnDisk(st: State, w: World, id: RecordId) {
    id in st.entries ==>
      var s := st.entries[id].spoolSeq;
      && s in w.disk.pending && s in w.hist.admitted && w.hist.admitted[s].recordId == id
      && st.entries[id] == EntryOf(s, w.hist.admitted[s], w.disk.pending[s].bytes)
  }

  /** The stable index is the inverse of the entries. */
  ghost predicate Indexed(st: State, id: RecordId) {
    && (id in st.entries ==> st.entries[id].stableId in st.stableIndex && st.stableIndex[st.entries[id].stableId] == id)
    && (id in st.stableIndex ==> st.stableIndex[id] in st.entries && st.entries[st.stableIndex[id]].stableId == id)
  }

  ghost predicate HasGap(st: State, d: Disk, s: nat) {
    s in d.gaps ==>
      d.gaps[s].spoolSeq == s && d.gaps[s].noticeId in st.gaps && st.gaps[d.gaps[s].noticeId] == d.gaps[s]
  }

  ghost predicate GapOnDisk(st: State, d: Disk, id: RecordId) {
    id in st.gaps ==>
      && st.gaps[id].noticeId == id && ValidNotice(st.gaps[id])
      && st.gaps[id].spoolSeq in d.gaps && d.gaps[st.gaps[id].spoolSeq] == st.gaps[id]
  }

  ghost predicate HasReceipt(st: State, d: Disk, n: nat) {
    n in d.receipts ==>
      d.receipts[n].sequence == n && d.receipts[n].batchId in st.receipts
          && st.receipts[d.receipts[n].batchId] == d.receipts[n]
  }

  ghost predicate ReceiptOnDisk(st: State, d: Disk, b: BatchId) {
    b in st.receipts ==>
      st.receipts[b].batchId == b && st.receipts[b].sequence in d.receipts
          && d.receipts[st.receipts[b].sequence] == st.receipts[b]
  }

  ghost predicate EntriesAgree(st: State, w: World) {
    && (forall s {:trigger HasEntry(st, w, s)} :: HasEntry(st, w, s))
    && (forall id {:trigger EntryOnDisk(st, w, id)} :: EntryOnDisk(st, w, id))
    && (forall id {:trigger Indexed(st, id)} :: Indexed(st, id))
    && st.pendingBytes == Total(PendingSizes(w.disk.pending))
    && |st.entries| == |w.disk.pending|
  }

  ghost predicate GapsAgree(st: State, d: Disk) {
    && (forall s {:trigger HasGap(st, d, s)} :: HasGap(st, d, s))
    && (forall id {:trigger GapOnDisk(st, d, id)} :: GapOnDisk(st, d, id))
    && st.gapBytes == Total(GapSizes(d.gaps))
    && |st.gaps| == |d.gaps|
  }

  ghost predicate ReceiptsAgree(st: State, d: Disk) {
    && (forall n {:trigger HasReceipt(st, d, n)} :: HasReceipt(st, d, n))
    && (forall b {:trigger ReceiptOnDisk(st, d, b)} :: ReceiptOnDisk(st, d, b))
    && (forall n :: n in d.receipts ==> n < st.nextReceipt)
    && |st.receipts| == |d.receipts|
  }

  /** The three caches agree with the disk. */
  ghost predicate Cached(st: State, w: World) {
    EntriesAgree(st, w) && GapsAgree(st, w.disk) && ReceiptsAgree(st, w.disk)
  }

  /** What `persist_sequence_state` writes for a state. */
  function SequenceOf(st: State): SequenceState { SequenceState(st.next, st.expiredRecords, st.counted, st.v1Pruned) }

  /** The stored sequence state is the one in memory. */
  ghost predicate Synced(st: State, w: World) {
    w.disk.sequence == Some(SequenceOf(st)) && st.next == w.hist.next
  }

  /** The stored counted map may still hold numbers whose pending files are gone. */
  ghost predicate Lags(st: State, d: Disk, s: nat) {
    && (s in st.counted ==> s in Ledger(d).counted && Ledger(d).counted[s] == st.counted[s])
    && (s in Ledger(d).counted && s !in st.counted ==> s !in d.pending)
  }

  ghost predicate Lagging(st: State, w: World) {
    && st.next == w.hist.next && Ledger(w.disk).expiredTotal == st.expiredRecords
    && Ledger(w.disk).v1Pruned == st.v1Pruned
    && (forall s {:trigger Lags(st, w.disk, s)} :: Lags(st, w.disk, s))
  }

  /** Nothing a receipt accepts is left. */
  ghost predicate Settled(w: World, s: nat) {
    Accepted(w.disk.receipts, s) ==> !OnDisk(w.disk, s)
  }

  ghost predicate AllSettled(w: World) {
    forall s {:trigger Settled(w, s)} :: Settled(w, s)
  }

  /** Undamaged, no pending file is shadowed by a gap and only pending numbers are counted. */
  ghost predicate Tidy(st: State, w: World) {
    !w.hist.damaged ==> w.disk.pending.Keys !! w.disk.gaps.Keys && st.counted.Keys <= w.disk.pending.Keys
  }

  /** Nothing about receipts changed. */
  predicate SameAnswers(st: State, st': State) {
    st'.receipts == st.receipts && st'.nextReceipt == st.nextReceipt && st'.v1Pruned == st.v1Pruned
  }

  /** ... nor the next number. */
  predicate SameReceipts(st: State, st': State) { SameAnswers(st, st') && st'.next == st.next }

  /** ... nor the counters. */
  predicate SameTotals(st: State, st': State) {
    SameReceipts(st, st') && st'.expiredRecords == st.expiredRecords && st'.corruptRecords == st.corruptRecords
  }

  predicate SameGaps(st: State, st': State) { st'.gaps == st.gaps && st'.gapBytes == st.gapBytes }

  predicate SameEntries(st: State, st': State) {
    st'.entries == st.entries && st'.stableIndex == st.stableIndex && st'.pendingBytes == st.pendingBytes
  }

  /** Nothing but receipts and the pruned flag changed. */
  predicate OnlyReceipts(st: State, st': State) {
    && SameEntries(st, st') && SameGaps(st, st') && st'.counted == st.counted && st'.next == st.next
    && st'.nextReceipt == st.nextReceipt && st'.expiredRecords == st.expiredRecords
    && st'.corruptRecords == st.corruptRecords
  }

  /** Between two operations. */
  ghost predicate Steady(st: State, w: World) {
    && Cached(st, w) && Lagging(st, w) && AllSettled(w) && Tidy(st, w)
    && w.disk.sequence.Some? && Ledger(w.disk).next == st.next
    && (!w.hist.damaged ==> Synced(st, w))
  }

  // ---------------------------------------------------------------------------
  // The agreeing state is unique, so it does not depend on the order files are listed in
  // ---------------------------------------------------------------------------

  lemma AgreementIsUnique(a: State, b: State, w: World)
    requires Cached(a, w) && Synced(a, w) && Cached(b, w) && Synced(b, w)
    ensures a == b.(nextReceipt := a.nextReceipt, corruptRecords := a.corruptRecords)
  {
    forall id
      ensures id in a.entries <==> id in b.entries
      ensures id in a.entries ==> a.entries[id] == b.entries[id]
      ensures id in a.stableIndex <==> id in b.stableIndex
      ensures id in a.stableIndex ==> a.stableIndex[id] == b.stableIndex[id]
    {
      SameEntry(a, b, w, id);
      SameEntry(b, a, w, id);
      SameIndex(a, b, w, id);
      SameIndex(b, a, w, id);
    }
    assert a.entries == b.entries && a.stableIndex == b.stableIndex;
    forall id
      ensures id in a.gaps <==> id in b.gaps
      ensures id in a.gaps ==> a.gaps[id] == b.gaps[id]
    {
      SameGap(a, b, w.disk, id);
      SameGap(b, a, w.disk, id);
    }
    assert a.gaps == b.gaps;
    forall id
      ensures id in a.receipts <==> id in b.receipts
      ensures id in a.receipts ==> a.receipts[id] == b.receipts[id]
    {
      SameReceipt(a, b, w.disk, id);
      SameReceipt(b, a, w.disk, id);
    }
    assert a.receipts == b.receipts;
  }

  lemma SameEntry(a: State, b: State, w: World, id: RecordId)
    requires EntriesAgree(a, w) && EntriesAgree(b, w)
    ensures id in a.entries ==> id in b.entries && a.entries[id] == b.entries[id]
  {
    assert EntryOnDisk(a, w, id);
    if id in a.entries { assert HasEntry(b, w, a.entries[id].spoolSeq); }
  }

  lemma SameIndex(a: State, b: State, w: World, id: RecordId)
    requires EntriesAgree(a, w) && EntriesAgree(b, w)
    ensures id in a.stableIndex ==> id in b.stableIndex && a.stableIndex[id] == b.stableIndex[id]
  {
    assert Indexed(a, id);
    if id in a.stableIndex {
      SameEntry(a, b, w, a.stableIndex[id]);
      assert Indexed(b, a.stableIndex[id]);
    }
  }

  lemma SameGap(a: State, b: State, d: Disk, id: RecordId)
    requires GapsAgree(a, d) && GapsAgree(b, d)
    ensures id in a.gaps ==> id in b.gaps && a.gaps[id] == b.gaps[id]
  {
    assert GapOnDisk(a, d, id);
    if id in a.gaps { assert HasGap(b, d, a.gaps[id].spoolSeq); }
  }

  lemma SameReceipt(a: State, b: State, d: Disk, id: BatchId)
    requires ReceiptsAgree(a, d) && ReceiptsAgree(b, d)
    ensures id in a.receipts ==> id in b.receipts && a.receipts[id] == b.receipts[id]
  {
    assert ReceiptOnDisk(a, d, id);
    if id in a.receipts { assert HasReceipt(b, d, a.receipts[id].sequence); }
  }

  // ---------------------------------------------------------------------------
  // Agreement across each step
  // ---------------------------------------------------------------------------

  function AddEntry(st: State, e: Entry): State {
    st.(entries := st.entries[e.recordId := e], stableIndex := st.stableIndex[e.stableId := e.recordId],
        pendingBytes := st.pendingBytes + e.bytes)
  }

  function DropEntry(st: State, e: Entry): State {
    st.(entries := st.entries - {e.recordId}, stableIndex := st.stableIndex - {e.stableId},
        pendingBytes := SaturatingSub(st.pendingBytes, e.bytes))
  }

  function AddGap(st: State, n: GapNotice): State {
    st.(gaps := st.gaps[n.noticeId := n], gapBytes := st.gapBytes + GapBytes(n))
  }

  function DropGap(st: State, n: GapNotice): State {
    st.(gaps := st.gaps - {n.noticeId}, gapBytes := SaturatingSub(st.gapBytes, GapBytes(n)))
  }

  /** The entry of a removed pending file goes; every other entry stays. */
  lemma EntriesAfterRemoval(st: State, w: World, e: Entry, q: bool)
    requires EntriesAgree(st, w) && e.recordId in st.entries && st.entries[e.recordId] == e
    ensures e.spoolSeq in w.disk.pending
    ensures EntriesAgree(DropEntry(st, e), Apply(w, RemovePending(e.spoolSeq, q)))
  {
    var s, st', w' := e.spoolSeq, DropEntry(st, e), Apply(w, RemovePending(e.spoolSeq, q));
    assert EntryOnDisk(st, w, e.recordId) && Indexed(st, e.recordId);
    forall t
      ensures HasEntry(st', w', t)
    {
      assert HasEntry(st, w, t);
    }
    forall id ensures EntryOnDisk(st', w', id) { assert EntryOnDisk(st, w, id); assert HasEntry(st, w, s); }
    forall id
      ensures Indexed(st', id)
    {
      assert Indexed(st, id);
      if id in st.stableIndex { assert Indexed(st, st.stableIndex[id]); }
    }
    PendingWithoutOne(w.disk.pending, s);
  }

  lemma PendingWithoutOne(pending: map<nat, PendingFile>, s: nat)
    requires s in pending
    ensures Total(PendingSizes(pending)) == pending[s].bytes + Total(PendingSizes(pending - {s}))
    ensures |pending - {s}| == |pending| - 1
  {
    TotalSplit(PendingSizes(pending), s);
    assert PendingSizes(pending) - {s} == PendingSizes(pending - {s});
  }

  lemma EntriesAfterAdmit(st: State, w: World, s: nat, f: PendingFile)
    requires EntriesAgree(st, w) && s !in w.disk.pending && s !in w.hist.admitted && f.contents.Intact?
    requires f.contents.stored.recordId !in st.entries && StableOf(f.contents.stored) !in st.stableIndex
    ensures EntriesAgree(AddEntry(st, EntryOf(s, f.contents.stored, f.bytes)), Apply(w, WritePending(s, f)))
  {
    var e := EntryOf(s, f.contents.stored, f.bytes);
    var st', w' := AddEntry(st, e), Apply(w, WritePending(s, f));
    forall t ensures HasEntry(st', w', t) { assert HasEntry(st, w, t); }
    forall id ensures EntryOnDisk(st', w', id) { assert EntryOnDisk(st, w, id); }
    forall id
      ensures Indexed(st', id)
    {
      assert Indexed(st, id);
    }
    PendingTotal(w.disk.pending, s, f);
  }

  /** Steps that leave the pending directory and the admitted records alone. */
  lemma EntriesUntouched(st: State, st': State, w: World, w': World)
    requires EntriesAgree(st, w)
    requires w'.disk.pending == w.disk.pending && w'.hist.admitted == w.hist.admitted
    requires st'.entries == st.entries && st'.stableIndex == st.stableIndex && st'.pendingBytes == st.pendingBytes
    ensures EntriesAgree(st', w')
  {
    forall t ensures HasEntry(st', w', t) { assert HasEntry(st, w, t); }
    forall id ensures EntryOnDisk(st', w', id) { assert EntryOnDisk(st, w, id); }
    forall id ensures Indexed(st', id) { assert Indexed(st, id); }
  }

  lemma GapsAfterWrite(st: State, d: Disk, n: GapNotice)
    requires GapsAgree(st, d) && n.spoolSeq !in d.gaps && n.noticeId !in st.gaps && ValidNotice(n)
    ensures GapsAgree(AddGap(st, n), ApplyDisk(d, WriteGap(n.spoolSeq, n)))
  {
    var st', d' := AddGap(st, n), ApplyDisk(d, WriteGap(n.spoolSeq, n));
    forall t ensures HasGap(st', d', t) { assert HasGap(st, d, t); }
    forall id ensures GapOnDisk(st', d', id) { assert GapOnDisk(st, d, id); }
    GapTotal(d.gaps, n.spoolSeq, n);
  }

  lemma GapsAfterRemoval(st: State, d: Disk, n: GapNotice)
    requires GapsAgree(st, d) && n.noticeId in st.gaps && st.gaps[n.noticeId] == n
    ensures n.spoolSeq in d.gaps && d.gaps[n.spoolSeq] == n
    ensures GapsAgree(DropGap(st, n), ApplyDisk(d, RemoveGap(n.spoolSeq)))
  {
    var st', d' := DropGap(st, n), ApplyDisk(d, RemoveGap(n.spoolSeq));
    assert GapOnDisk(st, d, n.noticeId);
    forall t ensures HasGap(st', d', t) { assert HasGap(st, d, t); }
    forall id ensures GapOnDisk(st', d', id) { assert GapOnDisk(st, d, id); }
    GapsWithoutOne(d.gaps, n.spoolSeq);
  }

  lemma GapsWithoutOne(gaps: map<nat, GapNotice>, s: nat)
    requires s in gaps
    ensures Total(GapSizes(gaps)) == GapBytes(gaps[s]) + Total(GapSizes(gaps - {s})) && |gaps - {s}| == |gaps| - 1
  {
    TotalSplit(GapSizes(gaps), s);
    assert GapSizes(gaps) - {s} == GapSizes(gaps - {s});
  }

  lemma GapsUntouched(st: State, st': State, d: Disk, d': Disk)
    requires GapsAgree(st, d) && d'.gaps == d.gaps && st'.gaps == st.gaps && st'.gapBytes == st.gapBytes
    ensures GapsAgree(st', d')
  {
    forall t ensures HasGap(st', d', t) { assert HasGap(st, d, t); }
    forall id ensures GapOnDisk(st', d', id) { assert GapOnDisk(st, d, id); }
  }

  lemma ReceiptsAfterWrite(st: State, d: Disk, r: Receipt)
    requires ReceiptsAgree(st, d) && r.sequence !in d.receipts && r.batchId !in st.receipts
    requires r.sequence < st.nextReceipt
    ensures ReceiptsAgree(st.(receipts := st.receipts[r.batchId := r]), ApplyDisk(d, WriteReceipt(r)))
  {
    var st', d' := st.(receipts := st.receipts[r.batchId := r]), ApplyDisk(d, WriteReceipt(r));
    forall n ensures HasReceipt(st', d', n) { assert HasReceipt(st, d, n); }
    forall b ensures ReceiptOnDisk(st', d', b) { assert ReceiptOnDisk(st, d, b); }
  }

  lemma ReceiptsAfterRemoval(st: State, d: Disk, r: Receipt)
    requires ReceiptsAgree(st, d) && r.batchId in st.receipts && st.receipts[r.batchId] == r
    ensures r.sequence in d.receipts && d.receipts[r.sequence] == r
    ensures ReceiptsAgree(st.(receipts := st.receipts - {r.batchId}), ApplyDisk(d, RemoveReceipt(r.sequence)))
  {
    var st', d' := st.(receipts := st.receipts - {r.batchId}), ApplyDisk(d, RemoveReceipt(r.sequence));
    assert ReceiptOnDisk(st, d, r.batchId);
    forall n ensures HasReceipt(st', d', n) { assert HasReceipt(st, d, n); }
    forall b ensures ReceiptOnDisk(st', d', b) { assert ReceiptOnDisk(st, d, b); }
  }

  lemma ReceiptsUntouched(st: State, st': State, d: Disk, d': Disk)
    requires ReceiptsAgree(st, d) && d'.receipts == d.receipts && st'.receipts == st.receipts
    requires st.nextReceipt <= st'.nextReceipt
    ensures ReceiptsAgree(st', d')
  {
    forall n ensures HasReceipt(st', d', n) { assert HasReceipt(st, d, n); }
    forall b ensures ReceiptOnDisk(st', d', b) { assert ReceiptOnDisk(st, d, b); }
  }

  /** Writing the sequence state of a lagging state catches up. */
  lemma MayPersist(cfg: Config, st: State, w: World)
    requires Inv(cfg, w) && Lagging(st, w) && Tidy(st, w)
    ensures MayWriteSequence(w, SequenceOf(st)) && NewlyCounted(w.disk, SequenceOf(st)) == {}
  {
    forall s
      ensures MayCount(w, SequenceOf(st), s) && s !in NewlyCounted(w.disk, SequenceOf(st))
    {
      assert Lags(st, w.disk, s);
    }
    assert NewlyCounted(w.disk, SequenceOf(st)) == {};
  }
}
