/** What every durable step keeps, and hence what any stop of the process leaves on disk. */
module Invariant {
  import opened Finite
  import opened Wire
  import opened Limits
  import opened Durable

  ghost predicate OnDisk(d: Disk, s: nat) { s in d.pending || s in d.gaps }

  /** A notice about the occurrence: its retention notice, or an integrity notice made from its
      stable identity (at run time) or its record identity (in recovery). */
  ghost predicate NoticeOf(s: nat, r: StoredRecord, n: GapNotice) {
    && InI64(n.occurredAt)
    && (n == RetentionNotice(s, r)
        || n == NoticeFor(s, StableOf(r), n.occurredAt, IntegrityQuarantine)
        || n == NoticeFor(s, r.recordId, n.occurredAt, IntegrityQuarantine))
  }

  /** A file of the number is about the occurrence the number was given to. */
  ghost predicate FilesMatch(d: Disk, r: StoredRecord, s: nat, damaged: bool) {
    && (s in d.pending ==>
          && d.pending[s].id == r.recordId && d.pending[s].bytes <= MAX_ENCRYPTED_RECORD_BYTES
          && (d.pending[s].contents.Intact? ==> d.pending[s].contents.stored == r)
          && (!damaged ==> d.pending[s].contents.Intact?))
    && (s in d.gaps ==> NoticeOf(s, r, d.gaps[s]) && (!damaged ==> d.gaps[s].reason.RetentionExpired?))
  }

  /** An admitted occurrence is on disk until a receipt accepts it, and a receipt stays until
      nothing it accepted is left. */
  ghost predicate Conserved(d: Disk, h: History, s: nat) {
    && (s !in h.acked ==> OnDisk(d, s))
    && (s in h.acked && OnDisk(d, s) ==> Accepted(d.receipts, s))
    && (Accepted(d.receipts, s) ==> s in h.acked)
    && (s in h.acked ==> s < Ledger(d).next)
  }

  /** An expiry is counted once: while the pending file is there, the count is remembered by the
      sequence state or by a gap file. */
  ghost predicate CountedOnce(d: Disk, h: History, r: StoredRecord, s: nat) {
    var l := Ledger(d);
    && (s in l.counted ==> s in h.expired && s < l.next && l.counted[s] == StableOf(r))
    && (s in d.pending && s in h.expired ==> s in l.counted || s in d.gaps)
    && (s in d.gaps && d.gaps[s].reason.RetentionExpired? ==> s in h.expired)
    && (s in l.counted && !h.damaged ==> OnDisk(d, s) || Accepted(d.receipts, s))
  }

  /** Everything the invariant says about one number. */
  ghost predicate Fate(w: World, s: nat) {
    var d, h := w.disk, w.hist;
    && (s in h.admitted <==> 1 <= s < h.next)
    && (s in h.admitted ==>
          && Numbered(h.admitted[s], s)
          && FilesMatch(d, h.admitted[s], s, h.damaged)
          && Conserved(d, h, s)
          && CountedOnce(d, h, h.admitted[s], s))
    && (s !in h.admitted ==>
          !OnDisk(d, s) && s !in h.acked && s !in h.expired && s !in Ledger(d).counted && !Accepted(d.receipts, s))
  }

  /** A receipt names occurrences exactly: records for which no gap was written, and gaps by their
      gap file or by the counted pending file behind it. */
  ghost predicate Exact(w: World, n: nat)
    requires n in w.disk.receipts
  {
    var d, h, r := w.disk, w.hist, w.disk.receipts[n];
    && (forall a :: a in r.admissions ==>
          && a.spoolSeq in h.admitted && a == AdmissionOf(a.spoolSeq, h.admitted[a.spoolSeq])
          && a.spoolSeq !in d.gaps)
    && (forall g :: g in r.gapIds ==>
          && g.NoticeDigest? && g.spoolSeq in h.admitted
          && (!h.damaged || g.spoolSeq in d.pending ==>
              g == RetentionNotice(g.spoolSeq, h.admitted[g.spoolSeq]).noticeId)
          && (g.spoolSeq in d.pending ==> g.spoolSeq in Ledger(d).counted && g.spoolSeq !in d.gaps)
          && (g.spoolSeq in d.gaps ==> d.gaps[g.spoolSeq].noticeId == g))
  }

  /** Two pending occurrences are never the same event. */
  ghost predicate StablesDiffer(pending: set<nat>, admitted: map<nat, StoredRecord>) {
    forall s, t {:trigger StableOf(admitted[s]), StableOf(admitted[t])} ::
      s in pending && t in pending && s in admitted && t in admitted && s != t ==>
        StableOf(admitted[s]) != StableOf(admitted[t])
  }

  /** The stored next number is at most one behind, and then the last occurrence is on disk and not
      acknowledged. */
  ghost predicate NextStored(d: Disk, h: History) {
    var stored := Ledger(d).next;
    && 1 <= stored <= h.next <= stored + 1 && h.next <= U64_MAX
    && (h.next == stored + 1 ==> OnDisk(d, stored) && stored !in h.acked)
  }

  /** Receipts are well formed and name different batches. */
  ghost predicate ReceiptsFormed(receipts: map<nat, Receipt>) {
    && (forall n {:trigger ReceiptShape(receipts[n])} :: n in receipts ==> ReceiptShape(receipts[n]))
    && (forall n {:trigger receipts[n].sequence} :: n in receipts ==> receipts[n].sequence == n < U64_MAX)
    && (forall n, m {:trigger receipts[n].batchId, receipts[m].batchId} ::
          n in receipts && m in receipts && receipts[n].batchId == receipts[m].batchId ==> n == m)
  }

  ghost predicate HasV1Receipt(receipts: map<nat, Receipt>, b: BatchId) {
    exists n :: n in receipts && receipts[n].batchId == b && receipts[n].version == 1
  }

  /** A version 1 acknowledgement is remembered by its receipt or by the pruned flag. */
  ghost predicate V1Remembered(receipts: map<nat, Receipt>, pruned: bool, v1Batches: set<BatchId>) {
    pruned || forall b {:trigger HasV1Receipt(receipts, b)} :: b in v1Batches ==> HasV1Receipt(receipts, b)
  }

  /** Everything stays within the configured limits, so recovery never meets a full spool. */
  ghost predicate Bounded(cfg: Config, pending: map<nat, PendingFile>, gaps: map<nat, GapNotice>) {
    && Total(PendingSizes(pending)) <= cfg.maxBytes
    && Total(GapSizes(gaps)) <= cfg.maxBytes
    && |pending.Keys + gaps.Keys| <= cfg.maxRecords
  }

  ghost predicate AuxiliaryBounded(cfg: Config, d: Disk, damaged: bool) {
    && (!damaged ==> |Ledger(d).counted| <= cfg.maxRecords)
    && d.quarantineFiles <= cfg.maxRecords && d.quarantineBytes <= cfg.maxBytes
  }

  /** Undamaged, at most one pending file is shadowed by a gap. */
  ghost predicate OneShadow(pending: set<nat>, gaps: set<nat>, damaged: bool) {
    !damaged ==> |pending * gaps| <= 1
  }

  ghost predicate Established(d: Disk, next: nat) {
    d.sequence.None? ==> d.pending == map[] && d.gaps == map[] && d.receipts == map[] && next == 1 && !d.established
  }

  /** With version 2 acknowledgements only, what is acknowledged is an initial stretch. */
  ghost predicate FrontierOnly(v1Used: bool, acked: set<nat>) {
    !v1Used ==> forall s {:trigger AllBelow(acked, s)} :: s in acked ==> AllBelow(acked, s)
  }

  ghost predicate AllBelow(acked: set<nat>, s: nat) {
    forall t :: 1 <= t < s ==> t in acked
  }

  ghost predicate Inv(cfg: Config, w: World) {
    var d, h := w.disk, w.hist;
    && (forall s {:trigger Fate(w, s)} :: Fate(w, s))
    && (forall n {:trigger Exact(w, n)} :: n in d.receipts ==> Exact(w, n))
    && Ledger(d).expiredTotal == |h.expired|
    && StablesDiffer(d.pending.Keys, h.admitted)
    && NextStored(d, h)
    && ReceiptsFormed(d.receipts)
    && V1Remembered(d.receipts, Ledger(d).v1Pruned, h.v1Batches)
    && Bounded(cfg, d.pending, d.gaps)
    && AuxiliaryBounded(cfg, d, h.damaged)
    && OneShadow(d.pending.Keys, d.gaps.Keys, h.damaged)
    && Established(d, h.next)
    && FrontierOnly(h.v1Used, h.acked)
  }

  // ---------------------------------------------------------------------------
  // Receipts and totals
  // ---------------------------------------------------------------------------

  lemma AcceptedAfterWrite(receipts: map<nat, Receipt>, r: Receipt, t: nat)
    requires r.sequence !in receipts
    ensures Accepted(receipts[r.sequence := r], t) <==> Accepted(receipts, t) || t in ReceiptSeqs(r)
  {
    var after := receipts[r.sequence := r];
    if Accepted(receipts, t) {
      var n :| n in receipts && t in ReceiptSeqs(receipts[n]);
      assert n in after && t in ReceiptSeqs(after[n]);
    }
    if t in ReceiptSeqs(r) {
      assert r.sequence in after && t in ReceiptSeqs(after[r.sequence]);
    }
  }

  lemma AcceptedAfterRemove(receipts: map<nat, Receipt>, n: nat, t: nat)
    requires n in receipts
    ensures Accepted(receipts - {n}, t) ==> Accepted(receipts, t)
    ensures Accepted(receipts, t) && t !in ReceiptSeqs(receipts[n]) ==> Accepted(receipts - {n}, t)
  {
    var after := receipts - {n};
    if Accepted(receipts, t) && t !in ReceiptSeqs(receipts[n]) {
      var m :| m in receipts && t in ReceiptSeqs(receipts[m]);
      assert m in after;
    }
  }

  /** A gap id in a receipt on disk accepts its number. */
  lemma GapIdAccepts(w: World, n: nat, g: RecordId)
    requires n in w.disk.receipts && g in w.disk.receipts[n].gapIds && g.NoticeDigest?
    ensures Accepted(w.disk.receipts, g.spoolSeq)
  {
    assert g.spoolSeq in ReceiptSeqs(w.disk.receipts[n]);
  }

  lemma AdmissionAccepts(w: World, n: nat, a: Admission)
    requires n in w.disk.receipts && a in w.disk.receipts[n].admissions
    ensures Accepted(w.disk.receipts, a.spoolSeq)
  {
    assert a.spoolSeq in ReceiptSeqs(w.disk.receipts[n]);
  }

  lemma PendingTotal(pending: map<nat, PendingFile>, s: nat, f: PendingFile)
    requires s !in pending
    ensures Total(PendingSizes(pending[s := f])) == Total(PendingSizes(pending)) + f.bytes
  {
    assert PendingSizes(pending[s := f]) == PendingSizes(pending)[s := f.bytes];
    TotalAdd(PendingSizes(pending), s, f.bytes);
  }

  lemma GapTotal(gaps: map<nat, GapNotice>, s: nat, n: GapNotice)
    requires s !in gaps
    ensures Total(GapSizes(gaps[s := n])) == Total(GapSizes(gaps)) + GapBytes(n)
  {
    assert GapSizes(gaps[s := n]) == GapSizes(gaps)[s := GapBytes(n)];
    TotalAdd(GapSizes(gaps), s, GapBytes(n));
  }

  lemma PendingShrinks(pending: map<nat, PendingFile>, ps: set<nat>)
    ensures Total(PendingSizes(pending - ps)) <= Total(PendingSizes(pending)) && pending - {} == pending
  {
    TotalPart(PendingSizes(pending - ps), PendingSizes(pending));
  }

  lemma GapsShrink(gaps: map<nat, GapNotice>, gs: set<nat>)
    ensures Total(GapSizes(gaps - gs)) <= Total(GapSizes(gaps)) && gaps - {} == gaps
  {
    TotalPart(GapSizes(gaps - gs), GapSizes(gaps));
  }

  lemma KeysShrink(pending: set<nat>, gaps: set<nat>, ps: set<nat>, gs: set<nat>)
    ensures |(pending - ps) + (gaps - gs)| <= |pending + gaps|
  {
    SubsetSize((pending - ps) + (gaps - gs), pending + gaps);
  }

  lemma BoundedAfterRemoval(cfg: Config, pending: map<nat, PendingFile>, gaps: map<nat, GapNotice>,
                            ps: set<nat>, gs: set<nat>)
    requires Bounded(cfg, pending, gaps)
    ensures Bounded(cfg, pending - ps, gaps - gs)
    ensures pending - {} == pending && gaps - {} == gaps
  {
    PendingShrinks(pending, ps);
    GapsShrink(gaps, gs);
    KeysShrink(pending.Keys, gaps.Keys, ps, gs);
    assert (pending - ps).Keys == pending.Keys - ps && (gaps - gs).Keys == gaps.Keys - gs;
  }

  lemma ShadowShrinks(pending: set<nat>, gaps: set<nat>, pending': set<nat>, gaps': set<nat>, damaged: bool)
    requires OneShadow(pending, gaps, damaged) && pending' * gaps' <= pending * gaps
    ensures OneShadow(pending', gaps', damaged)
  {
    SubsetSize(pending' * gaps', pending * gaps);
  }

  // ---------------------------------------------------------------------------
  // Preservation: one number, one receipt
  // ---------------------------------------------------------------------------

  lemma AdmitOwnFate(cfg: Config, w: World, s: nat, f: PendingFile)
    requires Fate(w, s) && MayWritePending(cfg, w, s, f) && 1 <= w.hist.next
    ensures Fate(Apply(w, WritePending(s, f)), s)
  {
  }

  lemma AdmitFate(cfg: Config, w: World, s: nat, f: PendingFile, t: nat)
    requires Fate(w, t) && Fate(w, s) && MayWritePending(cfg, w, s, f) && 1 <= w.hist.next
    ensures Fate(Apply(w, WritePending(s, f)), t)
  {
    if t == s { AdmitOwnFate(cfg, w, s, f); }
  }

  lemma RemovePendingFate(w: World, s: nat, q: bool, t: nat)
    requires Fate(w, t) && s in w.disk.pending && (s in w.disk.gaps || Accepted(w.disk.receipts, s))
    ensures Fate(Apply(w, RemovePending(s, q)), t)
  {
  }

  lemma WriteGapFate(cfg: Config, w: World, s: nat, n: GapNotice, t: nat)
    requires Fate(w, t) && MayWriteGap(cfg, w, s, n)
    ensures Fate(Apply(w, WriteGap(s, n)), t)
  {
  }

  lemma RemoveGapFate(w: World, s: nat, t: nat)
    requires Fate(w, t) && s !in w.disk.pending && Accepted(w.disk.receipts, s)
    ensures Fate(Apply(w, RemoveGap(s)), t)
  {
  }

  lemma SequenceFate(w: World, state: SequenceState, t: nat)
    requires Fate(w, t) && MayCount(w, state, t) && state.next == w.hist.next
    ensures Fate(Apply(w, WriteSequence(state)), t)
    ensures t in NewlyCounted(w.disk, state) ==> t !in w.hist.expired
  {
  }

  lemma AcceptFate(w: World, r: Receipt, t: nat)
    requires Fate(w, t) && r.sequence !in w.disk.receipts && Ledger(w.disk).next == w.hist.next
    requires t in ReceiptSeqs(r) ==> t in w.hist.admitted
    ensures Fate(Apply(w, WriteReceipt(r)), t)
  {
    AcceptedAfterWrite(w.disk.receipts, r, t);
  }

  lemma PruneFate(w: World, n: nat, t: nat)
    requires Fate(w, t) && MayRemoveReceipt(w, n)
    ensures Fate(Apply(w, RemoveReceipt(n)), t)
  {
    AcceptedAfterRemove(w.disk.receipts, n, t);
  }

  lemma DamageFate(w: World, s: nat, size: nat, t: nat)
    requires Fate(w, t)
    ensures Fate(Apply(w, Damage(s, size)), t)
  {
  }

  /** Fewer files, no fewer counted numbers among the pending ones and the same occurrences keep a
      receipt exact. */
  lemma ExactWithFewerFiles(w: World, w': World, n: nat)
    requires n in w.disk.receipts && Exact(w, n)
    requires w'.disk.receipts == w.disk.receipts && w'.hist.admitted == w.hist.admitted
    requires w.hist.damaged ==> w'.hist.damaged
    requires w'.disk.pending.Keys <= w.disk.pending.Keys && w'.disk.gaps.Keys <= w.disk.gaps.Keys
    requires forall s :: s in w'.disk.gaps ==> w'.disk.gaps[s] == w.disk.gaps[s]
    requires forall s :: s in Ledger(w.disk).counted && s in w'.disk.pending ==> s in Ledger(w'.disk).counted
    ensures Exact(w', n)
  {
  }

  lemma SequenceExact(w: World, state: SequenceState, n: nat)
    requires n in w.disk.receipts && Exact(w, n) && MayWriteSequence(w, state)
    ensures Exact(Apply(w, WriteSequence(state)), n)
  {
    forall s | s in Ledger(w.disk).counted && s in w.disk.pending
      ensures s in state.counted
    {
      assert MayCount(w, state, s);
    }
    ExactWithFewerFiles(w, Apply(w, WriteSequence(state)), n);
  }

  lemma RemovePendingExact(w: World, s: nat, q: bool, n: nat)
    requires n in w.disk.receipts && Exact(w, n)
    ensures Exact(Apply(w, RemovePending(s, q)), n)
  {
    ExactWithFewerFiles(w, Apply(w, RemovePending(s, q)), n);
  }

  lemma AcceptExact(w: World, r: Receipt, n: nat)
    requires n in w.disk.receipts && Exact(w, n) && r.sequence !in w.disk.receipts
    ensures Exact(Apply(w, WriteReceipt(r)), n)
  {
  }

  lemma PruneExact(w: World, n: nat, m: nat)
    requires m in w.disk.receipts && m != n && Exact(w, m)
    ensures Exact(Apply(w, RemoveReceipt(n)), m)
  {
  }

  lemma ExpiredTotal(w: World, state: SequenceState)
    requires Ledger(w.disk).expiredTotal == |w.hist.expired| && MayWriteSequence(w, state)
    requires forall t :: t in NewlyCounted(w.disk, state) ==> t !in w.hist.expired
    ensures state.expiredTotal == |Apply(w, WriteSequence(state)).hist.expired|
  {
    assert NewlyCounted(w.disk, state) !! w.hist.expired;
  }

  lemma AdmitExact(w: World, s: nat, f: PendingFile, n: nat)
    requires n in w.disk.receipts && Exact(w, n) && s !in w.hist.admitted
    ensures Exact(Apply(w, WritePending(s, f)), n)
  {
  }

  lemma WriteGapExact(w: World, s: nat, g: GapNotice, n: nat)
    requires n in w.disk.receipts && Exact(w, n) && !Accepted(w.disk.receipts, s)
    ensures Exact(Apply(w, WriteGap(s, g)), n)
  {
    assert s !in ReceiptSeqs(w.disk.receipts[n]);
  }

  lemma StablesAfterAdmit(w: World, s: nat, f: PendingFile)
    requires StablesDiffer(w.disk.pending.Keys, w.hist.admitted) && s !in w.hist.admitted && f.contents.Intact?
    requires forall t :: t in w.disk.pending ==>
               t in w.hist.admitted && StableOf(w.hist.admitted[t]) != StableOf(f.contents.stored)
    ensures StablesDiffer(w.disk.pending[s := f].Keys, w.hist.admitted[s := f.contents.stored])
  {
    var admitted := w.hist.admitted[s := f.contents.stored];
    forall t, u | t in w.disk.pending[s := f] && u in w.disk.pending[s := f] && t != u
      ensures StableOf(admitted[t]) != StableOf(admitted[u])
    {
      assert t != s && u != s ==> StableOf(w.hist.admitted[t]) != StableOf(w.hist.admitted[u]);
    }
  }

  lemma BoundedAfterAdmit(cfg: Config, pending: map<nat, PendingFile>, gaps: map<nat, GapNotice>, s: nat,
                          f: PendingFile)
    requires Bounded(cfg, pending, gaps) && s !in pending
    requires |pending.Keys + gaps.Keys| < cfg.maxRecords && Total(PendingSizes(pending)) + f.bytes <= cfg.maxBytes
    ensures Bounded(cfg, pending[s := f], gaps)
  {
    PendingTotal(pending, s, f);
    OneMoreFile(pending, gaps.Keys, s, f);
  }

  lemma OneMoreFile(pending: map<nat, PendingFile>, gaps: set<nat>, s: nat, f: PendingFile)
    ensures |pending[s := f].Keys + gaps| <= |pending.Keys + gaps| + 1
  {
    OneMoreKey(pending.Keys, gaps, s);
    assert pending[s := f].Keys == pending.Keys + {s};
  }

  lemma OneMoreKey(pending: set<nat>, gaps: set<nat>, s: nat)
    ensures |(pending + {s}) + gaps| <= |pending + gaps| + 1
  {
    assert (pending + {s}) + gaps == (pending + gaps) + {s};
  }

  lemma BoundedAfterGap(cfg: Config, pending: map<nat, PendingFile>, gaps: map<nat, GapNotice>, s: nat, n: GapNotice)
    requires Bounded(cfg, pending, gaps) && s in pending && s !in gaps
    requires Total(GapSizes(gaps)) + GapBytes(n) <= cfg.maxBytes
    ensures Bounded(cfg, pending, gaps[s := n])
  {
    GapTotal(gaps, s, n);
    assert pending.Keys + gaps[s := n].Keys == pending.Keys + gaps.Keys;
  }

  lemma DamageKeepsSizes(pending: map<nat, PendingFile>, s: nat, size: nat)
    requires s in pending
    ensures var after := pending[s := pending[s].(contents := Corrupt(size))];
            PendingSizes(after) == PendingSizes(pending) && after.Keys == pending.Keys
  {
    var after := pending[s := pending[s].(contents := Corrupt(size))];
    assert after.Keys == pending.Keys;
  }

  lemma BoundedAfterDamage(cfg: Config, d: Disk, s: nat, size: nat)
    requires Bounded(cfg, d.pending, d.gaps)
    ensures Bounded(cfg, ApplyDisk(d, Damage(s, size)).pending, d.gaps)
    ensures ApplyDisk(d, Damage(s, size)).pending.Keys == d.pending.Keys
  {
    if s in d.pending { DamageKeepsSizes(d.pending, s, size); }
  }

  lemma ShadowAfterGap(pending: set<nat>, gaps: map<nat, GapNotice>, s: nat, n: GapNotice, damaged: bool)
    requires s in pending && (!damaged ==> pending !! gaps.Keys)
    ensures OneShadow(pending, gaps[s := n].Keys, damaged)
  {
    if !damaged {
      assert pending * gaps[s := n].Keys == {s};
    }
  }

  lemma CountedSize(cfg: Config, pending: map<nat, PendingFile>, gaps: map<nat, GapNotice>, counted: map<nat, RecordId>)
    requires Bounded(cfg, pending, gaps) && counted.Keys <= pending.Keys
    ensures |counted| <= cfg.maxRecords
  {
    SubsetSize(counted.Keys, pending.Keys + gaps.Keys);
    assert |counted| == |counted.Keys|;
  }

  // ---------------------------------------------------------------------------
  // Preservation, step by step
  // ---------------------------------------------------------------------------

  lemma AdmitKeeps(cfg: Config, w: World, s: nat, f: PendingFile)
    requires Inv(cfg, w) && MayWritePending(cfg, w, s, f)
    ensures Inv(cfg, Apply(w, WritePending(s, f)))
  {
    var d, w' := w.disk, Apply(w, WritePending(s, f));
    assert Fate(w, s);
    forall t ensures Fate(w', t) { assert Fate(w, t); AdmitFate(cfg, w, s, f, t); }
    forall n | n in d.receipts ensures Exact(w', n) { assert Exact(w, n); AdmitExact(w, s, f, n); }
    StablesAfterAdmit(w, s, f);
    BoundedAfterAdmit(cfg, d.pending, d.gaps, s, f);
    ShadowShrinks(d.pending.Keys, d.gaps.Keys, d.pending[s := f].Keys, d.gaps.Keys, w.hist.damaged);
  }

  lemma NextAfterRemoval(w: World, s: nat, q: bool)
    requires NextStored(w.disk, w.hist) && Fate(w, s) && s in w.disk.pending
    requires (s in w.disk.gaps || Accepted(w.disk.receipts, s))
    ensures NextStored(ApplyDisk(w.disk, RemovePending(s, q)), w.hist)
  {
  }

  lemma RemovePendingKeeps(cfg: Config, w: World, s: nat, q: bool)
    requires Inv(cfg, w) && MayRemovePending(cfg, w, s, q)
    ensures Inv(cfg, Apply(w, RemovePending(s, q)))
  {
    var d, w' := w.disk, Apply(w, RemovePending(s, q));
    assert Fate(w, s);
    NextAfterRemoval(w, s, q);
    forall t ensures Fate(w', t) { assert Fate(w, t); RemovePendingFate(w, s, q, t); }
    forall n | n in d.receipts ensures Exact(w', n) { assert Exact(w, n); RemovePendingExact(w, s, q, n); }
    BoundedAfterRemoval(cfg, d.pending, d.gaps, {s}, {});
    ShadowShrinks(d.pending.Keys, d.gaps.Keys, (d.pending - {s}).Keys, d.gaps.Keys, w.hist.damaged);
  }

  lemma WriteGapKeeps(cfg: Config, w: World, s: nat, n: GapNotice)
    requires Inv(cfg, w) && MayWriteGap(cfg, w, s, n)
    ensures Inv(cfg, Apply(w, WriteGap(s, n)))
  {
    var d, w' := w.disk, Apply(w, WriteGap(s, n));
    forall t ensures Fate(w', t) { assert Fate(w, t); WriteGapFate(cfg, w, s, n, t); }
    forall m | m in d.receipts ensures Exact(w', m) { assert Exact(w, m); WriteGapExact(w, s, n, m); }
    BoundedAfterGap(cfg, d.pending, d.gaps, s, n);
    ShadowAfterGap(d.pending.Keys, d.gaps, s, n, w.hist.damaged);
  }

  /** A gap file a receipt accepts has no pending file beside it. */
  lemma AcceptedGapStandsAlone(cfg: Config, w: World, s: nat)
    requires Inv(cfg, w) && MayRemoveGap(w, s)
    ensures s !in w.disk.pending && Accepted(w.disk.receipts, s)
  {
    var d := w.disk;
    var n :| n in d.receipts && d.gaps[s].noticeId in d.receipts[n].gapIds;
    assert Fate(w, s);
    assert Exact(w, n);
    GapIdAccepts(w, n, d.gaps[s].noticeId);
  }

  lemma RemoveGapKeeps(cfg: Config, w: World, s: nat)
    requires Inv(cfg, w) && MayRemoveGap(w, s)
    ensures Inv(cfg, Apply(w, RemoveGap(s)))
  {
    var d, w' := w.disk, Apply(w, RemoveGap(s));
    AcceptedGapStandsAlone(cfg, w, s);
    assert Fate(w, s);
    forall t ensures Fate(w', t) { assert Fate(w, t); RemoveGapFate(w, s, t); }
    forall n | n in d.receipts ensures Exact(w', n) { assert Exact(w, n); ExactWithFewerFiles(w, w', n); }
    BoundedAfterRemoval(cfg, d.pending, d.gaps, {}, {s});
    ShadowShrinks(d.pending.Keys, d.gaps.Keys, d.pending.Keys, (d.gaps - {s}).Keys, w.hist.damaged);
  }

  ghost predicate NamesAdmission(w: World, a: Admission) {
    && a.spoolSeq in w.hist.admitted && OnDisk(w.disk, a.spoolSeq)
    && a == AdmissionOf(a.spoolSeq, w.hist.admitted[a.spoolSeq]) && a.spoolSeq !in w.disk.gaps
  }

  ghost predicate NamesGap(w: World, g: RecordId) {
    && g.NoticeDigest? && g.spoolSeq in w.hist.admitted && OnDisk(w.disk, g.spoolSeq)
    && (!w.hist.damaged || g.spoolSeq in w.disk.pending ==>
        g == RetentionNotice(g.spoolSeq, w.hist.admitted[g.spoolSeq]).noticeId)
    && (g.spoolSeq in w.disk.pending ==> g.spoolSeq in Ledger(w.disk).counted && g.spoolSeq !in w.disk.gaps)
    && (g.spoolSeq in w.disk.gaps ==> w.disk.gaps[g.spoolSeq].noticeId == g)
  }

  lemma LiveAdmission(w: World, r: Receipt, a: Admission)
    requires a in r.admissions && Fate(w, a.spoolSeq) && AcceptsLive(w.disk, r)
    ensures NamesAdmission(w, a)
  {
  }

  lemma LiveGap(w: World, r: Receipt, g: RecordId)
    requires g in r.gapIds && g.NoticeDigest? && AcceptsLive(w.disk, r) && Fate(w, g.spoolSeq)
    requires w.disk.pending.Keys !! w.disk.gaps.Keys
    ensures NamesGap(w, g)
  {
  }

  lemma NamesAreExact(w: World, r: Receipt)
    requires forall a :: a in r.admissions ==> NamesAdmission(w, a)
    requires forall g :: g in r.gapIds ==> NamesGap(w, g)
    ensures Exact(Apply(w, WriteReceipt(r)), r.sequence)
    ensures forall s :: s in ReceiptSeqs(r) ==> s in w.hist.admitted && OnDisk(w.disk, s)
  {
  }

  /** A receipt that accepts live items by their identity names them exactly. */
  lemma AcceptsLiveIsExact(cfg: Config, w: World, r: Receipt)
    requires Inv(cfg, w) && w.disk.pending.Keys !! w.disk.gaps.Keys && AcceptsLive(w.disk, r)
    ensures Exact(Apply(w, WriteReceipt(r)), r.sequence)
    ensures forall s :: s in ReceiptSeqs(r) ==> s in w.hist.admitted && OnDisk(w.disk, s)
  {
    forall a | a in r.admissions
      ensures NamesAdmission(w, a)
    {
      assert Fate(w, a.spoolSeq);
      LiveAdmission(w, r, a);
    }
    forall g | g in r.gapIds
      ensures NamesGap(w, g)
    {
      LiveGapIs(w, r, g);
      assert Fate(w, g.spoolSeq);
      LiveGap(w, r, g);
    }
    NamesAreExact(w, r);
  }

  lemma LiveGapIs(w: World, r: Receipt, g: RecordId)
    requires AcceptsLive(w.disk, r) && g in r.gapIds
    ensures g.NoticeDigest?
  {
  }

  lemma FrontierAfterAccept(cfg: Config, w: World, r: Receipt)
    requires Inv(cfg, w) && (r.version != 1 ==> AcceptsPrefix(w.disk, r))
    requires forall s :: s in ReceiptSeqs(r) ==> s in w.hist.admitted
    ensures FrontierOnly(w.hist.v1Used || r.version == 1, w.hist.acked + ReceiptSeqs(r))
  {
    var d, h := w.disk, w.hist;
    if !h.v1Used && r.version != 1 {
      forall s | s in h.acked + ReceiptSeqs(r)
        ensures AllBelow(h.acked + ReceiptSeqs(r), s)
      {
        assert Fate(w, s);
        forall t | 1 <= t < s && t !in h.acked
          ensures t in ReceiptSeqs(r)
        {
          assert s in h.acked ==> AllBelow(h.acked, s);
          assert Fate(w, t);
          assert t in View(d);
        }
      }
    }
  }

  lemma FormedAfterAccept(receipts: map<nat, Receipt>, r: Receipt)
    requires ReceiptsFormed(receipts) && ReceiptShape(r)
    requires forall m :: m in receipts ==> m < r.sequence && receipts[m].batchId != r.batchId
    ensures ReceiptsFormed(receipts[r.sequence := r])
  {
    var after := receipts[r.sequence := r];
    forall n | n in after
      ensures ReceiptShape(after[n])
    {
      if n != r.sequence { assert ReceiptShape(receipts[n]); }
    }
  }

  lemma FormedAfterPrune(receipts: map<nat, Receipt>, n: nat)
    requires ReceiptsFormed(receipts)
    ensures ReceiptsFormed(receipts - {n})
  {
    var after := receipts - {n};
    forall m | m in after ensures ReceiptShape(after[m]) { assert ReceiptShape(receipts[m]); }
  }

  lemma V1AfterAccept(receipts: map<nat, Receipt>, pruned: bool, v1Batches: set<BatchId>, r: Receipt)
    requires V1Remembered(receipts, pruned, v1Batches) && r.sequence !in receipts
    ensures V1Remembered(receipts[r.sequence := r], pruned, if r.version == 1 then v1Batches + {r.batchId}
            else v1Batches)
  {
    var after := receipts[r.sequence := r];
    assert r.version == 1 ==> r.sequence in after && after[r.sequence].batchId == r.batchId;
    forall b | b in v1Batches && HasV1Receipt(receipts, b)
      ensures HasV1Receipt(after, b)
    {
      var n :| n in receipts && receipts[n].batchId == b && receipts[n].version == 1;
      assert n in after && after[n] == receipts[n];
    }
  }

  lemma V1AfterPrune(receipts: map<nat, Receipt>, pruned: bool, v1Batches: set<BatchId>, n: nat)
    requires V1Remembered(receipts, pruned, v1Batches) && n in receipts && (receipts[n].version == 1 ==> pruned)
    ensures V1Remembered(receipts - {n}, pruned, v1Batches)
  {
    forall b | b in v1Batches && HasV1Receipt(receipts, b) && !pruned
      ensures HasV1Receipt(receipts - {n}, b)
    {
      var m :| m in receipts && receipts[m].batchId == b && receipts[m].version == 1;
      assert m in receipts - {n};
    }
  }

  lemma AcceptKeeps(cfg: Config, w: World, r: Receipt)
    requires Inv(cfg, w) && MayWriteReceipt(w, r)
    ensures Inv(cfg, Apply(w, WriteReceipt(r)))
  {
    var d, w' := w.disk, Apply(w, WriteReceipt(r));
    AcceptsLiveIsExact(cfg, w, r);
    forall t ensures Fate(w', t) { assert Fate(w, t); AcceptFate(w, r, t); }
    forall n | n in d.receipts ensures Exact(w', n) { assert Exact(w, n); AcceptExact(w, r, n); }
    FormedAfterAccept(d.receipts, r);
    V1AfterAccept(d.receipts, Ledger(d).v1Pruned, w.hist.v1Batches, r);
    FrontierAfterAccept(cfg, w, r);
  }

  lemma PruneKeeps(cfg: Config, w: World, n: nat)
    requires Inv(cfg, w) && MayRemoveReceipt(w, n)
    ensures Inv(cfg, Apply(w, RemoveReceipt(n)))
  {
    var d, w' := w.disk, Apply(w, RemoveReceipt(n));
    forall t ensures Fate(w', t) { assert Fate(w, t); PruneFate(w, n, t); }
    forall m | m in w'.disk.receipts ensures Exact(w', m) { assert Exact(w, m); PruneExact(w, n, m); }
    FormedAfterPrune(d.receipts, n);
    V1AfterPrune(d.receipts, Ledger(d).v1Pruned, w.hist.v1Batches, n);
  }

  /** The count goes up by exactly the numbers that were never counted before. */
  lemma SequenceKeeps(cfg: Config, w: World, state: SequenceState)
    requires Inv(cfg, w) && MayWriteSequence(w, state)
    ensures Inv(cfg, Apply(w, WriteSequence(state)))
  {
    var d, w', newly := w.disk, Apply(w, WriteSequence(state)), NewlyCounted(w.disk, state);
    forall t
      ensures Fate(w', t) && (t in newly ==> t !in w.hist.expired)
    {
      assert Fate(w, t) && MayCount(w, state, t);
      SequenceFate(w, state, t);
    }
    ExpiredTotal(w, state);
    forall n | n in d.receipts ensures Exact(w', n) { assert Exact(w, n); SequenceExact(w, state, n); }
    if !w.hist.damaged {
      assert forall t :: t in state.counted ==> MayCount(w, state, t);
      CountedSize(cfg, d.pending, d.gaps, state.counted);
    }
  }

  lemma DamageKeeps(cfg: Config, w: World, s: nat, size: nat)
    requires Inv(cfg, w) && s in w.disk.pending
    ensures Inv(cfg, Apply(w, Damage(s, size)))
  {
    var d, w' := w.disk, Apply(w, Damage(s, size));
    BoundedAfterDamage(cfg, d, s, size);
    OnlyDamaged(w, s, size);
    forall t ensures Fate(w', t) { assert Fate(w, t); DamageFate(w, s, size, t); }
    forall n | n in d.receipts ensures Exact(w', n) { assert Exact(w, n); DamageExact(w, s, size, n); }
  }

  /** Damage changes the contents of one pending file and the mark of damage, nothing else. */
  lemma OnlyDamaged(w: World, s: nat, size: nat)
    requires s in w.disk.pending
    ensures var w' := Apply(w, Damage(s, size));
            && w'.disk.gaps == w.disk.gaps && w'.disk.receipts == w.disk.receipts && Ledger(w'.disk) == Ledger(w.disk)
            && w'.disk.quarantineFiles == w.disk.quarantineFiles && w'.disk.quarantineBytes == w.disk.quarantineBytes
            && w'.disk.pending.Keys == w.disk.pending.Keys && w'.disk.established == w.disk.established
            && w'.hist == w.hist.(damaged := true)
  {
    DamageKeepsSizes(w.disk.pending, s, size);
  }

  lemma DamageExact(w: World, s: nat, size: nat, n: nat)
    requires n in w.disk.receipts && Exact(w, n) && s in w.disk.pending
    ensures Exact(Apply(w, Damage(s, size)), n)
  {
    DamageKeepsSizes(w.disk.pending, s, size);
    ExactWithFewerFiles(w, Apply(w, Damage(s, size)), n);
  }

  lemma MarkKeeps(cfg: Config, w: World, a: Action)
    requires Inv(cfg, w) && Enabled(cfg, w, a) && (a.WriteFormat? || a.Orphan?)
    ensures Inv(cfg, Apply(w, a))
  {
    var w' := Apply(w, a);
    forall t ensures Fate(w', t) { assert Fate(w, t); }
    forall n | n in w.disk.receipts ensures Exact(w', n) { assert Exact(w, n); ExactWithFewerFiles(w, w', n); }
  }

  lemma StepKeeps(cfg: Config, w: World, a: Action)
    requires Inv(cfg, w) && Enabled(cfg, w, a)
    ensures Inv(cfg, Apply(w, a))
  {
    match a
    case WritePending(s, f) => AdmitKeeps(cfg, w, s, f);
    case RemovePending(s, q) => RemovePendingKeeps(cfg, w, s, q);
    case WriteGap(s, n) => WriteGapKeeps(cfg, w, s, n);
    case RemoveGap(s) => RemoveGapKeeps(cfg, w, s);
    case WriteReceipt(r) => AcceptKeeps(cfg, w, r);
    case RemoveReceipt(n) => PruneKeeps(cfg, w, n);
    case WriteSequence(state) => SequenceKeeps(cfg, w, state);
    case Damage(s, size) => DamageKeeps(cfg, w, s, size);
    case _ => MarkKeeps(cfg, w, a);
  }

  /** Every world of a legal run satisfies the invariant. */
  lemma {:induction false} LegalKeeps(cfg: Config, run: Run, i: nat)
    requires Legal(cfg, run) && i <= |run.steps|
    ensures Inv(cfg, run.worlds[i])
  {
    if i == 0 {
      assert PendingSizes(EMPTY_DISK.pending) == map[] && GapSizes(EMPTY_DISK.gaps) == map[];
    } else {
      LegalKeeps(cfg, run, i - 1);
      assert Allowed(cfg, run, i - 1);
      StepKeeps(cfg, run.worlds[i - 1], run.steps[i - 1]);
    }
  }

  lemma EndKeeps(cfg: Config, run: Run)
    requires Legal(cfg, run)
    ensures Inv(cfg, End(run))
  {
    LegalKeeps(cfg, run, |run.steps|);
  }

  lemma FateAt(cfg: Config, run: Run, s: nat)
    requires Legal(cfg, run)
    ensures Fate(End(run), s)
  {
    EndKeeps(cfg, run);
  }

  lemma StablesDifferAt(cfg: Config, run: Run, s: nat, t: nat)
    requires Legal(cfg, run) && s != t && s in End(run).disk.pending && t in End(run).disk.pending
    requires s in End(run).hist.admitted && t in End(run).hist.admitted
    ensures StableOf(End(run).hist.admitted[s]) != StableOf(End(run).hist.admitted[t])
  {
    EndKeeps(cfg, run);
  }

  lemma ExactAt(cfg: Config, run: Run, n: nat)
    requires Legal(cfg, run) && n in End(run).disk.receipts
    ensures Exact(End(run), n)
  {
    EndKeeps(cfg, run);
  }

  lemma AllowedBefore(cfg: Config, run: Run, a: Action, i: nat)
    requires i < |run.steps| && Allowed(cfg, run, i)
    ensures Allowed(cfg, Extend(run, a), i)
  {
    var more := Extend(run, a);
    assert more.worlds[i] == run.worlds[i] && more.worlds[i + 1] == run.worlds[i + 1] && more.steps[i] == run.steps[i];
  }

  lemma AllowedLast(cfg: Config, run: Run, a: Action)
    requires Enabled(cfg, End(run), a)
    ensures Allowed(cfg, Extend(run, a), |run.steps|)
  {
    var more, n := Extend(run, a), |run.steps|;
    assert more.worlds[n] == End(run) && more.worlds[n + 1] == Apply(End(run), a) && more.steps[n] == a;
  }

  lemma AdmitsAll(cfg: Config, run: Run, a: Action, i: nat)
    requires Legal(cfg, run) && Admits(cfg, a) && i <= |run.steps|
    ensures Admits(cfg, Extend(run, a).steps[i])
  {
    if i < |run.steps| {
      assert Admits(cfg, run.steps[i]);
      assert Extend(run, a).steps[i] == run.steps[i];
    } else {
      assert Extend(run, a).steps[i] == a;
    }
  }

  lemma AllowedAll(cfg: Config, run: Run, a: Action, i: nat)
    requires Legal(cfg, run) && Enabled(cfg, End(run), a) && i <= |run.steps|
    ensures Allowed(cfg, Extend(run, a), i)
  {
    if i < |run.steps| {
      assert Allowed(cfg, run, i);
      AllowedBefore(cfg, run, a, i);
    } else {
      AllowedLast(cfg, run, a);
    }
  }

  /** One more allowed step keeps a run legal. */
  lemma LegalStep(cfg: Config, run: Run, a: Action)
    requires Legal(cfg, run) && Enabled(cfg, End(run), a) && Admits(cfg, a)
    ensures Legal(cfg, Extend(run, a))
  {
    var more := Extend(run, a);
    forall i | 0 <= i < |more.steps|
      ensures Allowed(cfg, more, i) && Admits(cfg, more.steps[i])
    {
      AllowedAll(cfg, run, a, i);
      AdmitsAll(cfg, run, a, i);
    }
    assert more.worlds[0] == run.worlds[0];
  }

  /** Every occurrence handed a number was admissible. */
  lemma {:induction false} AdmittedIsAdmissible(cfg: Config, run: Run, k: nat, s: nat)
    requires Legal(cfg, run) && k <= |run.steps| && s in run.worlds[k].hist.admitted
    ensures Admissible(cfg, s, run.worlds[k].hist.admitted[s])
  {
    assert k > 0;
    assert Allowed(cfg, run, k - 1);
    if s in run.worlds[k - 1].hist.admitted && run.worlds[k - 1].hist.admitted[s] == run.worlds[k].hist.admitted[s] {
      AdmittedIsAdmissible(cfg, run, k - 1, s);
    } else {
      assert Admits(cfg, run.steps[k - 1]);
    }
  }
}
