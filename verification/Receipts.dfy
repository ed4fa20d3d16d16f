/** Sizes and pruning of acknowledgement receipts. */
module Receipts {
  import opened Finite
  import opened Wire
  import opened Limits
  import opened Durable
  import opened Invariant
  import opened Safety
  import opened Cache
  import opened Machine
  import opened Expiry

  // ---------------------------------------------------------------------------
  // Sizes
  // ---------------------------------------------------------------------------

  /** A list of `n` quoted 64-digit identifiers with its separators. */
  function IdListLength(n: nat): nat { if n == 0 then 0 else 67 * n - 1 }

  function AdmissionsLength(admissions: seq<Admission>): nat {
    if admissions == [] then 0
    else
      var last := |admissions| - 1;
      AdmissionsLength(admissions[..last]) + 186 + DigitCount(admissions[last].spoolSeq) + (if last == 0 then 0 else 1)
  }

  /** The encoded receipt: an empty list of stable or gap identifiers is left out. */
  function ReceiptLength(r: Receipt): nat {
    153 + DigitCount(r.sequence) + IdListLength(|r.recordIds|)
    + (if r.stableIds == [] then 0 else 32 + IdListLength(|r.stableIds|))
    + (if r.gapIds == [] then 0 else 29 + IdListLength(|r.gapIds|))
    + AdmissionsLength(r.admissions)
  }

  lemma {:induction false} AdmissionsAreShort(admissions: seq<Admission>)
    requires forall a :: a in admissions ==> a.spoolSeq <= U64_MAX
    ensures AdmissionsLength(admissions) <= 207 * |admissions|
  {
    if admissions != [] {
      var last := |admissions| - 1;
      AdmissionsAreShort(admissions[..last]);
      assert admissions[last] in admissions;
      U64Digits(admissions[last].spoolSeq);
    }
  }

  /** Every receipt of an acknowledgeable batch is small enough to be read back. */
  lemma ReceiptIsReadable(r: Receipt)
    requires ReceiptShape(r) && forall a :: a in r.admissions ==> a.spoolSeq <= U64_MAX
    ensures ReceiptLength(r) + ENCRYPTION_OVERHEAD <= MAX_ENCRYPTED_RECEIPT_BYTES
  {
    AdmissionsAreShort(r.admissions);
    U64Digits(r.sequence);
  }

  // ---------------------------------------------------------------------------
  // Pruning
  // ---------------------------------------------------------------------------

  lemma StillSteady(st: State, w: World, st': State, w': World)
    requires Steady(st, w) && w'.hist == w.hist
    requires w'.disk == w.disk.(receipts := w'.disk.receipts, sequence := Some(SequenceOf(st')))
             || (w'.disk == w.disk.(receipts := w'.disk.receipts) && st'.v1Pruned == st.v1Pruned)
    requires forall s :: Accepted(w'.disk.receipts, s) ==> Accepted(w.disk.receipts, s)
    requires OnlyReceipts(st, st') && ReceiptsAgree(st', w'.disk)
    ensures Steady(st', w')
  {
    EntriesUntouched(st, st', w, w');
    GapsUntouched(st, st', w.disk, w'.disk);
    forall s ensures Settled(w', s) { assert Settled(w, s); }
    forall s ensures Lags(st', w'.disk, s) { assert Lags(st, w.disk, s); }
  }

  /** Marks the version 1 history as pruned, durably. */
  method MarkPruned(store: Store, st: State) returns (st': State)
    requires store.Valid() && Steady(st, store.W())
    modifies store
    ensures store.Valid() && Steady(st', store.W()) && Unmoved(old(store.run), store.run)
    ensures st' == st.(v1Pruned := true) && Ledger(store.disk).v1Pruned
    ensures store.disk.receipts == old(store.disk.receipts)
  {
    ghost var w := store.W();
    st' := st.(v1Pruned := true);
    MarkAllowed(store.cfg, store.run, st);
    Tend(store, WriteSequence(SequenceOf(st')));
    ReceiptsUntouched(st, st', w.disk, store.disk);
    StillSteady(st, w, st', store.W());
  }

  lemma MarkAllowed(cfg: Config, run: Run, st: State)
    requires Legal(cfg, run) && Steady(st, End(run))
    ensures var state := SequenceOf(st.(v1Pruned := true));
            MayWriteSequence(End(run), state) && NewlyCounted(End(run).disk, state) == {}
  {
    PersistAllowed(cfg, run, st);
    var w, state := End(run), SequenceOf(st.(v1Pruned := true));
    forall s ensures MayCount(w, state, s) { assert MayCount(w, SequenceOf(st), s); }
  }

  /** The receipt with the lowest sequence. */
  method Oldest(receipts: map<BatchId, Receipt>) returns (b: BatchId)
    requires receipts != map[]
    ensures b in receipts && forall c :: c in receipts ==> receipts[b].sequence <= receipts[c].sequence
  {
    b :| b in receipts;
    var rest := receipts.Keys - {b};
    while rest != {}
      invariant b in receipts && rest <= receipts.Keys
      invariant forall c :: c in receipts && c !in rest ==> receipts[b].sequence <= receipts[c].sequence
      decreases |rest|
    {
      var c :| c in rest;
      if receipts[c].sequence < receipts[b].sequence { b := c; }
      rest := rest - {c};
    }
  }

  lemma MayPrune(st: State, w: World, b: BatchId)
    requires Steady(st, w) && b in st.receipts && |st.receipts| > MAX_ACK_RECEIPTS
    requires forall c :: c in st.receipts ==> st.receipts[b].sequence <= st.receipts[c].sequence
    requires st.receipts[b].version == 1 ==> Ledger(w.disk).v1Pruned
    ensures MayRemoveReceipt(w, st.receipts[b].sequence)
  {
    var n := st.receipts[b].sequence;
    assert ReceiptOnDisk(st, w.disk, b);
    forall m | m in w.disk.receipts ensures n <= m { assert HasReceipt(st, w.disk, m); }
    forall s | s in ReceiptSeqs(w.disk.receipts[n])
      ensures s !in w.disk.pending && s !in w.disk.gaps && (!w.hist.damaged ==> s !in Ledger(w.disk).counted)
    {
      assert Settled(w, s);
    }
  }

  /** Removes one receipt. */
  method RemoveOldest(store: Store, st: State, b: BatchId) returns (st': State)
    requires store.Valid() && Steady(st, store.W()) && b in st.receipts && |st.receipts| > MAX_ACK_RECEIPTS
    requires forall c :: c in st.receipts ==> st.receipts[b].sequence <= st.receipts[c].sequence
    requires st.receipts[b].version == 1 ==> Ledger(store.disk).v1Pruned
    modifies store
    ensures store.Valid() && Steady(st', store.W()) && Unmoved(old(store.run), store.run)
    ensures st' == st.(receipts := st.receipts - {b})
  {
    ghost var w := store.W();
    MayPrune(st, w, b);
    assert ReceiptOnDisk(st, w.disk, b);
    ReceiptsAfterRemoval(st, w.disk, st.receipts[b]);
    Tend(store, RemoveReceipt(st.receipts[b].sequence));
    st' := st.(receipts := st.receipts - {b});
    forall s | Accepted(store.disk.receipts, s)
      ensures Accepted(w.disk.receipts, s)
    {
      AcceptedAfterRemove(w.disk.receipts, st.receipts[b].sequence, s);
    }
    StillSteady(st, w, st', store.W());
  }

  /** Every receipt that is gone is older than every receipt that is left. */
  ghost predicate OldestGone(before: map<BatchId, Receipt>, after: map<BatchId, Receipt>) {
    && after.Keys <= before.Keys && (forall b :: b in after ==> after[b] == before[b])
    && (forall b, c :: b in before && b !in after && c in after ==> before[b].sequence <= before[c].sequence)
  }

  ghost predicate V1Gone(before: map<BatchId, Receipt>, after: map<BatchId, Receipt>) {
    exists b :: b in before && b !in after && before[b].version == 1
  }

  /** How far pruning has come. */
  ghost predicate Pruned(st: State, st': State) {
    && OnlyReceipts(st, st') && OldestGone(st.receipts, st'.receipts)
    && |st'.receipts| <= |st.receipts| && (|st.receipts| > MAX_ACK_RECEIPTS ==> |st'.receipts| >= MAX_ACK_RECEIPTS)
    && (|st.receipts| <= MAX_ACK_RECEIPTS ==> st'.receipts == st.receipts)
    && (st'.v1Pruned <==> st.v1Pruned || V1Gone(st.receipts, st'.receipts))
  }

  lemma PrunedMore(st: State, sm: State, st': State, b: BatchId)
    requires Pruned(st, sm) && |sm.receipts| > MAX_ACK_RECEIPTS && IsOldest(sm.receipts, b) && OnlyReceipts(sm, st')
    requires st'.receipts == sm.receipts - {b} && (st'.v1Pruned <==> sm.v1Pruned || sm.receipts[b].version == 1)
    ensures Pruned(st, st') && |st'.receipts| == |sm.receipts| - 1
  {
    PrunedFlag(st.receipts, sm.receipts, st'.receipts, b);
  }

  /** `prune_receipts`: exactly the newest 1024 receipts stay, the queue does not change, and the
      version 1 history is durably marked as pruned before the first version 1 receipt goes. */
  method PruneReceipts(store: Store, st: State) returns (st': State)
    requires store.Valid() && Steady(st, store.W())
    modifies store
    ensures store.Valid() && Steady(st', store.W()) && Unmoved(old(store.run), store.run)
    ensures OnlyReceipts(st, st') && OldestGone(st.receipts, st'.receipts)
    ensures |st'.receipts| == if |st.receipts| <= MAX_ACK_RECEIPTS then |st.receipts| else MAX_ACK_RECEIPTS
    ensures st'.v1Pruned <==> st.v1Pruned || V1Gone(st.receipts, st'.receipts)
  {
    st' := st;
    UnmovedSame(store.run);
    while |st'.receipts| > MAX_ACK_RECEIPTS
      invariant store.Valid() && Steady(st', store.W()) && Unmoved(old(store.run), store.run) && Pruned(st, st')
      decreases |st'.receipts|
    {
      ghost var before, sm := store.run, st';
      ghost var b;
      st', b := PruneOne(store, st');
      UnmovedTwice(old(store.run), before, store.run);
      PrunedMore(st, sm, st', b);
    }
  }

  ghost predicate IsOldest(receipts: map<BatchId, Receipt>, b: BatchId) {
    b in receipts && forall c :: c in receipts ==> receipts[b].sequence <= receipts[c].sequence
  }

  /** One round of pruning. */
  method PruneOne(store: Store, st: State) returns (st': State, ghost b: BatchId)
    requires store.Valid() && Steady(st, store.W()) && |st.receipts| > MAX_ACK_RECEIPTS
    modifies store
    ensures store.Valid() && Steady(st', store.W()) && Unmoved(old(store.run), store.run)
    ensures IsOldest(st.receipts, b) && OnlyReceipts(st, st') && st'.receipts == st.receipts - {b}
    ensures st'.v1Pruned <==> st.v1Pruned || st.receipts[b].version == 1
  {
    var oldest := Oldest(st.receipts);
    st', b := st, oldest;
    UnmovedSame(store.run);
    if st.receipts[oldest].version == 1 && !st.v1Pruned { st' := MarkPruned(store, st); }
    ghost var before := store.run;
    st' := RemoveOldest(store, st', oldest);
    UnmovedTwice(old(store.run), before, store.run);
  }

  lemma PrunedFlag(all: map<BatchId, Receipt>, some: map<BatchId, Receipt>, fewer: map<BatchId, Receipt>, b: BatchId)
    requires OldestGone(all, some) && IsOldest(some, b) && fewer == some - {b}
    ensures OldestGone(all, fewer)
    ensures V1Gone(all, fewer) <==> all[b].version == 1 || V1Gone(all, some)
  {
    assert b in all && b !in fewer;
    if c :| c in all && c !in some && all[c].version == 1 { assert c !in fewer; }
  }

  // ---------------------------------------------------------------------------
  // A new receipt
  // ---------------------------------------------------------------------------

  /** From `before` to `after` the queue loses the accepted numbers in one step. */
  ghost predicate Loses(before: Run, after: Run, accepted: set<nat>) {
    var v := View(End(before).disk);
    View(End(after).disk) == v - accepted && Visits(after, |before.steps|, {v, v - accepted})
  }

  lemma LosesThenKeeps(a: Run, b: Run, c: Run, accepted: set<nat>)
    requires Continues(a, b) && Loses(a, b, accepted) && Unmoved(b, c)
    ensures Loses(a, c, accepted)
  {
    var v := View(End(a).disk);
    VisitsWider(c, |b.steps|, {View(End(b).disk)}, {v, v - accepted});
    VisitsJoin(b, c, |a.steps|, {v, v - accepted});
  }

  lemma AcceptLoses(cfg: Config, run: Run, r: Receipt)
    requires Legal(cfg, run) && MayWriteReceipt(End(run), r)
    ensures Loses(run, Extend(run, WriteReceipt(r)), ReceiptSeqs(r))
  {
    AcceptedView(cfg, run, r);
    LosesStep(run, WriteReceipt(r), ReceiptSeqs(r));
  }

  lemma AcceptedView(cfg: Config, run: Run, r: Receipt)
    requires Legal(cfg, run) && MayWriteReceipt(End(run), r)
    ensures View(Apply(End(run), WriteReceipt(r)).disk) == View(End(run).disk) - ReceiptSeqs(r)
  {
    EndKeeps(cfg, run);
    AcceptShrinksView(cfg, End(run), r);
  }

  lemma LosesStep(run: Run, a: Action, accepted: set<nat>)
    requires View(Apply(End(run), a).disk) == View(End(run).disk) - accepted
    ensures Loses(run, Extend(run, a), accepted)
  {
    var v := View(End(run).disk);
    VisitsStep(run, |run.steps|, {v, v - accepted}, a);
  }

  lemma AfterReceiptWrite(st: State, w: World, st': State, r: Receipt)
    requires Steady(st, w) && MayWriteReceipt(w, r) && r.sequence < st.nextReceipt && r.batchId !in st.receipts
    requires st' == st.(receipts := st.receipts[r.batchId := r])
    ensures var w' := Apply(w, WriteReceipt(r));
            Cached(st', w') && Lagging(st', w') && Tidy(st', w') && SettledBut(w', ReceiptSeqs(r))
  {
    var w' := Apply(w, WriteReceipt(r));
    ReceiptsAfterWrite(st, w.disk, r);
    EntriesUntouched(st, st', w, w');
    GapsUntouched(st, st', w.disk, w'.disk);
    forall s ensures Lags(st', w'.disk, s) { assert Lags(st, w.disk, s); }
    forall s | s !in ReceiptSeqs(r)
      ensures Settled(w', s)
    {
      assert Settled(w, s);
      AcceptedAfterWrite(w.disk.receipts, r, s);
    }
  }

  /** Writes the receipt, carries it out and prunes old ones. The queue changes in one step, with the
      receipt; wherever this stops, the queue is the old or the new one. */
  method StoreReceipt(store: Store, st: State, r: Receipt) returns (st': State)
    requires store.Valid() && Steady(st, store.W()) && MayWriteReceipt(store.W(), r)
    requires r.sequence + 1 == st.nextReceipt && r.batchId !in st.receipts
    modifies store
    ensures store.Valid() && Steady(st', store.W()) && Continues(old(store.run), store.run)
    ensures store.W().hist == ApplyHistory(old(store.disk), old(store.W().hist), WriteReceipt(r))
    ensures Loses(old(store.run), store.run, ReceiptSeqs(r))
    ensures r.batchId in st'.receipts && st'.receipts[r.batchId] == r && |st'.receipts| <= MAX_ACK_RECEIPTS
    ensures OnlyNew(st.receipts, st'.receipts, r.batchId) && Newest(st'.receipts, r.batchId)
    ensures st'.nextReceipt == st.nextReceipt && (|st.receipts| < MAX_ACK_RECEIPTS ==> st'.v1Pruned == st.v1Pruned)
  {
    ghost var d := store.disk;
    st' := WriteNewReceipt(store, st, r);
    ghost var first, all := store.run, st'.receipts;
    st' := SettleReceipt(store, st', r);
    LosesThenKeeps(old(store.run), first, store.run, ReceiptSeqs(r));
    NewestStays(st, d, r, all, st'.receipts);
    NoneGone(all, st'.receipts);
  }

  /** The write that acknowledges. */
  method WriteNewReceipt(store: Store, st: State, r: Receipt) returns (st': State)
    requires store.Valid() && Steady(st, store.W()) && MayWriteReceipt(store.W(), r)
    requires r.sequence + 1 == st.nextReceipt && r.batchId !in st.receipts
    modifies store
    ensures store.Valid() && Cached(st', store.W()) && Lagging(st', store.W()) && Tidy(st', store.W())
    ensures SettledBut(store.W(), ReceiptSeqs(r)) && r.sequence in store.disk.receipts
    ensures store.disk.receipts[r.sequence] == r
    ensures Continues(old(store.run), store.run) && Loses(old(store.run), store.run, ReceiptSeqs(r))
    ensures store.W().hist == ApplyHistory(old(store.disk), old(store.W().hist), WriteReceipt(r))
    ensures st' == st.(receipts := st.receipts[r.batchId := r])
    ensures ReceiptsAgree(st, old(store.disk)) && forall m :: m in old(store.disk).receipts ==> m < r.sequence
  {
    AcceptLoses(store.cfg, store.run, r);
    st' := st.(receipts := st.receipts[r.batchId := r]);
    AfterReceiptWrite(st, store.W(), st', r);
    store.Perform(WriteReceipt(r));
  }

  /** Carries out a receipt that is already durable and prunes old ones; the queue stays the same. */
  method SettleReceipt(store: Store, st: State, r: Receipt) returns (st': State)
    requires store.Valid() && Cached(st, store.W()) && Lagging(st, store.W()) && Tidy(st, store.W())
    requires r.sequence in store.disk.receipts && store.disk.receipts[r.sequence] == r
    requires SettledBut(store.W(), ReceiptSeqs(r))
    modifies store
    ensures store.Valid() && Unmoved(old(store.run), store.run) && Steady(st', store.W())
    ensures OldestGone(st.receipts, st'.receipts)
    ensures |st'.receipts| == if |st.receipts| <= MAX_ACK_RECEIPTS then |st.receipts| else MAX_ACK_RECEIPTS
    ensures st'.nextReceipt == st.nextReceipt && (st'.v1Pruned <==> st.v1Pruned || V1Gone(st.receipts, st'.receipts))
  {
    st' := CompleteReceipt(store, st, r);
    ghost var mid := store.run;
    st' := PruneReceipts(store, st');
    UnmovedTwice(old(store.run), mid, store.run);
  }

  lemma NoneGone(all: map<BatchId, Receipt>, left: map<BatchId, Receipt>)
    requires OldestGone(all, left)
    ensures |left| == |all| ==> !V1Gone(all, left)
  {
    if |left| == |all| { SubsetOfSameSize(left.Keys, all.Keys); }
  }

  /** No receipt but that of the batch is new. */
  ghost predicate OnlyNew(before: map<BatchId, Receipt>, after: map<BatchId, Receipt>, b: BatchId) {
    forall c :: c in after && c != b ==> c in before && after[c] == before[c]
  }

  /** The receipt of the batch is the last one written. */
  ghost predicate Newest(receipts: map<BatchId, Receipt>, b: BatchId) {
    b in receipts && forall c :: c in receipts ==> receipts[c].sequence <= receipts[b].sequence
  }

  lemma NewestStays(st: State, d: Disk, r: Receipt, all: map<BatchId, Receipt>, left: map<BatchId, Receipt>)
    requires ReceiptsAgree(st, d) && (forall m :: m in d.receipts ==> m < r.sequence)
    requires all == st.receipts[r.batchId := r] && r.batchId !in st.receipts && OldestGone(all, left)
    requires |left| == if |all| <= MAX_ACK_RECEIPTS then |all| else MAX_ACK_RECEIPTS
    ensures r.batchId in left && left[r.batchId] == r && OnlyNew(st.receipts, left, r.batchId)
    ensures Newest(left, r.batchId)
  {
    assert r.batchId in all && all != map[];
    assert |left| > 0;
    var c :| c in left;
    assert ReceiptOnDisk(st, d, c);
    forall b | b in left ensures left[b].sequence <= r.sequence { assert ReceiptOnDisk(st, d, b); }
  }
}
