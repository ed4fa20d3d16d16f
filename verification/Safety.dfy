/** What holds after every legal log of durable steps: stops of the process, reopenings and crashes
    during recovery included, since each of them only cuts the log short. */
module Safety {
  import opened Finite
  import opened Wire
  import opened Limits
  import opened Durable
  import opened Invariant

  // ---------------------------------------------------------------------------
  // The queue across one step
  // ---------------------------------------------------------------------------

  /** Steps that only clean up or make a decision already taken physical. */
  predicate Housekeeping(d: Disk, a: Action) {
    match a
    case WritePending(_, _) => false
    case WriteReceipt(_) => false
    case WriteSequence(state) => NewlyCounted(d, state) == {}
    case WriteGap(_, n) => n.reason.RetentionExpired?
    case Damage(_, _) => false
    case _ => true
  }

  /** The queue with the given numbers turned into retention gaps. */
  ghost function Expire(v: map<nat, Item>, due: set<nat>): map<nat, Item> {
    map s | s in v :: if s in due && v[s].Record? then Gap(RetentionNotice(s, v[s].stored)) else v[s]
  }

  /** The queue at one number is the same on both disks. */
  ghost predicate SameItem(d: Disk, d': Disk, s: nat) {
    && (s in View(d) <==> s in View(d'))
    && (s in View(d) ==> View(d)[s] == View(d')[s])
  }

  lemma RemovalKeepsItem(w: World, t: nat, q: bool, s: nat)
    requires Fate(w, s) && t in w.disk.pending && (t in w.disk.gaps || Accepted(w.disk.receipts, t))
    ensures SameItem(w.disk, ApplyDisk(w.disk, RemovePending(t, q)), s)
  {
  }

  lemma GapKeepsItem(cfg: Config, w: World, t: nat, n: GapNotice, s: nat)
    requires Fate(w, s) && MayWriteGap(cfg, w, t, n) && n.reason.RetentionExpired? && !w.hist.damaged
    ensures SameItem(w.disk, ApplyDisk(w.disk, WriteGap(t, n)), s)
  {
  }

  lemma GapRemovalKeepsItem(w: World, t: nat, s: nat)
    requires t !in w.disk.pending && Accepted(w.disk.receipts, t)
    ensures SameItem(w.disk, ApplyDisk(w.disk, RemoveGap(t)), s)
  {
  }

  lemma PruneKeepsItem(w: World, n: nat, s: nat)
    requires MayRemoveReceipt(w, n)
    ensures SameItem(w.disk, ApplyDisk(w.disk, RemoveReceipt(n)), s)
  {
    AcceptedAfterRemove(w.disk.receipts, n, s);
  }

  lemma PersistKeepsItem(w: World, state: SequenceState, s: nat)
    requires Fate(w, s) && MayCount(w, state, s) && s !in NewlyCounted(w.disk, state)
    ensures SameItem(w.disk, ApplyDisk(w.disk, WriteSequence(state)), s)
  {
  }

  lemma RemovedGapAccepted(w: World, s: nat)
    requires MayRemoveGap(w, s) && w.disk.gaps[s].noticeId.NoticeDigest? && w.disk.gaps[s].noticeId.spoolSeq == s
    ensures Accepted(w.disk.receipts, s)
  {
    var n :| n in w.disk.receipts && w.disk.gaps[s].noticeId in w.disk.receipts[n].gapIds;
    GapIdAccepts(w, n, w.disk.gaps[s].noticeId);
  }

  lemma ItemKept(cfg: Config, w: World, a: Action, s: nat)
    requires Inv(cfg, w) && Enabled(cfg, w, a) && Housekeeping(w.disk, a)
    requires a.WriteGap? ==> !w.hist.damaged
    ensures SameItem(w.disk, Apply(w, a).disk, s)
  {
    assert Fate(w, s);
    match a
    case RemovePending(t, q) => RemovalKeepsItem(w, t, q, s);
    case WriteGap(t, n) => GapKeepsItem(cfg, w, t, n, s);
    case RemoveReceipt(n) => PruneKeepsItem(w, n, s);
    case RemoveGap(t) => RemovedGapKeepsItem(cfg, w, t, s);
    case WriteSequence(state) =>
      assert MayCount(w, state, s);
      PersistKeepsItem(w, state, s);
    case _ => MarkKeepsItem(w, a, s);
  }

  lemma RemovedGapKeepsItem(cfg: Config, w: World, t: nat, s: nat)
    requires Inv(cfg, w) && MayRemoveGap(w, t)
    ensures SameItem(w.disk, ApplyDisk(w.disk, RemoveGap(t)), s)
  {
    assert Fate(w, t);
    AcceptedGapStandsAlone(cfg, w, t);
    RemovedGapAccepted(w, t);
    GapRemovalKeepsItem(w, t, s);
  }

  lemma MarkKeepsItem(w: World, a: Action, s: nat)
    requires a.WriteFormat? || a.Orphan?
    ensures SameItem(w.disk, ApplyDisk(w.disk, a), s)
  {
  }

  lemma SameItems(d: Disk, d': Disk)
    requires forall s {:trigger SameItem(d, d', s)} :: SameItem(d, d', s)
    ensures View(d) == View(d')
  {
    forall s
      ensures s in View(d) <==> s in View(d')
      ensures s in View(d) ==> View(d)[s] == View(d')[s]
    {
      assert SameItem(d, d', s);
    }
  }

  /** Housekeeping never changes the queue: removing what a receipt or a gap stands for, writing the
      gap of a counted expiry, forgetting settled counts, pruning a settled receipt. */
  lemma HousekeepingKeepsView(cfg: Config, w: World, a: Action)
    requires Inv(cfg, w) && Enabled(cfg, w, a) && Housekeeping(w.disk, a)
    requires a.WriteGap? ==> !w.hist.damaged
    ensures View(Apply(w, a).disk) == View(w.disk)
  {
    forall s ensures SameItem(w.disk, Apply(w, a).disk, s) { ItemKept(cfg, w, a, s); }
    SameItems(w.disk, Apply(w, a).disk);
  }

  /** The record write alone admits: the queue gains the record at the next number. */
  lemma AdmitExtendsView(cfg: Config, w: World, s: nat, f: PendingFile)
    requires Inv(cfg, w) && MayWritePending(cfg, w, s, f)
    ensures s !in View(w.disk)
    ensures View(Apply(w, WritePending(s, f)).disk) == View(w.disk)[s := Record(f.contents.stored)]
  {
    assert Fate(w, s);
    AdmittedItems(w, s, f);
  }

  lemma AdmittedItems(w: World, s: nat, f: PendingFile)
    requires Fate(w, s) && s !in w.hist.admitted && f.contents.Intact?
    ensures s !in View(w.disk)
    ensures View(ApplyDisk(w.disk, WritePending(s, f))) == View(w.disk)[s := Record(f.contents.stored)]
  {
    var v, v' := View(w.disk), View(ApplyDisk(w.disk, WritePending(s, f)));
    assert forall t :: t in v' <==> t in v || t == s;
    assert forall t :: t in v' ==> v'[t] == if t == s then Record(f.contents.stored) else v[t];
  }

  /** The receipt write alone acknowledges: the queue loses exactly what the receipt accepts. */
  lemma AcceptShrinksView(cfg: Config, w: World, r: Receipt)
    requires Inv(cfg, w) && MayWriteReceipt(w, r)
    ensures View(Apply(w, WriteReceipt(r)).disk) == View(w.disk) - ReceiptSeqs(r)
    ensures ReceiptSeqs(r) <= View(w.disk).Keys
  {
    AcceptedItems(w.disk, r);
    AcceptedAreLive(w.disk, r);
  }

  lemma AcceptedAreLive(d: Disk, r: Receipt)
    requires AcceptsLive(d, r)
    ensures ReceiptSeqs(r) <= View(d).Keys
  {
  }

  lemma AcceptedItems(d: Disk, r: Receipt)
    requires r.sequence !in d.receipts
    ensures View(ApplyDisk(d, WriteReceipt(r))) == View(d) - ReceiptSeqs(r)
  {
    forall s
      ensures s in View(ApplyDisk(d, WriteReceipt(r))) <==> s in View(d) && s !in ReceiptSeqs(r)
      ensures s in View(d) && s !in ReceiptSeqs(r) ==> View(ApplyDisk(d, WriteReceipt(r)))[s] == View(d)[s]
    {
      AcceptedItem(d, r, s);
    }
  }

  lemma AcceptedItem(d: Disk, r: Receipt, s: nat)
    requires r.sequence !in d.receipts
    ensures s in View(ApplyDisk(d, WriteReceipt(r))) <==> s in View(d) && s !in ReceiptSeqs(r)
    ensures s in View(d) && s !in ReceiptSeqs(r) ==> View(ApplyDisk(d, WriteReceipt(r)))[s] == View(d)[s]
  {
    AcceptedAfterWrite(d.receipts, r, s);
  }

  /** The counting write alone expires: the queue turns the counted records into their gaps. */
  lemma CountExpiresView(cfg: Config, w: World, state: SequenceState)
    requires Inv(cfg, w) && MayWriteSequence(w, state) && !w.hist.damaged
    ensures View(Apply(w, WriteSequence(state)).disk) == Expire(View(w.disk), NewlyCounted(w.disk, state))
  {
    var v, v' := View(w.disk), View(Apply(w, WriteSequence(state)).disk);
    var e := Expire(v, NewlyCounted(w.disk, state));
    forall s
      ensures s in e <==> s in v'
      ensures s in e ==> v'[s] == e[s]
    {
      assert Fate(w, s) && MayCount(w, state, s);
      CountedItem(w, state, s);
    }
  }

  lemma CountedItem(w: World, state: SequenceState, s: nat)
    requires Fate(w, s) && MayCount(w, state, s) && !w.hist.damaged
    ensures var v, v' := View(w.disk), View(ApplyDisk(w.disk, WriteSequence(state)));
            && (s in v <==> s in v')
            && (s in v ==> v'[s] == Expire(v, NewlyCounted(w.disk, state))[s])
  {
  }

  // ---------------------------------------------------------------------------
  // Whole runs
  // ---------------------------------------------------------------------------

  /** The receipt written at step `i` accepts the number. */
  ghost predicate AcceptsAt(run: Run, i: nat, s: nat)
    requires i < |run.steps|
  {
    run.steps[i].WriteReceipt? && s in ReceiptSeqs(run.steps[i].receipt)
  }

  /** Acknowledged means accepted by a receipt that became durable during the run. */
  lemma {:induction false} AckedByReceipt(cfg: Config, run: Run, k: nat, s: nat)
    requires Legal(cfg, run) && k <= |run.steps|
    ensures s in run.worlds[k].hist.acked <==> exists i :: 0 <= i < k && AcceptsAt(run, i, s)
  {
    if k > 0 {
      AckedByReceipt(cfg, run, k - 1, s);
      assert Allowed(cfg, run, k - 1);
      assert s in run.worlds[k].hist.acked <==> s in run.worlds[k - 1].hist.acked || AcceptsAt(run, k - 1, s);
    }
  }

  /** Conservation. In every world of a run every number handed out is in the queue or acknowledged by
      a receipt, never both and never neither; the queue and the acknowledged set hold nothing else. */
  lemma Conservation(cfg: Config, run: Run, k: nat, s: nat)
    requires Legal(cfg, run) && k <= |run.steps|
    ensures var w := run.worlds[k];
            && (s in w.hist.admitted <==> s in View(w.disk) || s in w.hist.acked)
            && !(s in View(w.disk) && s in w.hist.acked)
  {
    LegalKeeps(cfg, run, k);
    assert Fate(run.worlds[k], s);
  }

  /** Undamaged, an item of the queue is the record itself until its expiry is counted and the
      retention gap of that very record from then on. */
  lemma LiveItem(cfg: Config, run: Run, k: nat, s: nat)
    requires Legal(cfg, run) && k <= |run.steps|
    requires !run.worlds[k].hist.damaged && s in View(run.worlds[k].disk)
    ensures var w := run.worlds[k];
            && s in w.hist.admitted
            && View(w.disk)[s] == if s in w.hist.expired then Gap(RetentionNotice(s, w.hist.admitted[s]))
                else Record(w.hist.admitted[s])
  {
    LegalKeeps(cfg, run, k);
    assert Fate(run.worlds[k], s);
  }

  /** Nothing admitted, acknowledged or counted is ever forgotten, the next number never goes down
      and the pruned flag never clears. */
  ghost predicate Grows(w: World, w': World) {
    && w.hist.next <= w'.hist.next && Ledger(w.disk).next <= Ledger(w'.disk).next
    && w.hist.acked <= w'.hist.acked && w.hist.expired <= w'.hist.expired
    && w.hist.admitted.Keys <= w'.hist.admitted.Keys
    && (forall s :: s in w.hist.admitted ==> w'.hist.admitted[s] == w.hist.admitted[s])
    && (Ledger(w.disk).v1Pruned ==> Ledger(w'.disk).v1Pruned)
  }

  lemma StepGrows(cfg: Config, w: World, a: Action)
    requires Inv(cfg, w) && Enabled(cfg, w, a)
    ensures Grows(w, Apply(w, a))
  {
    if a.WritePending? { assert Fate(w, a.spoolSeq); }
  }

  lemma GrowsAt(cfg: Config, run: Run, i: nat)
    requires Legal(cfg, run) && i < |run.steps|
    ensures Grows(run.worlds[i], run.worlds[i + 1])
  {
    LegalKeeps(cfg, run, i);
    assert Allowed(cfg, run, i);
    StepGrows(cfg, run.worlds[i], run.steps[i]);
  }

  lemma GrowsTwice(a: World, b: World, c: World)
    requires Grows(a, b) && Grows(b, c)
    ensures Grows(a, c)
  {
  }

  lemma {:induction false} HistoryGrows(cfg: Config, run: Run, i: nat, j: nat)
    requires Legal(cfg, run) && i <= j <= |run.steps|
    ensures Grows(run.worlds[i], run.worlds[j])
    decreases j - i
  {
    if i < j {
      HistoryGrows(cfg, run, i, j - 1);
      GrowsAt(cfg, run, j - 1);
      GrowsTwice(run.worlds[i], run.worlds[j - 1], run.worlds[j]);
    }
  }

  /** Files of an occurrence disappear only after a receipt for it became durable. */
  lemma RemovalNeedsReceipt(cfg: Config, run: Run, i: nat, j: nat, s: nat)
    requires Legal(cfg, run) && i <= j <= |run.steps|
    requires s in run.worlds[i].hist.admitted && !OnDisk(run.worlds[j].disk, s)
    ensures exists k :: 0 <= k < j && AcceptsAt(run, k, s)
  {
    HistoryGrows(cfg, run, i, j);
    LegalKeeps(cfg, run, j);
    assert Fate(run.worlds[j], s);
    AckedByReceipt(cfg, run, j, s);
  }

  /** Sequence uniqueness. In any run two stored occurrences get different numbers, in the order they
      were stored, whatever stops, drains and reopenings lie between them. */
  lemma NumbersAreUnique(cfg: Config, run: Run, i: nat, j: nat)
    requires Legal(cfg, run) && i < j < |run.steps| && run.steps[i].WritePending? && run.steps[j].WritePending?
    ensures run.steps[i].spoolSeq < run.steps[j].spoolSeq
  {
    AdmitTakesNext(cfg, run, i);
    AdmitTakesNext(cfg, run, j);
    HistoryGrows(cfg, run, i + 1, j);
  }

  lemma AdmitTakesNext(cfg: Config, run: Run, i: nat)
    requires Legal(cfg, run) && i < |run.steps| && run.steps[i].WritePending?
    ensures run.worlds[i].hist.next == run.steps[i].spoolSeq && run.worlds[i + 1].hist.next == run.steps[i].spoolSeq + 1
  {
    assert Allowed(cfg, run, i);
  }

  /** The next number is found on disk alone, even after a stop between the record write and the
      sequence-state write: it is one above the stored one exactly when a file carries the stored one. */
  lemma NextNumberFromDisk(cfg: Config, run: Run, k: nat)
    requires Legal(cfg, run) && k <= |run.steps|
    ensures var w := run.worlds[k];
            && w.hist.next == (if OnDisk(w.disk, Ledger(w.disk).next) then Ledger(w.disk).next + 1
                else Ledger(w.disk).next)
            && forall s: nat :: OnDisk(w.disk, s) ==> 1 <= s < w.hist.next
  {
    LegalKeeps(cfg, run, k);
    var w := run.worlds[k];
    assert Fate(w, Ledger(w.disk).next);
    forall s: nat | OnDisk(w.disk, s) ensures 1 <= s < w.hist.next { assert Fate(w, s); }
  }

  /** Contiguous frontier. In a run with version 2 acknowledgements only there is a frontier: exactly
      the numbers up to it are acknowledged and the queue is exactly the stretch above it. */
  lemma Frontier(cfg: Config, run: Run, k: nat) returns (f: nat)
    requires Legal(cfg, run) && k <= |run.steps|
    requires forall i :: 0 <= i < k && run.steps[i].WriteReceipt? ==> run.steps[i].receipt.version == 2
    ensures var w := run.worlds[k];
            && f < w.hist.next
            && (forall s: nat :: s in w.hist.acked <==> 1 <= s <= f)
            && (forall s: nat :: s in View(w.disk) <==> f < s < w.hist.next)
  {
    LegalKeeps(cfg, run, k);
    OnlyV2(cfg, run, k);
    var w := run.worlds[k];
    f := LastOfStretch(w.hist.acked, w.hist.next);
    forall s: nat
      ensures s in w.hist.acked <==> 1 <= s <= f
      ensures s in View(w.disk) <==> f < s < w.hist.next
    {
      assert Fate(w, s);
      FrontierAt(w, f, s);
    }
  }

  lemma FrontierAt(w: World, f: nat, s: nat)
    requires Fate(w, s) && FrontierOnly(false, w.hist.acked)
    requires f < w.hist.next && (forall t :: 1 <= t <= f ==> t in w.hist.acked)
    requires f + 1 == w.hist.next || f + 1 !in w.hist.acked
    ensures s in w.hist.acked <==> 1 <= s <= f
    ensures s in View(w.disk) <==> f < s < w.hist.next
  {
    assert s in w.hist.acked ==> AllBelow(w.hist.acked, s);
  }

  /** No number is accepted by two receipts of a run. */
  lemma AcceptedOnlyOnce(cfg: Config, run: Run, i: nat, j: nat, s: nat)
    requires Legal(cfg, run) && i < j < |run.steps| && AcceptsAt(run, i, s)
    ensures !AcceptsAt(run, j, s)
  {
    AckedByReceipt(cfg, run, j, s);
    Conservation(cfg, run, j, s);
    if AcceptsAt(run, j, s) { AcceptedIsLive(cfg, run, j, s); }
  }

  lemma AcceptedIsLive(cfg: Config, run: Run, i: nat, s: nat)
    requires Legal(cfg, run) && i < |run.steps| && AcceptsAt(run, i, s)
    ensures s in View(run.worlds[i].disk)
  {
    assert Allowed(cfg, run, i);
  }

  /** What a version 2 receipt accepts comes before everything any later receipt of the run accepts,
      so version 2 acknowledges every number once and in order. */
  lemma AcceptedInOrder(cfg: Config, run: Run, i: nat, j: nat, s: nat, t: nat)
    requires Legal(cfg, run) && i < j < |run.steps| && AcceptsAt(run, i, s) && AcceptsAt(run, j, t)
    requires run.steps[i].receipt.version == 2
    ensures s < t
  {
    AcceptedIsLive(cfg, run, i, s);
    AcceptedIsLive(cfg, run, j, t);
    if AcceptsAt(run, i, t) { AcceptedOnlyOnce(cfg, run, i, j, t); }
    AckedByReceipt(cfg, run, i, t);
    AckedByReceipt(cfg, run, j, t);
    Conservation(cfg, run, i, s);
    Conservation(cfg, run, i, t);
    Conservation(cfg, run, j, t);
    if t in View(run.worlds[i].disk) {
      assert Allowed(cfg, run, i);
    } else {
      AdmittedLater(cfg, run, i, j, s, t);
    }
  }

  lemma AdmittedLater(cfg: Config, run: Run, i: nat, j: nat, s: nat, t: nat)
    requires Legal(cfg, run) && i <= j <= |run.steps| && s in run.worlds[i].hist.admitted
    requires t !in run.worlds[i].hist.admitted && t in run.worlds[j].hist.admitted
    ensures s < t
  {
    LegalKeeps(cfg, run, i);
    LegalKeeps(cfg, run, j);
    assert Fate(run.worlds[i], s) && Fate(run.worlds[i], t) && Fate(run.worlds[j], t);
  }

  /** The end of the initial stretch 1, 2, ... of a set. */
  lemma LastOfStretch(acked: set<nat>, bound: nat) returns (f: nat)
    requires 1 <= bound
    ensures f < bound && (forall s :: 1 <= s <= f ==> s in acked) && (f + 1 == bound || f + 1 !in acked)
  {
    f := 0;
    while f + 1 < bound && f + 1 in acked
      invariant f < bound && forall s :: 1 <= s <= f ==> s in acked
    {
      f := f + 1;
    }
  }

  lemma {:induction false} OnlyV2(cfg: Config, run: Run, k: nat)
    requires Legal(cfg, run) && k <= |run.steps|
    requires forall i :: 0 <= i < k && run.steps[i].WriteReceipt? ==> run.steps[i].receipt.version == 2
    ensures !run.worlds[k].hist.v1Used
  {
    if k > 0 {
      OnlyV2(cfg, run, k - 1);
      assert Allowed(cfg, run, k - 1);
    }
  }

  /** Step `i` counts the expiry of the number. */
  ghost predicate CountsAt(run: Run, i: nat, s: nat)
    requires i < |run.steps|
  {
    run.steps[i].WriteSequence? && s in NewlyCounted(run.worlds[i].disk, run.steps[i].state)
  }

  lemma {:induction false} ExpiredByCount(cfg: Config, run: Run, k: nat, s: nat)
    requires Legal(cfg, run) && k <= |run.steps|
    ensures s in run.worlds[k].hist.expired <==> exists i :: 0 <= i < k && CountsAt(run, i, s)
  {
    if k > 0 {
      ExpiredByCount(cfg, run, k - 1, s);
      assert Allowed(cfg, run, k - 1);
      assert s in run.worlds[k].hist.expired <==> s in run.worlds[k - 1].hist.expired || CountsAt(run, k - 1, s);
    }
  }

  /** Exactly-once expiry. The stored total is the number of different occurrences whose expiry some
      step counted, and no occurrence is counted by two steps. */
  lemma ExactlyOnceExpiry(cfg: Config, run: Run, k: nat)
    requires Legal(cfg, run) && k <= |run.steps|
    ensures Ledger(run.worlds[k].disk).expiredTotal == |run.worlds[k].hist.expired|
    ensures forall s :: s in run.worlds[k].hist.expired <==> exists i :: 0 <= i < k && CountsAt(run, i, s)
    ensures forall i, j, s :: 0 <= i < j < |run.steps| && CountsAt(run, i, s) ==> !CountsAt(run, j, s)
  {
    LegalKeeps(cfg, run, k);
    forall s
      ensures s in run.worlds[k].hist.expired <==> exists i :: 0 <= i < k && CountsAt(run, i, s)
    {
      ExpiredByCount(cfg, run, k, s);
    }
    forall i, j, s | 0 <= i < j < |run.steps| && CountsAt(run, i, s)
      ensures !CountsAt(run, j, s)
    {
      CountedOnlyOnce(cfg, run, i, j, s);
    }
  }

  lemma CountedOnlyOnce(cfg: Config, run: Run, i: nat, j: nat, s: nat)
    requires Legal(cfg, run) && i < j < |run.steps| && CountsAt(run, i, s)
    ensures !CountsAt(run, j, s)
  {
    CountIsFirst(cfg, run, i, s);
    HistoryGrows(cfg, run, i + 1, j);
    if CountsAt(run, j, s) { CountIsFirst(cfg, run, j, s); }
  }

  lemma CountIsFirst(cfg: Config, run: Run, i: nat, s: nat)
    requires Legal(cfg, run) && i < |run.steps| && CountsAt(run, i, s)
    ensures s !in run.worlds[i].hist.expired && s in run.worlds[i + 1].hist.expired
  {
    assert Allowed(cfg, run, i);
    LegalKeeps(cfg, run, i);
    assert Fate(run.worlds[i], s) && MayCount(run.worlds[i], run.steps[i].state, s);
  }

  /** Step `k` prunes the receipt. */
  ghost predicate PrunesAt(run: Run, k: nat, n: nat)
    requires k < |run.steps|
  {
    run.steps[k] == RemoveReceipt(n)
  }

  lemma ReceiptStep(cfg: Config, run: Run, k: nat, n: nat)
    requires Legal(cfg, run) && k < |run.steps| && n in run.worlds[k].disk.receipts && !PrunesAt(run, k, n)
    ensures n in run.worlds[k + 1].disk.receipts && run.worlds[k + 1].disk.receipts[n] == run.worlds[k].disk.receipts[n]
  {
    assert Allowed(cfg, run, k);
    ReceiptAfter(cfg, run.worlds[k], run.steps[k], n);
  }

  lemma ReceiptAfter(cfg: Config, w: World, a: Action, n: nat)
    requires Enabled(cfg, w, a) && n in w.disk.receipts && a != RemoveReceipt(n)
    ensures n in Apply(w, a).disk.receipts && Apply(w, a).disk.receipts[n] == w.disk.receipts[n]
  {
  }

  /** A durable receipt never changes and stays until it is pruned, which happens only when it is the
      oldest of more than 1024. */
  lemma {:induction false} ReceiptRetained(cfg: Config, run: Run, i: nat, j: nat, n: nat)
    requires Legal(cfg, run) && i <= j <= |run.steps| && n in run.worlds[i].disk.receipts
    requires forall k :: i <= k < j ==> !PrunesAt(run, k, n)
    ensures n in run.worlds[j].disk.receipts && run.worlds[j].disk.receipts[n] == run.worlds[i].disk.receipts[n]
    decreases j - i
  {
    if i < j {
      ReceiptRetained(cfg, run, i, j - 1, n);
      ReceiptStep(cfg, run, j - 1, n);
    }
  }

  /** No step from `i` on prunes the receipt. */
  ghost predicate Unpruned(run: Run, i: nat, n: nat) {
    forall k :: i <= k < |run.steps| ==> !PrunesAt(run, k, n)
  }

  /** How many receipts are written by the steps from `i` up to `j`. */
  ghost function Written(run: Run, i: nat, j: nat): nat
    requires j <= |run.steps|
    decreases j
  {
    if j <= i then 0 else Written(run, i, j - 1) + if run.steps[j - 1].WriteReceipt? then 1 else 0
  }

  ghost function Newer(d: Disk, n: nat): set<nat> { set m | m in d.receipts && n < m }

  lemma NewerAfter(w: World, a: Action, n: nat)
    requires a.WriteReceipt? || Apply(w, a).disk.receipts.Keys <= w.disk.receipts.Keys
    ensures |Newer(Apply(w, a).disk, n)| <= |Newer(w.disk, n)| + if a.WriteReceipt? then 1 else 0
  {
    var more := if a.WriteReceipt? then {a.receipt.sequence} else {};
    SubsetSize(Newer(Apply(w, a).disk, n), Newer(w.disk, n) + more);
  }

  /** No more receipts lie above the one that was newest than were written since. */
  lemma {:induction false} NewerWereWritten(cfg: Config, run: Run, i: nat, j: nat, n: nat)
    requires Legal(cfg, run) && i <= j <= |run.steps| && Newer(run.worlds[i].disk, n) == {}
    ensures |Newer(run.worlds[j].disk, n)| <= Written(run, i, j)
    decreases j
  {
    if i < j {
      NewerWereWritten(cfg, run, i, j - 1, n);
      assert Allowed(cfg, run, j - 1);
      NewerAfter(run.worlds[j - 1], run.steps[j - 1], n);
    }
  }

  lemma {:induction false} WrittenGrows(run: Run, i: nat, j: nat, k: nat)
    requires j <= k <= |run.steps|
    ensures Written(run, i, j) <= Written(run, i, k)
    decreases k
  {
    if j < k { WrittenGrows(run, i, j, k - 1); }
  }

  /** A receipt is not pruned before 1024 further ones are written. */
  lemma NewestUnpruned(cfg: Config, run: Run, i: nat, n: nat)
    requires Legal(cfg, run) && i <= |run.steps| && Newer(run.worlds[i].disk, n) == {}
    requires Written(run, i, |run.steps|) < 1_024
    ensures Unpruned(run, i, n)
  {
    forall k | i <= k < |run.steps|
      ensures !PrunesAt(run, k, n)
    {
      NewerWereWritten(cfg, run, i, k, n);
      WrittenGrows(run, i, k, |run.steps|);
      if PrunesAt(run, k, n) {
        PrunedIsOldest(cfg, run, k, n);
        SubsetSize(run.worlds[k].disk.receipts.Keys, Newer(run.worlds[k].disk, n) + {n});
      }
    }
  }

  lemma PrunedIsOldest(cfg: Config, run: Run, k: nat, n: nat)
    requires Legal(cfg, run) && k < |run.steps| && PrunesAt(run, k, n)
    ensures |run.worlds[k].disk.receipts| > MAX_ACK_RECEIPTS && forall m :: m in run.worlds[k].disk.receipts ==> n <= m
    ensures n in run.worlds[k].disk.receipts
    ensures (run.worlds[k].disk.receipts[n].version == 1 ==> Ledger(run.worlds[k].disk).v1Pruned)
  {
    assert Allowed(cfg, run, k);
  }

  // ---------------------------------------------------------------------------
  // Capacity
  // ---------------------------------------------------------------------------

  /** In every world of a run the files stay within the configured numbers and bytes. */
  lemma CapacityHolds(cfg: Config, run: Run, k: nat)
    requires Legal(cfg, run) && k <= |run.steps|
    ensures var d := run.worlds[k].disk;
            && |Files(d)| <= cfg.maxRecords
            && Total(PendingSizes(d.pending)) <= cfg.maxBytes && Total(GapSizes(d.gaps)) <= cfg.maxBytes
            && d.quarantineFiles <= cfg.maxRecords && d.quarantineBytes <= cfg.maxBytes
  {
    LegalKeeps(cfg, run, k);
  }

  /** Only a record write raises the number of occurrences on disk. */
  lemma OnlyAdmissionRaises(cfg: Config, w: World, a: Action)
    requires Enabled(cfg, w, a) && !a.WritePending?
    ensures |Files(ApplyDisk(w.disk, a))| <= |Files(w.disk)|
  {
    var d, d' := w.disk, ApplyDisk(w.disk, a);
    forall s | s in Files(d') ensures s in Files(d) { }
    SubsetSize(Files(d'), Files(d));
  }

  // ---------------------------------------------------------------------------
  // Batch identifiers of receipts
  // ---------------------------------------------------------------------------

  /** Everything before the first item a version 2 receipt's batch names is acknowledged, and the two
      versions never share an identifier. */
  ghost predicate FirstNamed(acked: set<nat>, r: Receipt) {
    && (r.version == 1 ==> r.batchId.BatchV1Digest?)
    && (r.batchId.BatchV2Digest? && r.batchId.items != [] ==>
          forall t :: 1 <= t < r.batchId.items[0].spoolSeq ==> t in acked)
  }

  lemma BelowFirst(w: World, b: BatchId, t: nat)
    requires NamesFirst(w.disk, b) && b.items != [] && Fate(w, b.items[0].spoolSeq) && Fate(w, t)
    requires 1 <= t < b.items[0].spoolSeq
    ensures t in w.hist.acked
  {
    assert t in w.hist.acked || t in View(w.disk);
  }

  lemma FirstNamedWhenWritten(cfg: Config, run: Run, k: nat, r: Receipt)
    requires Legal(cfg, run) && k <= |run.steps| && NamesFirst(run.worlds[k].disk, r.batchId) && r.version == 2
    ensures FirstNamed(run.worlds[k].hist.acked, r)
  {
    if r.batchId.items != [] {
      var s := r.batchId.items[0].spoolSeq;
      FateOf(cfg, run, k, s);
      forall t | 1 <= t < s
        ensures t in run.worlds[k].hist.acked
      {
        FateOf(cfg, run, k, t);
        BelowFirst(run.worlds[k], r.batchId, t);
      }
    }
  }

  lemma FateOf(cfg: Config, run: Run, k: nat, s: nat)
    requires Legal(cfg, run) && k <= |run.steps|
    ensures Fate(run.worlds[k], s)
  {
    LegalKeeps(cfg, run, k);
  }

  lemma FirstNamedStays(acked: set<nat>, more: set<nat>, r: Receipt)
    requires FirstNamed(acked, r) && acked <= more
    ensures FirstNamed(more, r)
  {
  }

  lemma WrittenNamesFirst(cfg: Config, run: Run, k: nat)
    requires Legal(cfg, run) && k < |run.steps| && run.steps[k].WriteReceipt?
    ensures FirstNamed(run.worlds[k].hist.acked, run.steps[k].receipt)
    ensures var r := run.steps[k].receipt;
            run.worlds[k + 1].disk.receipts == run.worlds[k].disk.receipts[r.sequence := r]
  {
    assert Allowed(cfg, run, k);
    if run.steps[k].receipt.version == 2 { FirstNamedWhenWritten(cfg, run, k, run.steps[k].receipt); }
  }

  /** In every world of a run the batch of every receipt on disk starts with what was then the first
      item of the queue. */
  lemma {:induction false} ReceiptsNameFirst(cfg: Config, run: Run, k: nat, n: nat)
    requires Legal(cfg, run) && k <= |run.steps| && n in run.worlds[k].disk.receipts
    ensures FirstNamed(run.worlds[k].hist.acked, run.worlds[k].disk.receipts[n])
  {
    if k > 0 {
      GrowsAt(cfg, run, k - 1);
      var r := run.worlds[k].disk.receipts[n];
      if run.steps[k - 1].WriteReceipt? && run.steps[k - 1].receipt.sequence == n {
        WrittenNamesFirst(cfg, run, k - 1);
      } else {
        ReceiptWasThere(cfg, run, k - 1, n);
        ReceiptsNameFirst(cfg, run, k - 1, n);
      }
      FirstNamedStays(run.worlds[k - 1].hist.acked, run.worlds[k].hist.acked, r);
    }
  }

  lemma ReceiptWasThere(cfg: Config, run: Run, k: nat, n: nat)
    requires Legal(cfg, run) && k < |run.steps| && n in run.worlds[k + 1].disk.receipts
    requires !(run.steps[k].WriteReceipt? && run.steps[k].receipt.sequence == n)
    ensures n in run.worlds[k].disk.receipts && run.worlds[k + 1].disk.receipts[n] == run.worlds[k].disk.receipts[n]
  {
    assert Allowed(cfg, run, k);
    ReceiptBefore(run.worlds[k], run.steps[k], n);
  }

  lemma ReceiptBefore(w: World, a: Action, n: nat)
    requires n in Apply(w, a).disk.receipts && !(a.WriteReceipt? && a.receipt.sequence == n)
    ensures n in w.disk.receipts && Apply(w, a).disk.receipts[n] == w.disk.receipts[n]
  {
  }

  /** A version 1 receipt on disk belongs to a batch that version 1 acknowledged, and version 1 receipts
      are the ones of version 1 batch identifiers. */
  lemma {:induction false} ReceiptIsRemembered(cfg: Config, run: Run, k: nat, n: nat)
    requires Legal(cfg, run) && k <= |run.steps| && n in run.worlds[k].disk.receipts
    ensures var r := run.worlds[k].disk.receipts[n];
            && (r.batchId.BatchV1Digest? ==> r.batchId in run.worlds[k].hist.v1Batches)
            && (r.batchId.BatchV1Digest? <==> r.version == 1)
  {
    if k > 0 {
      GrowsAt(cfg, run, k - 1);
      assert Allowed(cfg, run, k - 1);
      if !(run.steps[k - 1].WriteReceipt? && run.steps[k - 1].receipt.sequence == n) {
        ReceiptWasThere(cfg, run, k - 1, n);
        ReceiptIsRemembered(cfg, run, k - 1, n);
      }
    }
  }
}
