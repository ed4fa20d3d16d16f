/** Gap notices and retention expiry. */
module Expiry {
  import opened Finite
  import opened Wire
  import opened Limits
  import opened Durable
  import opened Invariant
  import opened Safety
  import opened Cache
  import opened Machine

  // ---------------------------------------------------------------------------
  // Writing a gap
  // ---------------------------------------------------------------------------

  /** A gap may be written for the entry, were there room and no gap of the number yet. */
  ghost predicate MayGap(w: World, n: GapNotice) {
    var s := n.spoolSeq;
    && s in w.disk.pending && s in w.hist.admitted && ValidNotice(n) && InI64(n.occurredAt)
    && !Accepted(w.disk.receipts, s)
    && (n.reason.RetentionExpired? ==> s in Ledger(w.disk).counted && n == RetentionNotice(s, w.hist.admitted[s]))
    && (n.reason.IntegrityQuarantine? ==>
          && w.disk.pending[s].contents.Corrupt?
          && (n == NoticeFor(s, StableOf(w.hist.admitted[s]), n.occurredAt, IntegrityQuarantine)
              || n == NoticeFor(s, w.hist.admitted[s].recordId, n.occurredAt, IntegrityQuarantine)))
    && (!w.hist.damaged ==> w.disk.pending.Keys !! w.disk.gaps.Keys)
  }

  /** The number of gap files alone never stops a gap: its own pending file keeps a place for it. */
  lemma GapCountFits(cfg: Config, run: Run, st: State, s: nat)
    requires Legal(cfg, run) && GapsAgree(st, End(run).disk) && s in End(run).disk.pending && s !in End(run).disk.gaps
    ensures |st.gaps| < cfg.maxRecords
  {
    EndKeeps(cfg, run);
    var d := End(run).disk;
    SubsetSize(d.gaps.Keys + {s}, d.pending.Keys + d.gaps.Keys);
    assert |d.gaps| == |d.gaps.Keys|;
  }

  lemma GapIsSmall(n: GapNotice)
    requires n.spoolSeq <= U64_MAX && InI64(n.occurredAt)
    ensures GapBytes(n) <= MAX_ENCRYPTED_GAP_BYTES
  {
    U64Digits(n.spoolSeq);
    I64Digits(n.occurredAt);
  }

  lemma NumberIsU64(cfg: Config, run: Run, s: nat)
    requires Legal(cfg, run) && s in End(run).hist.admitted
    ensures 1 <= s < U64_MAX
  {
    EndKeeps(cfg, run);
    assert Fate(End(run), s);
  }

  /** `persist_gap_locked`: writes the notice unless it is there already; the only shortage it can
      meet is that of gap bytes, and a different gap of the same number is refused. */
  method PersistGap(store: Store, st: State, e: Entry, occurredAt: int, reason: Reason)
    returns (r: Result<bool>, st': State)
    requires store.Valid() && GapsAgree(st, store.disk)
    requires e.spoolSeq !in store.disk.gaps ==> MayGap(store.W(), NoticeFor(e.spoolSeq, e.stableId, occurredAt, reason))
    requires forall id :: id in st.entries && st.entries[id].spoolSeq == e.spoolSeq ==>
            st.entries[id].recordId == e.recordId
    modifies store
    ensures store.Valid() && Kept(old(store.run), store.run) && GapsAgree(st', store.disk)
    ensures SameTotals(st, st') && SameEntries(st, st') && st'.counted == st.counted && st.gapBytes <= st'.gapBytes
    ensures var n := NoticeFor(e.spoolSeq, e.stableId, occurredAt, reason);
            if e.spoolSeq in old(store.disk.gaps) then
              && store.disk == old(store.disk) && st' == st
              && r == if old(store.disk.gaps)[e.spoolSeq].noticeId == n.noticeId then Ok(false) else Err(CorruptRecord)
            else if Total(GapSizes(old(store.disk.gaps))) + GapBytes(n) > store.cfg.maxBytes then
              store.disk == old(store.disk) && st' == st && r == Err(CapacityExceeded)
            else
              store.disk == ApplyDisk(old(store.disk), WriteGap(e.spoolSeq, n)) && r == Ok(true)
  {
    KeptSame(store.run);
    var n := NoticeFor(e.spoolSeq, e.stableId, occurredAt, reason);
    assert GapOnDisk(st, store.disk, n.noticeId) && HasGap(st, store.disk, e.spoolSeq);
    if n.noticeId in st.gaps { return Ok(false), st; }
    if exists id :: id in st.gaps && st.gaps[id].spoolSeq == e.spoolSeq {
      var id :| id in st.gaps && st.gaps[id].spoolSeq == e.spoolSeq;
      assert GapOnDisk(st, store.disk, id);
      return Err(CorruptRecord), st;
    }
    assert e.spoolSeq !in store.disk.gaps;
    if exists id :: id in st.entries && st.entries[id].spoolSeq == e.spoolSeq && st.entries[id].recordId != e.recordId {
      assert false;
    }
    NumberIsU64(store.cfg, store.run, e.spoolSeq);
    GapCountFits(store.cfg, store.run, st, e.spoolSeq);
    GapIsSmall(n);
    if |st.gaps| >= store.cfg.maxRecords { return Err(CapacityExceeded), st; }
    var bytes := GapBytes(n);
    if bytes > MAX_ENCRYPTED_GAP_BYTES || SaturatingAddU64(st.gapBytes, bytes) > store.cfg.maxBytes {
      return Err(CapacityExceeded), st;
    }
    st' := WriteGapFile(store, st, n);
    r := Ok(true);
  }

  /** Writes the file of a gap that fits. */
  method WriteGapFile(store: Store, st: State, n: GapNotice) returns (st': State)
    requires store.Valid() && GapsAgree(st, store.disk) && MayGap(store.W(), n)
    requires n.spoolSeq !in store.disk.gaps && n.noticeId !in st.gaps && st.gapBytes + GapBytes(n) <= store.cfg.maxBytes
    modifies store
    ensures store.Valid() && Kept(old(store.run), store.run) && GapsAgree(st', store.disk) && st' == AddGap(st, n)
    ensures store.disk == ApplyDisk(old(store.disk), WriteGap(n.spoolSeq, n))
  {
    GapsAfterWrite(st, store.disk, n);
    TendGap(store, n.spoolSeq, n);
    st' := AddGap(st, n);
  }

  // ---------------------------------------------------------------------------
  // Expiry
  // ---------------------------------------------------------------------------

  predicate Due(st: State, now: int, e: Entry) { e.expiresAt < now || e.spoolSeq in st.counted }

  /** Entries of different records carry different numbers. */
  lemma EntryNumbersDiffer(st: State, w: World, a: RecordId, b: RecordId)
    requires EntriesAgree(st, w) && a in st.entries && b in st.entries
    requires st.entries[a].spoolSeq == st.entries[b].spoolSeq
    ensures a == b
  {
    assert EntryOnDisk(st, w, a) && EntryOnDisk(st, w, b);
  }

  ghost predicate IsEntry(st: State, e: Entry) { e.recordId in st.entries && st.entries[e.recordId] == e }

  /** The due entries in sequence order, taken from the entries in any order. */
  method DueEntries(st: State, now: int, ghost w: World) returns (due: seq<Entry>)
    requires EntriesAgree(st, w)
    ensures forall e :: e in due <==> IsEntry(st, e) && Due(st, now, e)
    ensures forall i, j :: 0 <= i < j < |due| ==> due[i].spoolSeq < due[j].spoolSeq
  {
    var keyed: seq<Keyed<Entry>> := [];
    var rest := st.entries.Keys;
    while rest != {}
      invariant rest <= st.entries.Keys
      invariant forall k :: k in keyed <==>
                  k == Keyed(k.value.spoolSeq, 0, k.value) && IsEntry(st, k.value)
                      && k.value.recordId !in rest && Due(st, now, k.value)
      invariant DifferentKeys(keyed)
      decreases |rest|
    {
      var id :| id in rest;
      assert EntryOnDisk(st, w, id);
      if Due(st, now, st.entries[id]) {
        forall i | 0 <= i < |keyed|
          ensures keyed[i].major != st.entries[id].spoolSeq
        {
          assert keyed[i] in keyed;
          if keyed[i].major == st.entries[id].spoolSeq { EntryNumbersDiffer(st, w, id, keyed[i].value.recordId); }
        }
        keyed := keyed + [Keyed(st.entries[id].spoolSeq, 0, st.entries[id])];
      }
      rest := rest - {id};
    }
    SortStrictly(keyed);
    var sorted := Sort(keyed);
    assert forall i :: 0 <= i < |sorted| ==> sorted[i] in keyed;
    due := seq(|sorted|, i requires 0 <= i < |sorted| => sorted[i].value);
    forall e
      ensures e in due <==> IsEntry(st, e) && Due(st, now, e)
    {
      if IsEntry(st, e) && Due(st, now, e) {
        assert Keyed(e.spoolSeq, 0, e) in sorted;
        var i :| 0 <= i < |sorted| && sorted[i] == Keyed(e.spoolSeq, 0, e);
        assert due[i] == e;
      }
      if e in due {
        var i :| 0 <= i < |due| && due[i] == e;
        assert sorted[i] in keyed;
      }
    }
  }

  predicate GapOf(st: State, s: nat) { exists id :: id in st.gaps && st.gaps[id].spoolSeq == s }

  /** What counting may say about one number: the old count, or that of a due entry without a gap. */
  ghost predicate Tallied(st: State, due: seq<Entry>, counted: map<nat, RecordId>, s: nat) {
    && (s in st.counted ==> s in counted && counted[s] == st.counted[s])
    && (s in counted && s !in st.counted ==>
        !GapOf(st, s) && exists e :: e in due && e.spoolSeq == s && counted[s] == e.stableId)
  }

  ghost predicate AllTallied(st: State, due: seq<Entry>, counted: map<nat, RecordId>) {
    forall s {:trigger Tallied(st, due, counted, s)} :: Tallied(st, due, counted, s)
  }

  /** The counted map extended by the due entries without a gap, and how many they are. */
  method CountDue(st: State, due: seq<Entry>) returns (counted: map<nat, RecordId>, n: nat)
    ensures AllTallied(st, due, counted)
    ensures forall e :: e in due && !GapOf(st, e.spoolSeq) ==> e.spoolSeq in counted
    ensures |counted| == |st.counted| + n
  {
    counted, n := st.counted, 0;
    for i := 0 to |due|
      invariant AllTallied(st, due, counted)
      invariant forall j :: 0 <= j < i && !GapOf(st, due[j].spoolSeq) ==> due[j].spoolSeq in counted
      invariant |counted| == |st.counted| + n
    {
      var e := due[i];
      if !GapOf(st, e.spoolSeq) && e.spoolSeq !in counted {
        ghost var before := counted;
        counted := counted[e.spoolSeq := e.stableId];
        n := n + 1;
        forall s ensures Tallied(st, due, counted, s) { assert Tallied(st, due, before, s); assert e in due; }
      }
    }
  }

  /** The numbers of the queue whose records are past their deadline. */
  ghost function DueNow(v: map<nat, Item>, now: int): set<nat> {
    set s | s in v && v[s].Record? && v[s].stored.expiresAt < now
  }

  lemma EntryFacts(st: State, w: World, e: Entry)
    requires EntriesAgree(st, w) && GapsAgree(st, w.disk) && IsEntry(st, e)
    ensures e.spoolSeq in w.disk.pending && e.spoolSeq in w.hist.admitted
    ensures e == EntryOf(e.spoolSeq, w.hist.admitted[e.spoolSeq], w.disk.pending[e.spoolSeq].bytes)
    ensures GapOf(st, e.spoolSeq) <==> e.spoolSeq in w.disk.gaps
  {
    assert EntryOnDisk(st, w, e.recordId) && HasGap(st, w.disk, e.spoolSeq);
    if GapOf(st, e.spoolSeq) {
      var id :| id in st.gaps && st.gaps[id].spoolSeq == e.spoolSeq;
      assert GapOnDisk(st, w.disk, id);
    }
  }

  /** The sequence state with the tally and `n` more expiries. */
  function TallyState(st: State, counted: map<nat, RecordId>, n: nat): SequenceState {
    SequenceState(st.next, st.expiredRecords + n, counted, st.v1Pruned)
  }

  /** What a tally says about one number: it may be written, and the number is counted for the first
      time exactly if it is new in the tally and, undamaged, exactly if its record is due. */
  ghost predicate CountsRight(w: World, st: State, now: int, counted: map<nat, RecordId>, n: nat, s: nat) {
    var state := TallyState(st, counted, n);
    && MayCount(w, state, s)
    && (s in NewlyCounted(w.disk, state) <==> s in counted && s !in st.counted)
    && (!w.hist.damaged ==> (s in NewlyCounted(w.disk, state) <==> s in DueNow(View(w.disk), now)))
  }

  /** The number was found in the entries, or is not pending. */
  lemma NewlyTallied(st: State, w: World, due: seq<Entry>, counted: map<nat, RecordId>, s: nat)
    requires EntriesAgree(st, w) && GapsAgree(st, w.disk) && AllSettled(w) && (forall e :: e in due ==> IsEntry(st, e))
    requires Tallied(st, due, counted, s) && s in counted && s !in st.counted
    ensures s in w.disk.pending && s in w.hist.admitted && counted[s] == StableOf(w.hist.admitted[s])
    ensures s !in w.disk.gaps && !Accepted(w.disk.receipts, s)
    ensures exists e :: e in due && e.spoolSeq == s
  {
    var e :| e in due && e.spoolSeq == s && counted[s] == e.stableId;
    EntryFacts(st, w, e);
    assert Settled(w, s);
  }

  /** An uncounted record of the queue is in the queue as itself. */
  lemma UncountedItem(st: State, w: World, s: nat)
    requires Steady(st, w) && Fate(w, s) && !w.hist.damaged && s in w.disk.pending
    ensures s in w.hist.admitted && s in View(w.disk)
    ensures IsEntry(st, EntryOf(s, w.hist.admitted[s], w.disk.pending[s].bytes))
    ensures View(w.disk)[s].Record? <==> s !in w.disk.gaps && s !in st.counted
    ensures View(w.disk)[s].Record? ==> View(w.disk)[s].stored == w.hist.admitted[s]
  {
    assert HasEntry(st, w, s) && Settled(w, s);
  }

  lemma DueIsTallied(st: State, w: World, now: int, due: seq<Entry>, counted: map<nat, RecordId>, s: nat)
    requires Steady(st, w) && Fate(w, s) && !w.hist.damaged
    requires forall e :: e in due <==> IsEntry(st, e) && Due(st, now, e)
    requires forall e :: e in due && !GapOf(st, e.spoolSeq) ==> e.spoolSeq in counted
    ensures s in DueNow(View(w.disk), now) ==> s in counted && s !in st.counted
  {
    if s in DueNow(View(w.disk), now) {
      UncountedItem(st, w, s);
      EntryFacts(st, w, EntryOf(s, w.hist.admitted[s], w.disk.pending[s].bytes));
    }
  }

  lemma TalliedIsDue(st: State, w: World, now: int, due: seq<Entry>, s: nat)
    requires Steady(st, w) && Fate(w, s) && !w.hist.damaged
    requires forall e :: e in due <==> IsEntry(st, e) && Due(st, now, e)
    requires s in w.disk.pending && s !in w.disk.gaps && s !in st.counted && exists e :: e in due && e.spoolSeq == s
    ensures s in DueNow(View(w.disk), now)
  {
    UncountedItem(st, w, s);
    var e :| e in due && e.spoolSeq == s;
    EntryFacts(st, w, e);
  }

  lemma CountAllowed(st: State, w: World, now: int, due: seq<Entry>, counted: map<nat, RecordId>, n: nat, s: nat)
    requires Steady(st, w) && Fate(w, s)
    requires forall e :: e in due <==> IsEntry(st, e) && Due(st, now, e)
    requires Tallied(st, due, counted, s)
    requires forall e :: e in due && !GapOf(st, e.spoolSeq) ==> e.spoolSeq in counted
    ensures CountsRight(w, st, now, counted, n, s)
  {
    assert Lags(st, w.disk, s);
    if s in counted && s !in st.counted {
      NewlyTallied(st, w, due, counted, s);
      if !w.hist.damaged { TalliedIsDue(st, w, now, due, s); }
    }
    if !w.hist.damaged { DueIsTallied(st, w, now, due, counted, s); }
  }

  ghost predicate IsTally(st: State, now: int, due: seq<Entry>, counted: map<nat, RecordId>, n: nat) {
    && (forall e :: e in due <==> IsEntry(st, e) && Due(st, now, e))
    && AllTallied(st, due, counted)
    && (forall e :: e in due && !GapOf(st, e.spoolSeq) ==> e.spoolSeq in counted)
    && |counted| == |st.counted| + n
  }

  /** The counting write of a tally is allowed, its total fits and it counts exactly the due records. */
  lemma TallyAllowed(cfg: Config, run: Run, st: State, now: int, due: seq<Entry>, counted: map<nat, RecordId>, n: nat)
    requires Legal(cfg, run) && Steady(st, End(run)) && IsTally(st, now, due, counted, n)
    ensures MayWriteSequence(End(run), TallyState(st, counted, n)) && TallyState(st, counted, n).expiredTotal <= U64_MAX
    ensures |NewlyCounted(End(run).disk, TallyState(st, counted, n))| == n
    ensures !End(run).hist.damaged ==>
              NewlyCounted(End(run).disk, TallyState(st, counted, n)) == DueNow(View(End(run).disk), now)
  {
    forall s
      ensures CountsRight(End(run), st, now, counted, n, s)
    {
      FateAt(cfg, run, s);
      assert Tallied(st, due, counted, s);
      CountAllowed(st, End(run), now, due, counted, n, s);
    }
    TallySize(st, due, counted, n);
    TallyWritten(End(run), st, now, counted, n);
    ExpiryFits(cfg, run, TallyState(st, counted, n));
  }

  ghost predicate AllCountRight(w: World, st: State, now: int, counted: map<nat, RecordId>, n: nat) {
    forall s {:trigger CountsRight(w, st, now, counted, n, s)} :: CountsRight(w, st, now, counted, n, s)
  }

  lemma TallyWritten(w: World, st: State, now: int, counted: map<nat, RecordId>, n: nat)
    requires AllCountRight(w, st, now, counted, n) && |counted.Keys - st.counted.Keys| == n && Lagging(st, w)
    ensures MayWriteSequence(w, TallyState(st, counted, n)) && |NewlyCounted(w.disk, TallyState(st, counted, n))| == n
    ensures !w.hist.damaged ==> NewlyCounted(w.disk, TallyState(st, counted, n)) == DueNow(View(w.disk), now)
  {
    forall s ensures MayCount(w, TallyState(st, counted, n), s) { assert CountsRight(w, st, now, counted, n, s); }
    NewlyIsTally(w, st, now, counted, n);
    if !w.hist.damaged { NewlyIsDue(w, st, now, counted, n); }
  }

  lemma NewlyIsTally(w: World, st: State, now: int, counted: map<nat, RecordId>, n: nat)
    requires AllCountRight(w, st, now, counted, n)
    ensures NewlyCounted(w.disk, TallyState(st, counted, n)) == counted.Keys - st.counted.Keys
  {
    forall s
      ensures s in NewlyCounted(w.disk, TallyState(st, counted, n)) <==> s in counted.Keys - st.counted.Keys
    {
      assert CountsRight(w, st, now, counted, n, s);
    }
  }

  lemma NewlyIsDue(w: World, st: State, now: int, counted: map<nat, RecordId>, n: nat)
    requires AllCountRight(w, st, now, counted, n) && !w.hist.damaged
    ensures NewlyCounted(w.disk, TallyState(st, counted, n)) == DueNow(View(w.disk), now)
  {
    forall s
      ensures s in NewlyCounted(w.disk, TallyState(st, counted, n)) <==> s in DueNow(View(w.disk), now)
    {
      assert CountsRight(w, st, now, counted, n, s);
    }
  }

  lemma TallySize(st: State, due: seq<Entry>, counted: map<nat, RecordId>, n: nat)
    requires AllTallied(st, due, counted)
    requires |counted| == |st.counted| + n
    ensures |counted.Keys - st.counted.Keys| == n
  {
    forall s | s in st.counted ensures s in counted { assert Tallied(st, due, counted, s); }
    DifferenceSize(st.counted.Keys, counted.Keys);
    KeysSize(counted);
    KeysSize(st.counted);
  }

  lemma ExpiryFits(cfg: Config, run: Run, state: SequenceState)
    requires Legal(cfg, run) && MayWriteSequence(End(run), state)
    ensures state.expiredTotal <= U64_MAX
  {
    var w := End(run);
    LegalKeeps(cfg, run, |run.steps|);
    SequenceKeeps(cfg, w, state);
    var w' := Apply(w, WriteSequence(state));
    forall s | s in w'.hist.expired ensures 1 <= s <= w'.hist.next { assert Fate(w', s); }
    IntervalSize(w'.hist.expired, w'.hist.next);
    BelowNext(w'.hist.expired, w'.hist.next, cfg, w');
  }

  lemma BelowNext(expired: set<nat>, next: nat, cfg: Config, w: World)
    requires Inv(cfg, w) && expired == w.hist.expired && next == w.hist.next && |expired| <= next
    ensures |expired| <= U64_MAX
  {
  }

  /** What expiring at a time does to the queue: from `before` to `after` it goes in one step from its
      old value to the one with the due records turned into gaps. */
  ghost predicate Expires(before: Run, after: Run, now: int) {
    var v := View(End(before).disk);
    && View(End(after).disk) == Expire(v, DueNow(v, now))
    && Visits(after, |before.steps|, {v, Expire(v, DueNow(v, now))})
  }

  /** Nothing of the history but the expiries changed. */
  ghost predicate OnlyExpired(h: History, h': History) {
    && h'.next == h.next && h'.admitted == h.admitted && h'.acked == h.acked
    && h'.v1Batches == h.v1Batches && h'.v1Used == h.v1Used && h'.damaged == h.damaged
  }

  /** Nothing of the state but counts changed. */
  predicate OnlyCounts(st: State, st': State) {
    SameEntries(st, st') && SameGaps(st, st') && SameReceipts(st, st') && st'.corruptRecords == st.corruptRecords
  }

  /** The counting write, made only if something is new. */
  method WriteTally(store: Store, st: State, state: SequenceState, n: nat, ghost now: int) returns (st': State)
    requires store.Valid() && Steady(st, store.W()) && MayWriteSequence(store.W(), state)
    requires state.next == st.next && state.v1Pruned == st.v1Pruned && state.expiredTotal == st.expiredRecords + n
    requires n == 0 ==> state.counted == st.counted
    requires !store.W().hist.damaged ==>
               NewlyCounted(store.disk, state) == DueNow(View(store.disk), now) && n == |DueNow(View(store.disk), now)|
    modifies store
    ensures store.Valid() && Steady(st', store.W()) && Continues(old(store.run), store.run)
    ensures OnlyCounts(st, st') && st'.counted == state.counted && st'.expiredRecords == state.expiredTotal
    ensures store.disk.gaps == old(store.disk.gaps) && store.disk.pending == old(store.disk.pending)
    ensures OnlyExpired(old(store.W()).hist, store.W().hist)
    ensures !store.W().hist.damaged ==> Expires(old(store.run), store.run, now)
  {
    ghost var w := store.W();
    if n == 0 {
      if !w.hist.damaged { NothingExpires(store.run, now); }
      return st;
    }
    st' := st.(expiredRecords := state.expiredTotal, counted := state.counted);
    if !w.hist.damaged { CountExpires(store.cfg, store.run, state, now); }
    SteadyAfterCount(st, w, st', Apply(w, WriteSequence(state)), state);
    store.Perform(WriteSequence(state));
  }

  /** The counts to write, and how many of them are new. */
  method Tally(store: Store, st: State, now: int, due: seq<Entry>) returns (counted: map<nat, RecordId>, n: nat)
    requires store.Valid() && Steady(st, store.W())
    requires forall e :: e in due <==> IsEntry(st, e) && Due(st, now, e)
    ensures MayWriteSequence(store.W(), TallyState(st, counted, n))
    ensures TallyState(st, counted, n).expiredTotal <= U64_MAX
    ensures !store.W().hist.damaged ==>
              NewlyCounted(store.disk, TallyState(st, counted, n)) == DueNow(View(store.disk), now)
                  && n == |DueNow(View(store.disk), now)|
    ensures forall e :: e in due ==> e.spoolSeq in counted || e.spoolSeq in store.disk.gaps
    ensures AllTallied(st, due, counted)
    ensures n == 0 ==> counted == st.counted
  {
    counted, n := CountDue(st, due);
    TallyAllowed(store.cfg, store.run, st, now, due, counted, n);
    CoversDue(st, store.W(), due, counted);
    if n == 0 { NothingToCount(st, due, counted); }
  }

  /** The first half of `expire_due`: one write counts every due record that is not yet counted. From
      this write on the queue holds their gaps. */
  method RecordExpiries(store: Store, st: State, now: int, due: seq<Entry>) returns (n: nat, st': State)
    requires store.Valid() && Steady(st, store.W())
    requires forall e :: e in due <==> IsEntry(st, e) && Due(st, now, e)
    modifies store
    ensures store.Valid() && Steady(st', store.W()) && Continues(old(store.run), store.run)
    ensures OnlyCounts(st, st')
    ensures store.disk.gaps == old(store.disk.gaps) && store.disk.pending == old(store.disk.pending)
    ensures OnlyExpired(old(store.W()).hist, store.W().hist)
    ensures forall e :: e in due ==> e.spoolSeq in st'.counted || e.spoolSeq in store.disk.gaps
    ensures AllTallied(st, due, st'.counted)
    ensures !store.W().hist.damaged ==>
              n == |DueNow(old(View(store.disk)), now)| && Expires(old(store.run), store.run, now)
  {
    var counted;
    counted, n := Tally(store, st, now, due);
    if n > 0 && st.expiredRecords + n > U64_MAX { assert false; }
    st' := WriteTally(store, st, TallyState(st, counted, n), n, now);
  }

  /** The counting write expires exactly what it counts. */
  lemma CountExpires(cfg: Config, run: Run, state: SequenceState, now: int)
    requires Legal(cfg, run) && MayWriteSequence(End(run), state) && !End(run).hist.damaged
    requires NewlyCounted(End(run).disk, state) == DueNow(View(End(run).disk), now)
    ensures Expires(run, Extend(run, WriteSequence(state)), now)
  {
    CountedView(cfg, run, state);
    ExpiresStep(run, WriteSequence(state), now);
  }

  lemma ExpiresStep(run: Run, a: Action, now: int)
    requires var v := View(End(run).disk); View(Apply(End(run), a).disk) == Expire(v, DueNow(v, now))
    ensures Expires(run, Extend(run, a), now)
  {
    var v := View(End(run).disk);
    VisitsStep(run, |run.steps|, {v, Expire(v, DueNow(v, now))}, a);
  }

  lemma CountedView(cfg: Config, run: Run, state: SequenceState)
    requires Legal(cfg, run) && MayWriteSequence(End(run), state) && !End(run).hist.damaged
    ensures View(Apply(End(run), WriteSequence(state)).disk) ==
            Expire(View(End(run).disk), NewlyCounted(End(run).disk, state))
  {
    EndKeeps(cfg, run);
    CountExpiresView(cfg, End(run), state);
  }

  lemma NothingExpires(run: Run, now: int)
    requires |DueNow(View(End(run).disk), now)| == 0
    ensures Expires(run, run, now)
  {
    var v := View(End(run).disk);
    assert DueNow(v, now) == {};
    assert Expire(v, {}) == v;
  }

  lemma NothingToCount(st: State, due: seq<Entry>, counted: map<nat, RecordId>)
    requires AllTallied(st, due, counted)
    requires |counted| == |st.counted|
    ensures counted == st.counted
  {
    TallySize(st, due, counted, 0);
    assert counted.Keys - st.counted.Keys == {};
    forall s
      ensures s in counted <==> s in st.counted
      ensures s in counted ==> counted[s] == st.counted[s]
    {
      assert Tallied(st, due, counted, s);
      assert s !in counted.Keys - st.counted.Keys;
    }
  }

  lemma CoversDue(st: State, w: World, due: seq<Entry>, counted: map<nat, RecordId>)
    requires EntriesAgree(st, w) && GapsAgree(st, w.disk) && (forall e :: e in due ==> IsEntry(st, e))
    requires forall e :: e in due && !GapOf(st, e.spoolSeq) ==> e.spoolSeq in counted
    ensures forall e :: e in due ==> e.spoolSeq in counted || e.spoolSeq in w.disk.gaps
  {
    forall e | e in due ensures e.spoolSeq in counted || e.spoolSeq in w.disk.gaps { EntryFacts(st, w, e); }
  }

  lemma SteadyAfterCount(st: State, w: World, st': State, w': World, state: SequenceState)
    requires Steady(st, w) && MayWriteSequence(w, state)
    requires w'.disk == w.disk.(sequence := Some(state)) && w'.hist == w.hist.(expired := w'.hist.expired)
    requires state.next == st.next && state.v1Pruned == st.v1Pruned
    requires st' == st.(expiredRecords := state.expiredTotal, counted := state.counted)
    ensures Steady(st', w')
  {
    EntriesUntouched(st, st', w, w');
    GapsUntouched(st, st', w.disk, w'.disk);
    ReceiptsUntouched(st, st', w.disk, w'.disk);
    SyncedIsLagging(st', w');
    forall s ensures Settled(w', s) { assert Settled(w, s); }
    if !w'.hist.damaged {
      forall s | s in st'.counted ensures s in w.disk.pending { assert MayCount(w, state, s); }
    }
  }

  /** What the second half keeps between two entries: everything but a sequence state that lags. */
  ghost predicate Loose(st: State, w: World) {
    && Cached(st, w) && Lagging(st, w) && AllSettled(w) && Tidy(st, w)
    && w.disk.sequence.Some? && Ledger(w.disk).next == st.next
  }

  /** An entry still to be turned into a gap file. */
  ghost predicate Waiting(st: State, w: World, e: Entry) {
    IsEntry(st, e) && (e.spoolSeq in st.counted || e.spoolSeq in w.disk.gaps)
  }

  lemma WaitingMayGap(cfg: Config, run: Run, st: State, e: Entry)
    requires Legal(cfg, run) && Loose(st, End(run)) && Waiting(st, End(run), e)
    ensures e.spoolSeq in End(run).hist.admitted
    ensures AdmissionFor(e) == AdmissionOf(e.spoolSeq, End(run).hist.admitted[e.spoolSeq])
    ensures e.spoolSeq !in End(run).disk.gaps ==> MayGap(End(run), ExpiryNotice(e))
    ensures End(run).hist.damaged || e.spoolSeq !in End(run).disk.gaps
    ensures forall id :: id in st.entries && st.entries[id].spoolSeq == e.spoolSeq ==>
            st.entries[id].recordId == e.recordId
  {
    var w := End(run);
    EntryFacts(st, w, e);
    FateAt(cfg, run, e.spoolSeq);
    assert Settled(w, e.spoolSeq) && Lags(st, w.disk, e.spoolSeq);
    forall id | id in st.entries && st.entries[id].spoolSeq == e.spoolSeq
      ensures st.entries[id].recordId == e.recordId
    {
      assert EntryOnDisk(st, w, id);
      EntryNumbersDiffer(st, w, id, e.recordId);
    }
  }

  /** An expired entry keeps its pending file only if its gap does not fit. */
  ghost predicate Full(cfg: Config, st: State, id: RecordId) {
    id in st.entries && st.entries[id].spoolSeq in st.counted ==>
        st.gapBytes + GapBytes(ExpiryNotice(st.entries[id])) > cfg.maxBytes
  }

  /** Expiries are deferred only for lack of gap storage. */
  ghost predicate OnlyWhenFull(cfg: Config, st: State) {
    forall id {:trigger Full(cfg, st, id)} :: Full(cfg, st, id)
  }

  /** The same, except for the entries still ahead. */
  ghost predicate FullOrAhead(cfg: Config, st: State, due: seq<Entry>, i: nat, id: RecordId) {
    Full(cfg, st, id) || exists j :: i <= j < |due| && due[j].recordId == id
  }

  ghost predicate FullBehind(cfg: Config, st: State, due: seq<Entry>, i: nat) {
    forall id {:trigger FullOrAhead(cfg, st, due, i, id)} :: FullOrAhead(cfg, st, due, i, id)
  }

  /** Nothing but the entry went, and gap storage did not shrink. */
  ghost predicate Gone(st: State, st': State, e: Entry) {
    && e.recordId !in st'.entries && st.gapBytes <= st'.gapBytes && st'.counted.Keys <= st.counted.Keys
    && forall id :: id in st'.entries ==> id in st.entries && st'.entries[id] == st.entries[id]
  }

  lemma EntryGone(st: State, w: World, st': State, w': World, e: Entry)
    requires EntriesAgree(st, w) && EntriesAgree(st', w') && w'.hist == w.hist && IsEntry(st, e)
    requires w'.disk.pending == w.disk.pending - {e.spoolSeq} && st'.counted == st.counted - {e.spoolSeq}
    requires st.gapBytes <= st'.gapBytes
    ensures Gone(st, st', e)
  {
    assert EntryOnDisk(st, w, e.recordId) && EntryOnDisk(st', w', e.recordId);
    forall id | id in st'.entries
      ensures id in st.entries && st'.entries[id] == st.entries[id]
    {
      assert EntryOnDisk(st', w', id);
      assert HasEntry(st, w, st'.entries[id].spoolSeq);
    }
  }

  lemma BehindAfterRemoval(cfg: Config, st: State, st': State, due: seq<Entry>, i: nat)
    requires i < |due| && FullBehind(cfg, st, due, i) && Gone(st, st', due[i])
    ensures FullBehind(cfg, st', due, i + 1)
  {
    var next := i + 1;
    forall id ensures FullOrAhead(cfg, st', due, next, id) { assert FullOrAhead(cfg, st, due, i, id); }
  }

  lemma BehindAfterDeferral(cfg: Config, st: State, due: seq<Entry>, i: nat)
    requires i < |due| && FullBehind(cfg, st, due, i) && Full(cfg, st, due[i].recordId)
    ensures FullBehind(cfg, st, due, i + 1)
  {
    var next := i + 1;
    forall id ensures FullOrAhead(cfg, st, due, next, id) { assert FullOrAhead(cfg, st, due, i, id); }
  }

  lemma AllBehind(cfg: Config, st: State, due: seq<Entry>)
    requires FullBehind(cfg, st, due, |due|)
    ensures OnlyWhenFull(cfg, st)
  {
    forall id ensures Full(cfg, st, id) { assert FullOrAhead(cfg, st, due, |due|, id); }
  }

  lemma AllAhead(cfg: Config, st: State, st': State, due: seq<Entry>, now: int, w: World)
    requires EntriesAgree(st, w) && (forall e :: e in due <==> IsEntry(st, e) && Due(st, now, e))
    requires st'.entries == st.entries
    requires AllTallied(st, due, st'.counted)
    ensures FullBehind(cfg, st', due, 0)
  {
    forall id
      ensures FullOrAhead(cfg, st', due, 0, id)
    {
      if id in st'.entries && st'.entries[id].spoolSeq in st'.counted {
        var e := st.entries[id];
        assert EntryOnDisk(st, w, id);
        if e.spoolSeq !in st.counted {
          assert Tallied(st, due, st'.counted, e.spoolSeq);
          var f :| f in due && f.spoolSeq == e.spoolSeq;
          EntryNumbersDiffer(st, w, f.recordId, id);
        }
        assert e in due;
        var j :| 0 <= j < |due| && due[j] == e;
      }
    }
  }

  lemma FullSame(cfg: Config, st: State, st': State)
    requires OnlyWhenFull(cfg, st) && SameEntries(st, st') && SameGaps(st, st') && st'.counted == st.counted
    ensures OnlyWhenFull(cfg, st')
  {
    forall id ensures Full(cfg, st', id) { assert Full(cfg, st, id); }
  }

  /** One entry of the second half: its gap file is written and its pending file removed, or nothing
      happens because gap storage is full. */
  method Materialise(store: Store, st: State, e: Entry) returns (r: Result<bool>, st': State)
    requires store.Valid() && Loose(st, store.W()) && Waiting(st, store.W(), e)
    modifies store
    ensures store.Valid() && Loose(st', store.W()) && Kept(old(store.run), store.run)
    ensures r.Err? ==> store.W().hist.damaged
    ensures r.Ok? && !r.value ==> st' == st && store.disk == old(store.disk) && Full(store.cfg, st, e.recordId)
    ensures r.Ok? && r.value ==> Gone(st, st', e)
    ensures forall f {:trigger Waiting(st', store.W(), f)} ::
              Waiting(st, old(store.W()), f) && f.recordId != e.recordId ==> Waiting(st', store.W(), f)
  {
    ghost var w := store.W();
    var written, sm := PersistWaiting(store, st, e);
    if written.Err? {
      LooseSame(st, w, store.W());
      return (if written.error.CapacityExceeded? then Ok(false) else Err(written.error)), st;
    }
    ghost var mid := store.run;
    st' := RemoveAdmitted(store, sm, AdmissionFor(e));
    KeptTwice(old(store.run), mid, store.run);
    LooseAfter(st, w, st', store.W(), e);
    r := Ok(true);
    EntryGone(st, w, st', store.W(), e);
    StillWaiting(st, w, st', store.W(), e);
  }

  /** `persist_gap_locked` for an expired entry. */
  method PersistWaiting(store: Store, st: State, e: Entry) returns (r: Result<bool>, st': State)
    requires store.Valid() && Loose(st, store.W()) && Waiting(st, store.W(), e)
    modifies store
    ensures store.Valid() && Kept(old(store.run), store.run) && Cached(st', store.W()) && Lagging(st', store.W())
    ensures r.Err? ==>
              st' == st && store.disk == old(store.disk) && (r.error.CapacityExceeded? || store.W().hist.damaged)
    ensures r.Err? && r.error.CapacityExceeded? ==> Full(store.cfg, st, e.recordId)
    ensures SameTotals(st, st') && SameEntries(st, st') && st'.counted == st.counted && st.gapBytes <= st'.gapBytes
    ensures store.disk == old(store.disk).(gaps := store.disk.gaps)
    ensures r.Ok? ==> store.disk.gaps.Keys == old(store.disk.gaps.Keys) + {e.spoolSeq}
    ensures e.spoolSeq in store.disk.pending && e.spoolSeq in store.W().hist.admitted
    ensures AdmissionFor(e) == AdmissionOf(e.spoolSeq, store.W().hist.admitted[e.spoolSeq])
  {
    ghost var w := store.W();
    WaitingMayGap(store.cfg, store.run, st, e);
    EntryFacts(st, w, e);
    r, st' := PersistGap(store, st, e, e.expiresAt, RetentionExpired);
    if r.Ok? { GapKeys(w.disk, store.disk, e.spoolSeq); }
    CachedAfterGap(st, w, st', store.W());
  }

  lemma LooseSame(st: State, w: World, w': World)
    requires Loose(st, w) && w'.disk == w.disk && w'.hist == w.hist
    ensures Loose(st, w')
  {
  }

  lemma CachedAfterGap(st: State, w: World, st': State, w': World)
    requires Cached(st, w) && Lagging(st, w) && GapsAgree(st', w'.disk) && w'.hist == w.hist
    requires SameTotals(st, st') && SameEntries(st, st') && st'.counted == st.counted
    requires w'.disk == w.disk.(gaps := w'.disk.gaps)
    ensures Cached(st', w') && Lagging(st', w')
  {
    EntriesUntouched(st, st', w, w');
    ReceiptsUntouched(st, st', w.disk, w'.disk);
    forall s ensures Lags(st', w'.disk, s) { assert Lags(st, w.disk, s); }
  }

  lemma GapKeys(d: Disk, d': Disk, s: nat)
    requires if s in d.gaps then d' == d else exists n :: d' == ApplyDisk(d, WriteGap(s, n))
    ensures d'.gaps.Keys == d.gaps.Keys + {s} && d' == d.(gaps := d'.gaps)
  {
  }

  lemma LooseAfter(st: State, w: World, st': State, w': World, e: Entry)
    requires Loose(st, w) && w'.hist == w.hist && Cached(st', w') && Lagging(st', w')
    requires w'.disk == w.disk.(pending := w.disk.pending - {e.spoolSeq}, gaps := w'.disk.gaps)
    requires w'.disk.gaps.Keys == w.disk.gaps.Keys + {e.spoolSeq} && e.spoolSeq in w.disk.pending
    requires st'.counted == st.counted - {e.spoolSeq} && st'.next == st.next
    ensures Loose(st', w')
  {
    assert Settled(w, e.spoolSeq);
    forall s ensures Settled(w', s) { assert Settled(w, s); }
    TidyAfterExpiry(st, w, st', w', e.spoolSeq);
  }

  lemma TidyAfterExpiry(st: State, w: World, st': State, w': World, s: nat)
    requires Tidy(st, w) && w'.hist == w.hist && w'.disk.pending == w.disk.pending - {s}
    requires w'.disk.gaps.Keys == w.disk.gaps.Keys + {s} && st'.counted == st.counted - {s}
    ensures Tidy(st', w')
  {
  }

  lemma StillWaiting(st: State, w: World, st': State, w': World, e: Entry)
    requires EntriesAgree(st, w) && EntriesAgree(st', w') && w'.hist == w.hist && IsEntry(st, e)
    requires w'.disk == w.disk.(pending := w.disk.pending - {e.spoolSeq}, gaps := w'.disk.gaps)
    requires w.disk.gaps.Keys <= w'.disk.gaps.Keys && st'.counted == st.counted - {e.spoolSeq}
    ensures forall f {:trigger Waiting(st', w', f)} :: Waiting(st, w, f) && f.recordId != e.recordId ==>
            Waiting(st', w', f)
  {
    forall f | Waiting(st, w, f) && f.recordId != e.recordId
      ensures Waiting(st', w', f)
    {
      assert EntryOnDisk(st, w, f.recordId) && EntryOnDisk(st, w, e.recordId);
      assert HasEntry(st', w', f.spoolSeq);
    }
  }

  /** The second half of `expire_due`: turns the waiting entries into gap files, in sequence order, as
      far as gap storage allows. */
  method MaterialiseAll(store: Store, st: State, due: seq<Entry>) returns (r: Result<bool>, st': State)
    requires store.Valid() && Loose(st, store.W())
    requires forall e :: e in due ==> Waiting(st, store.W(), e)
    requires forall i, j :: 0 <= i < j < |due| ==> due[i].recordId != due[j].recordId
    requires FullBehind(store.cfg, st, due, 0)
    modifies store
    ensures store.Valid() && Loose(st', store.W()) && Kept(old(store.run), store.run)
    ensures r.Err? ==> store.W().hist.damaged
    ensures r.Ok? ==> OnlyWhenFull(store.cfg, st')
    ensures r.Ok? && !r.value ==> st' == st && store.disk == old(store.disk)
  {
    KeptSame(store.run);
    st' := st;
    var removed := false;
    for i := 0 to |due|
      invariant store.Valid() && Loose(st', store.W()) && Kept(old(store.run), store.run)
      invariant forall j :: i <= j < |due| ==> Waiting(st', store.W(), due[j])
      invariant !removed ==> st' == st && store.disk == old(store.disk)
      invariant FullBehind(store.cfg, st', due, i)
    {
      ghost var mid, sm := store.run, st';
      var done;
      done, st' := Materialise(store, st', due[i]);
      KeptTwice(old(store.run), mid, store.run);
      if done.Err? { return done, st'; }
      if done.value { BehindAfterRemoval(store.cfg, sm, st', due, i); }
          else { BehindAfterDeferral(store.cfg, sm, due, i); }
      removed := removed || done.value;
    }
    AllBehind(store.cfg, st', due);
    r := Ok(removed);
  }

  lemma DueWaits(st: State, w: World, st': State, w': World, due: seq<Entry>)
    requires EntriesAgree(st, w) && st'.entries == st.entries && (forall e :: e in due ==> IsEntry(st, e))
    requires forall e :: e in due ==> e.spoolSeq in st'.counted || e.spoolSeq in w'.disk.gaps
    requires forall i, j :: 0 <= i < j < |due| ==> due[i].spoolSeq < due[j].spoolSeq
    ensures forall e :: e in due ==> Waiting(st', w', e)
    ensures forall i, j :: 0 <= i < j < |due| ==> due[i].recordId != due[j].recordId
  {
    forall i, j | 0 <= i < j < |due|
      ensures due[i].recordId != due[j].recordId
    {
      assert due[i] in due && due[j] in due;
    }
  }

  lemma ExpiresThenKeeps(a: Run, b: Run, c: Run, now: int)
    requires Continues(a, b) && Expires(a, b, now) && Kept(b, c) && !End(b).hist.damaged
    ensures Expires(a, c, now)
  {
    var v := View(End(a).disk);
    VisitsWider(c, |b.steps|, {View(End(b).disk)}, {v, Expire(v, DueNow(v, now))});
    VisitsJoin(b, c, |a.steps|, {v, Expire(v, DueNow(v, now))});
  }

  /** `expire_due`: undamaged it always succeeds, returns how many records of the queue were due and
      turns exactly these into their gaps; wherever it stops, the queue is the old or the new one. A gap
      stays without a file of its own only if gap storage has no room for it. */
  method ExpireDue(store: Store, st: State, now: int) returns (r: Result<nat>, st': State)
    requires store.Valid() && Steady(st, store.W())
    modifies store
    ensures store.Valid() && Steady(st', store.W()) && Continues(old(store.run), store.run)
    ensures OnlyExpired(old(store.W()).hist, store.W().hist)
    ensures r.Ok? ==> OnlyWhenFull(store.cfg, st')
    ensures !store.W().hist.damaged ==>
              r == Ok(|DueNow(old(View(store.disk)), now)|) && Expires(old(store.run), store.run, now)
  {
    ghost var w := store.W();
    var due := DueEntries(st, now, store.W());
    var n, st1 := RecordExpiries(store, st, now, due);
    DueWaits(st, w, st1, store.W(), due);
    AllAhead(store.cfg, st, st1, due, now, w);
    ghost var mid := store.run;
    var done;
    done, st' := SettleExpired(store, st1, due);
    if !store.W().hist.damaged { ExpiresThenKeeps(old(store.run), mid, store.run, now); }
    r := if done.Err? then Err(done.error) else Ok(n);
  }

  /** The second half with its closing write, made only if a file was removed. */
  method SettleExpired(store: Store, st: State, due: seq<Entry>) returns (r: Result<bool>, st': State)
    requires store.Valid() && Steady(st, store.W())
    requires forall e :: e in due ==> Waiting(st, store.W(), e)
    requires forall i, j :: 0 <= i < j < |due| ==> due[i].recordId != due[j].recordId
    requires FullBehind(store.cfg, st, due, 0)
    modifies store
    ensures store.Valid() && Steady(st', store.W()) && Kept(old(store.run), store.run)
    ensures r.Err? ==> store.W().hist.damaged
    ensures r.Ok? ==> OnlyWhenFull(store.cfg, st')
  {
    ghost var w := store.W();
    r, st' := MaterialiseAll(store, st, due);
    ghost var mid := store.run;
    if r.Err? || !r.value {
      SteadyUnlessSynced(st, w, st', store.W(), r.Ok?);
      return;
    }
    Persist(store, st');
    SteadyPersisted(st', End(mid), store.W());
    KeptTwice(old(store.run), mid, store.run);
  }

  lemma SteadyUnlessSynced(st: State, w: World, st': State, w': World, same: bool)
    requires Steady(st, w) && Loose(st', w') && w'.hist == w.hist
    requires if same then st' == st && w'.disk == w.disk else w.hist.damaged
    ensures Steady(st', w')
  {
  }
}
