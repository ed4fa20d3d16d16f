/** The spool directory as a mutable object, and the operations that work on it step by step. */
module Machine {
  import opened Finite
  import opened Wire
  import opened Limits
  import opened Durable
  import opened Invariant
  import opened Safety
  import opened Cache

  // ---------------------------------------------------------------------------
  // The directory
  // ---------------------------------------------------------------------------

  /** A spool directory. It outlives every process that opens it: a crash drops the process and
      leaves the directory as the steps so far made it. */
  class Store {
    const cfg: Config
    var disk: Disk
    ghost var run: Run

    ghost predicate Valid()
      reads this
    {
      Configured(cfg) && Legal(cfg, run) && End(run).disk == disk
    }

    ghost function W(): World
      reads this
    {
      End(run)
    }

    constructor (cfg: Config)
      requires Configured(cfg)
      ensures Valid() && this.cfg == cfg && run == Trace([FRESH], [])
    {
      this.cfg := cfg;
      this.disk := EMPTY_DISK;
      this.run := Trace([FRESH], []);
    }

    /** One durable step, allowed by the protocol. */
    method Perform(a: Action)
      requires Valid() && Enabled(cfg, W(), a) && Admits(cfg, a)
      modifies this
      ensures Valid() && run == Extend(old(run), a)
      ensures W() == Apply(old(W()), a) && disk == ApplyDisk(old(disk), a)
    {
      LegalStep(cfg, run, a);
      disk := ApplyDisk(disk, a);
      run := Extend(run, a);
    }
  }

  // ---------------------------------------------------------------------------
  // The queues a stretch of a run passes through
  // ---------------------------------------------------------------------------

  ghost function ViewAt(run: Run, i: nat): map<nat, Item>
    requires i <= |run.steps|
  {
    View(run.worlds[i].disk)
  }

  /** Wherever a stop cuts the run from world `from` on, the queue on disk is one of `views`. */
  ghost predicate Visits(run: Run, from: nat, views: set<map<nat, Item>>) {
    forall i {:trigger ViewAt(run, i)} :: from <= i <= |run.steps| ==> ViewAt(run, i) in views
  }

  lemma VisitsStep(run: Run, from: nat, views: set<map<nat, Item>>, a: Action)
    requires Visits(run, from, views) && View(Apply(End(run), a).disk) in views
    ensures Visits(Extend(run, a), from, views)
  {
    var more := Extend(run, a);
    forall i | from <= i <= |more.steps|
      ensures ViewAt(more, i) in views
    {
      if i <= |run.steps| { assert ViewAt(run, i) in views; }
    }
  }

  lemma VisitsWider(run: Run, from: nat, views: set<map<nat, Item>>, more: set<map<nat, Item>>)
    requires Visits(run, from, views) && views <= more
    ensures Visits(run, from, more)
  {
    forall i | from <= i <= |run.steps| ensures ViewAt(run, i) in more { assert ViewAt(run, i) in views; }
  }

  lemma VisitsJoin(run: Run, longer: Run, from: nat, views: set<map<nat, Item>>)
    requires Continues(run, longer) && Visits(run, from, views) && Visits(longer, |run.steps|, views)
    ensures Visits(longer, from, views)
  {
    forall i | from <= i <= |longer.steps|
      ensures ViewAt(longer, i) in views
    {
      if i <= |run.steps| { assert ViewAt(run, i) in views; }
    }
  }

  /** A stretch of steps leaves the history and the queue as they were. */
  ghost predicate Unmoved(before: Run, after: Run) {
    && Continues(before, after) && End(after).hist == End(before).hist
    && View(End(after).disk) == View(End(before).disk)
    && Visits(after, |before.steps|, {View(End(before).disk)})
  }

  lemma UnmovedSame(run: Run)
    ensures Unmoved(run, run)
  {
  }

  lemma UnmovedTwice(a: Run, b: Run, c: Run)
    requires Unmoved(a, b) && Unmoved(b, c)
    ensures Unmoved(a, c)
  {
    VisitsJoin(b, c, |a.steps|, {View(End(a).disk)});
  }

  /** A stretch that may turn damaged records into their gaps: it leaves the history as it was and,
      undamaged, the queue. */
  ghost predicate Kept(before: Run, after: Run) {
    && Continues(before, after) && End(after).hist == End(before).hist
    && (!End(before).hist.damaged ==> Unmoved(before, after))
  }

  lemma KeptSame(run: Run)
    ensures Kept(run, run)
  {
    UnmovedSame(run);
  }

  lemma KeptTwice(a: Run, b: Run, c: Run)
    requires Kept(a, b) && (Kept(b, c) || Unmoved(b, c))
    ensures Kept(a, c)
  {
    if !End(a).hist.damaged { UnmovedTwice(a, b, c); }
  }

  lemma KeptStep(cfg: Config, run: Run, a: Action)
    requires Legal(cfg, run) && Enabled(cfg, End(run), a) && Housekeeping(End(run).disk, a)
    requires a.WriteGap? ==> !End(run).hist.damaged
    ensures Unmoved(run, Extend(run, a))
  {
    KeepsView(cfg, run, a);
    ExtendKeeps(run, a);
  }

  lemma ExtendKeeps(run: Run, a: Action)
    requires Apply(End(run), a).hist == End(run).hist
    requires View(Apply(End(run), a).disk) == View(End(run).disk)
    ensures Unmoved(run, Extend(run, a))
  {
    VisitsStep(run, |run.steps|, {View(End(run).disk)}, a);
  }

  lemma KeepsView(cfg: Config, run: Run, a: Action)
    requires Legal(cfg, run) && Enabled(cfg, End(run), a) && Housekeeping(End(run).disk, a)
    requires a.WriteGap? ==> !End(run).hist.damaged
    ensures Apply(End(run), a).hist == End(run).hist
    ensures View(Apply(End(run), a).disk) == View(End(run).disk)
  {
    EndKeeps(cfg, run);
    HousekeepingKeepsView(cfg, End(run), a);
    if a.WriteSequence? { NothingExpired(End(run), a.state); }
  }

  lemma NothingExpired(w: World, state: SequenceState)
    requires NewlyCounted(w.disk, state) == {}
    ensures Apply(w, WriteSequence(state)).hist == w.hist
  {
    assert w.hist.expired + {} == w.hist.expired;
  }

  /** Performs a housekeeping step other than a gap write. */
  method Tend(store: Store, a: Action)
    requires store.Valid() && Enabled(store.cfg, store.W(), a) && Housekeeping(store.disk, a) && !a.WriteGap?
    modifies store
    ensures store.Valid() && Unmoved(old(store.run), store.run)
    ensures store.W() == Apply(old(store.W()), a) && store.disk == ApplyDisk(old(store.disk), a)
  {
    KeptStep(store.cfg, store.run, a);
    store.Perform(a);
  }

  /** Writes a gap, of an expired or of a damaged record. */
  method TendGap(store: Store, s: nat, n: GapNotice)
    requires store.Valid() && MayWriteGap(store.cfg, store.W(), s, n)
    modifies store
    ensures store.Valid() && Kept(old(store.run), store.run)
    ensures store.W() == Apply(old(store.W()), WriteGap(s, n))
    ensures store.disk == ApplyDisk(old(store.disk), WriteGap(s, n))
  {
    GapStep(store.cfg, store.run, s, n);
    store.Perform(WriteGap(s, n));
  }

  lemma GapStep(cfg: Config, run: Run, s: nat, n: GapNotice)
    requires Legal(cfg, run) && MayWriteGap(cfg, End(run), s, n)
    ensures Kept(run, Extend(run, WriteGap(s, n)))
  {
    if !End(run).hist.damaged {
      GapIsRetention(cfg, run, s, n);
      KeptStep(cfg, run, WriteGap(s, n));
    }
  }

  /** Undamaged, every gap written is that of an expiry. */
  lemma GapIsRetention(cfg: Config, run: Run, s: nat, n: GapNotice)
    requires Legal(cfg, run) && MayWriteGap(cfg, End(run), s, n) && !End(run).hist.damaged
    ensures n.reason.RetentionExpired?
  {
    FateAt(cfg, run, s);
  }

  /** `ensure_quarantine_capacity` for one more file. */
  predicate QuarantineRoom(cfg: Config, d: Disk, size: nat) {
    d.quarantineFiles + 1 <= cfg.maxRecords && SaturatingAddU64(d.quarantineBytes, size) <= cfg.maxBytes
  }

  // ---------------------------------------------------------------------------
  // Removing what a gap or a receipt stands for
  // ---------------------------------------------------------------------------

  /** The entry an admission names, if the occurrence is still pending. */
  lemma EntryNamed(st: State, w: World, a: Admission)
    requires EntriesAgree(st, w) && Fate(w, a.spoolSeq)
    requires a.spoolSeq in w.hist.admitted && a == AdmissionOf(a.spoolSeq, w.hist.admitted[a.spoolSeq])
    ensures a.spoolSeq in w.disk.pending <==> a.legacyId in st.entries && AdmissionFor(st.entries[a.legacyId]) == a
  {
    assert HasEntry(st, w, a.spoolSeq) && EntryOnDisk(st, w, a.legacyId);
  }

  lemma LagsAfterRemoval(st: State, w: World, st': State, w': World, s: nat)
    requires Lagging(st, w) && w'.hist == w.hist
    requires w'.disk.pending == w.disk.pending - {s} && w'.disk.sequence == w.disk.sequence
    requires st'.counted == st.counted - {s} && st'.next == st.next
    requires st'.expiredRecords == st.expiredRecords && st'.v1Pruned == st.v1Pruned
    ensures Lagging(st', w')
  {
    forall t ensures Lags(st', w'.disk, t) { assert Lags(st, w.disk, t); }
  }

  /** The state without the occurrence and without its count. */
  function Without(st: State, a: Admission): State {
    var rest := if a.spoolSeq in st.counted && st.counted[a.spoolSeq] == a.stableId
                then st.(counted := st.counted - {a.spoolSeq}) else st;
    if a.legacyId in st.entries
        && AdmissionFor(st.entries[a.legacyId]) == a then DropEntry(rest, st.entries[a.legacyId])
    else rest
  }

  lemma WithoutForgets(st: State, w: World, a: Admission)
    requires Lagging(st, w) && Fate(w, a.spoolSeq)
    requires a.spoolSeq in w.hist.admitted && a == AdmissionOf(a.spoolSeq, w.hist.admitted[a.spoolSeq])
    ensures Without(st, a).counted == st.counted - {a.spoolSeq}
  {
    assert Lags(st, w.disk, a.spoolSeq);
  }

  lemma WithoutPresent(st: State, w: World, a: Admission)
    requires EntriesAgree(st, w) && a.legacyId in st.entries && AdmissionFor(st.entries[a.legacyId]) == a
    ensures a.spoolSeq in w.disk.pending
    ensures EntriesAgree(Without(st, a), Apply(w, RemovePending(a.spoolSeq, false)))
  {
    var e, w' := st.entries[a.legacyId], Apply(w, RemovePending(a.spoolSeq, false));
    assert EntryOnDisk(st, w, a.legacyId);
    EntriesAfterRemoval(st, w, e, false);
    EntriesUntouched(DropEntry(st, e), Without(st, a), w', w');
  }

  lemma WithoutAbsent(st: State, w: World, a: Admission)
    requires EntriesAgree(st, w) && !(a.legacyId in st.entries && AdmissionFor(st.entries[a.legacyId]) == a)
    ensures EntriesAgree(Without(st, a), w)
  {
    EntriesUntouched(st, Without(st, a), w, w);
  }

  lemma WithoutRest(st: State, a: Admission)
    ensures SameTotals(st, Without(st, a)) && SameGaps(st, Without(st, a))
  {
  }

  lemma WithoutAgrees(st: State, w: World, s: nat, st': State, w': World)
    requires Cached(st, w) && Lagging(st, w) && EntriesAgree(st', w')
    requires w'.hist == w.hist && w'.disk == w.disk.(pending := w.disk.pending - {s})
    requires SameTotals(st, st') && SameGaps(st, st') && st'.counted == st.counted - {s}
    ensures Cached(st', w') && Lagging(st', w')
  {
    GapsUntouched(st, st', w.disk, w'.disk);
    ReceiptsUntouched(st, st', w.disk, w'.disk);
    LagsAfterRemoval(st, w, st', w', s);
  }

  lemma PendingWithout(d: Disk, s: nat)
    ensures s !in d.pending ==> d.(pending := d.pending - {s}) == d
    ensures ApplyDisk(d, RemovePending(s, false)) == d.(pending := d.pending - {s})
  {
    assert s !in d.pending ==> d.pending - {s} == d.pending;
  }

  /** `remove_admitted_record`: removes the exact occurrence if it is still there and forgets its
      count. */
  method RemoveAdmitted(store: Store, st: State, a: Admission) returns (st': State)
    requires store.Valid() && Cached(st, store.W()) && Lagging(st, store.W())
    requires a.spoolSeq in store.W().hist.admitted && a == AdmissionOf(a.spoolSeq, store.W().hist.admitted[a.spoolSeq])
    requires a.spoolSeq in store.disk.pending ==>
               a.spoolSeq in store.disk.gaps || Accepted(store.disk.receipts, a.spoolSeq)
    modifies store
    ensures store.Valid() && Unmoved(old(store.run), store.run) && Cached(st', store.W()) && Lagging(st', store.W())
    ensures store.disk == old(store.disk).(pending := old(store.disk.pending) - {a.spoolSeq})
    ensures SameTotals(st, st') && SameGaps(st, st') && st'.counted == st.counted - {a.spoolSeq}
  {
    ghost var w := store.W();
    UnmovedSame(store.run);
    FateAt(store.cfg, store.run, a.spoolSeq);
    EntryNamed(st, w, a);
    WithoutForgets(st, w, a);
    PendingWithout(w.disk, a.spoolSeq);
    st' := st;
    if a.spoolSeq in st.counted && st.counted[a.spoolSeq] == a.stableId {
      st' := st'.(counted := st'.counted - {a.spoolSeq});
    }
    if a.legacyId in st.entries && AdmissionFor(st.entries[a.legacyId]) == a {
      WithoutPresent(st, w, a);
      st' := DropEntry(st', st.entries[a.legacyId]);
      Tend(store, RemovePending(a.spoolSeq, false));
    } else {
      WithoutAbsent(st, w, a);
    }
    assert st' == Without(st, a);
    WithoutRest(st, a);
    WithoutAgrees(st, w, a.spoolSeq, st', store.W());
  }

  /** If the number of a notice is still pending, it is counted and the notice is its retention gap. */
  ghost predicate Deferred(st: State, w: World, g: RecordId)
    requires g.NoticeDigest?
  {
    g.spoolSeq in w.disk.pending ==>
      && g.spoolSeq in w.hist.admitted && g.spoolSeq in st.counted
      && g == RetentionNotice(g.spoolSeq, w.hist.admitted[g.spoolSeq]).noticeId
  }

  /** A notice id in a receipt on disk: its number is that of the gap file or of the counted pending
      file, if either is still there. */
  lemma GapNamed(st: State, w: World, n: nat, g: RecordId)
    requires n in w.disk.receipts && g in w.disk.receipts[n].gapIds && Exact(w, n)
    requires GapsAgree(st, w.disk) && Lagging(st, w) && g.NoticeDigest? && Fate(w, g.spoolSeq)
    ensures g in st.gaps <==> g.spoolSeq in w.disk.gaps
    ensures g in st.gaps ==> st.gaps[g].spoolSeq == g.spoolSeq && MayRemoveGap(w, g.spoolSeq)
    ensures Deferred(st, w, g)
  {
    assert HasGap(st, w.disk, g.spoolSeq) && GapOnDisk(st, w.disk, g) && Lags(st, w.disk, g.spoolSeq);
  }

  /** `remove_expired_gap_backing`: removes the counted pending file that stands for a gap. */
  method RemoveExpiredBacking(store: Store, st: State, g: RecordId) returns (st': State)
    requires store.Valid() && Cached(st, store.W()) && Lagging(st, store.W())
    requires g.NoticeDigest? && Accepted(store.disk.receipts, g.spoolSeq) && Deferred(st, store.W(), g)
    modifies store
    ensures store.Valid() && Unmoved(old(store.run), store.run) && Cached(st', store.W()) && Lagging(st', store.W())
    ensures store.disk == old(store.disk).(pending := old(store.disk.pending) - {g.spoolSeq})
    ensures SameTotals(st, st') && SameGaps(st, st')
    ensures st'.counted == if g.spoolSeq in old(store.disk.pending) then st.counted - {g.spoolSeq} else st.counted
  {
    UnmovedSame(store.run);
    PendingWithout(store.disk, g.spoolSeq);
    BackingNamed(st, store.W(), g);
    var backing := set id | id in st.entries && st.entries[id].spoolSeq in st.counted
        && ExpiryNotice(st.entries[id]).noticeId == g;
    if backing == {} {
      assert forall id :: id in st.entries ==> id !in backing;
      return st;
    }
    var id :| id in backing;
    assert EntryOnDisk(st, store.W(), id);
    st' := RemoveAdmitted(store, st, AdmissionFor(st.entries[id]));
  }

  /** The search for the backing finds the pending file of the number and no other. */
  lemma BackingNamed(st: State, w: World, g: RecordId)
    requires EntriesAgree(st, w) && g.NoticeDigest? && Deferred(st, w, g)
    ensures forall id :: id in st.entries && ExpiryNotice(st.entries[id]).noticeId == g ==>
            st.entries[id].spoolSeq == g.spoolSeq
    ensures g.spoolSeq in w.disk.pending <==>
            exists id :: id in st.entries && st.entries[id].spoolSeq in st.counted
                && ExpiryNotice(st.entries[id]).noticeId == g
  {
    assert HasEntry(st, w, g.spoolSeq);
    forall id | id in st.entries && ExpiryNotice(st.entries[id]).noticeId == g
      ensures st.entries[id].spoolSeq == g.spoolSeq && g.spoolSeq in w.disk.pending
    {
      assert EntryOnDisk(st, w, id);
    }
  }

  /** Removes the file of a gap that a receipt accepts. */
  method RemoveGapFile(store: Store, st: State, g: RecordId) returns (st': State)
    requires store.Valid() && Cached(st, store.W()) && Lagging(st, store.W())
    requires g in st.gaps && MayRemoveGap(store.W(), st.gaps[g].spoolSeq)
    modifies store
    ensures store.Valid() && Unmoved(old(store.run), store.run) && Cached(st', store.W()) && Lagging(st', store.W())
    ensures store.disk == old(store.disk).(gaps := old(store.disk.gaps) - {st.gaps[g].spoolSeq})
    ensures st' == DropGap(st, st.gaps[g])
  {
    ghost var w := store.W();
    var n := st.gaps[g];
    assert GapOnDisk(st, w.disk, g);
    GapsAfterRemoval(st, w.disk, n);
    Tend(store, RemoveGap(n.spoolSeq));
    st' := DropGap(st, n);
    EntriesUntouched(st, st', w, store.W());
    ReceiptsUntouched(st, st', w.disk, store.disk);
    forall s ensures Lags(st', store.disk, s) { assert Lags(st, w.disk, s); }
  }

  // ---------------------------------------------------------------------------
  // Receipts
  // ---------------------------------------------------------------------------

  /** The numbers of the first admissions and gaps of a receipt. */
  ghost function AdmissionSeqs(r: Receipt, k: nat): set<nat>
    requires k <= |r.admissions|
  {
    set a | a in r.admissions[..k] :: a.spoolSeq
  }

  ghost function GapSeqs(r: Receipt, k: nat): set<nat>
    requires k <= |r.gapIds|
  {
    set g | g in r.gapIds[..k] && g.NoticeDigest? :: g.spoolSeq
  }

  lemma OneMoreAdmission(r: Receipt, k: nat)
    requires k < |r.admissions|
    ensures AdmissionSeqs(r, k + 1) == AdmissionSeqs(r, k) + {r.admissions[k].spoolSeq}
  {
    assert r.admissions[..k + 1] == r.admissions[..k] + [r.admissions[k]];
  }

  lemma OneMoreGap(r: Receipt, k: nat)
    requires k < |r.gapIds| && r.gapIds[k].NoticeDigest?
    ensures GapSeqs(r, k + 1) == GapSeqs(r, k) + {r.gapIds[k].spoolSeq}
  {
    assert r.gapIds[..k + 1] == r.gapIds[..k] + [r.gapIds[k]];
  }

  lemma AllSeqs(r: Receipt)
    ensures AdmissionSeqs(r, |r.admissions|) + GapSeqs(r, |r.gapIds|) == ReceiptSeqs(r)
    ensures forall s :: s in AdmissionSeqs(r, |r.admissions|) <==> exists a :: a in r.admissions && a.spoolSeq == s
  {
    assert r.admissions[..|r.admissions|] == r.admissions && r.gapIds[..|r.gapIds|] == r.gapIds;
  }

  /** What is left at one number when part of a receipt has been carried out. */
  ghost predicate PartlyAt(d0: Disk, st0: State, d: Disk, st: State, records: set<nat>, gone: set<nat>, s: nat) {
    && (s in d.pending <==> s in d0.pending && s !in records && s !in gone)
    && (s in d.pending ==> d.pending[s] == d0.pending[s])
    && (s in d.gaps <==> s in d0.gaps && s !in gone) && (s in d.gaps ==> d.gaps[s] == d0.gaps[s])
    && (s in st.counted ==> s in st0.counted && s !in records && (s in gone ==> s !in d0.pending))
  }

  ghost predicate Partly(d0: Disk, st0: State, d: Disk, st: State, records: set<nat>, gone: set<nat>) {
    && d == d0.(pending := d.pending, gaps := d.gaps) && SameTotals(st0, st)
    && forall s {:trigger PartlyAt(d0, st0, d, st, records, gone, s)} :: PartlyAt(d0, st0, d, st, records, gone, s)
  }

  /** Removes the records a receipt accepts. */
  method ApplyAdmissions(store: Store, st: State, r: Receipt) returns (st': State)
    requires store.Valid() && Cached(st, store.W()) && Lagging(st, store.W())
    requires r.sequence in store.disk.receipts && store.disk.receipts[r.sequence] == r
    modifies store
    ensures store.Valid() && Unmoved(old(store.run), store.run) && Cached(st', store.W()) && Lagging(st', store.W())
    ensures Partly(old(store.disk), st, store.disk, st', AdmissionSeqs(r, |r.admissions|), {})
  {
    st' := st;
    UnmovedSame(store.run);
    NothingYet(r, store.disk, st);
    for k := 0 to |r.admissions|
      invariant store.Valid() && Unmoved(old(store.run), store.run) && Cached(st', store.W()) && Lagging(st', store.W())
      invariant r.sequence in store.disk.receipts && store.disk.receipts[r.sequence] == r
      invariant Partly(old(store.disk), st, store.disk, st', AdmissionSeqs(r, k), {})
    {
      ghost var before, d, sk := store.run, store.disk, st';
      ExactAt(store.cfg, store.run, r.sequence);
      AdmissionAccepts(store.W(), r.sequence, r.admissions[k]);
      st' := RemoveAdmitted(store, st', r.admissions[k]);
      UnmovedTwice(old(store.run), before, store.run);
      PartlyMore(old(store.disk), st, d, sk, store.disk, st', r, k);
    }
  }

  lemma NothingYet(r: Receipt, d: Disk, st: State)
    ensures Partly(d, st, d, st, AdmissionSeqs(r, 0), {})
  {
    assert AdmissionSeqs(r, 0) == {};
    forall s ensures PartlyAt(d, st, d, st, AdmissionSeqs(r, 0), {}, s) { }
  }

  lemma PartlyMore(d0: Disk, st0: State, d: Disk, st: State, d': Disk, st': State, r: Receipt, k: nat)
    requires k < |r.admissions| && Partly(d0, st0, d, st, AdmissionSeqs(r, k), {})
    requires d' == d.(pending := d.pending - {r.admissions[k].spoolSeq})
    requires SameTotals(st, st') && st'.counted == st.counted - {r.admissions[k].spoolSeq}
    ensures Partly(d0, st0, d', st', AdmissionSeqs(r, k + 1), {})
  {
    OneMoreAdmission(r, k);
    var before, after := AdmissionSeqs(r, k), AdmissionSeqs(r, k + 1);
    forall s ensures PartlyAt(d0, st0, d', st', after, {}, s) { assert PartlyAt(d0, st0, d, st, before, {}, s); }
  }

  lemma PartlyGap(d0: Disk, st0: State, d: Disk, st: State, d': Disk, st': State, records: set<nat>, r: Receipt, k: nat)
    requires k < |r.gapIds| && r.gapIds[k].NoticeDigest? && Partly(d0, st0, d, st, records, GapSeqs(r, k))
    requires var s := r.gapIds[k].spoolSeq;
             && d' == d.(pending := d.pending - {s}, gaps := d.gaps - {s})
             && st'.counted == if s in d.pending then st.counted - {s} else st.counted
    requires SameTotals(st, st')
    ensures Partly(d0, st0, d', st', records, GapSeqs(r, k + 1))
  {
    OneMoreGap(r, k);
    var before, after := GapSeqs(r, k), GapSeqs(r, k + 1);
    forall s
      ensures PartlyAt(d0, st0, d', st', records, after, s)
    {
      assert PartlyAt(d0, st0, d, st, records, before, s);
    }
  }

  lemma UntouchedBy(d: Disk, s: nat)
    ensures s !in d.pending ==> d.pending - {s} == d.pending
    ensures s !in d.gaps ==> d.gaps - {s} == d.gaps
  {
  }

  /** Removes the gaps a receipt accepts, by their gap files or by the pending files behind them. */
  method ApplyGaps(store: Store, st: State, r: Receipt, ghost d0: Disk, ghost st0: State) returns (st': State)
    requires store.Valid() && Cached(st, store.W()) && Lagging(st, store.W())
    requires r.sequence in store.disk.receipts && store.disk.receipts[r.sequence] == r
    requires Partly(d0, st0, store.disk, st, AdmissionSeqs(r, |r.admissions|), GapSeqs(r, 0))
    modifies store
    ensures store.Valid() && Unmoved(old(store.run), store.run) && Cached(st', store.W()) && Lagging(st', store.W())
    ensures Partly(d0, st0, store.disk, st', AdmissionSeqs(r, |r.admissions|), GapSeqs(r, |r.gapIds|))
  {
    st' := st;
    UnmovedSame(store.run);
    for k := 0 to |r.gapIds|
      invariant store.Valid() && Unmoved(old(store.run), store.run) && Cached(st', store.W()) && Lagging(st', store.W())
      invariant r.sequence in store.disk.receipts && store.disk.receipts[r.sequence] == r
      invariant Partly(d0, st0, store.disk, st', AdmissionSeqs(r, |r.admissions|), GapSeqs(r, k))
    {
      ghost var before := store.run;
      st' := ApplyGap(store, st', r, k, d0, st0);
      UnmovedTwice(old(store.run), before, store.run);
    }
  }

  lemma NoGapsYet(r: Receipt, d0: Disk, st0: State, d: Disk, st: State, records: set<nat>)
    requires Partly(d0, st0, d, st, records, {})
    ensures Partly(d0, st0, d, st, records, GapSeqs(r, 0))
  {
    assert GapSeqs(r, 0) == {};
    forall s
      ensures PartlyAt(d0, st0, d, st, records, GapSeqs(r, 0), s)
    {
      assert PartlyAt(d0, st0, d, st, records, {}, s);
    }
  }

  /** One accepted gap: after its removal, one more has been carried out. */
  method ApplyGap(store: Store, st: State, r: Receipt, k: nat, ghost d0: Disk, ghost st0: State) returns (st': State)
    requires store.Valid() && Cached(st, store.W()) && Lagging(st, store.W()) && k < |r.gapIds|
    requires r.sequence in store.disk.receipts && store.disk.receipts[r.sequence] == r
    requires Partly(d0, st0, store.disk, st, AdmissionSeqs(r, |r.admissions|), GapSeqs(r, k))
    modifies store
    ensures store.Valid() && Unmoved(old(store.run), store.run) && Cached(st', store.W()) && Lagging(st', store.W())
    ensures store.disk.receipts == old(store.disk.receipts)
    ensures Partly(d0, st0, store.disk, st', AdmissionSeqs(r, |r.admissions|), GapSeqs(r, k + 1))
  {
    ghost var d := store.disk;
    st' := RemoveAcceptedGap(store, st, r, r.gapIds[k]);
    PartlyGap(d0, st0, d, st, store.disk, st', AdmissionSeqs(r, |r.admissions|), r, k);
  }

  /** Removes one accepted gap: its file, or the pending file behind it. */
  method RemoveAcceptedGap(store: Store, st: State, r: Receipt, g: RecordId) returns (st': State)
    requires store.Valid() && Cached(st, store.W()) && Lagging(st, store.W()) && g in r.gapIds
    requires r.sequence in store.disk.receipts && store.disk.receipts[r.sequence] == r
    modifies store
    ensures store.Valid() && Unmoved(old(store.run), store.run) && Cached(st', store.W()) && Lagging(st', store.W())
    ensures g.NoticeDigest? && SameTotals(st, st')
    ensures var d := old(store.disk);
            && store.disk == d.(pending := d.pending - {g.spoolSeq}, gaps := d.gaps - {g.spoolSeq})
            && st'.counted == if g.spoolSeq in d.pending then st.counted - {g.spoolSeq} else st.counted
  {
    GapFacts(store.cfg, store.run, st, r, g);
    UntouchedBy(store.disk, g.spoolSeq);
    if g in st.gaps {
      AloneAt(store.cfg, store.run, g.spoolSeq);
      st' := RemoveGapFile(store, st, g);
    } else {
      st' := RemoveExpiredBacking(store, st, g);
    }
  }

  lemma GapFacts(cfg: Config, run: Run, st: State, r: Receipt, g: RecordId)
    requires Legal(cfg, run) && Cached(st, End(run)) && Lagging(st, End(run)) && g in r.gapIds
    requires r.sequence in End(run).disk.receipts && End(run).disk.receipts[r.sequence] == r
    ensures g.NoticeDigest? && Accepted(End(run).disk.receipts, g.spoolSeq) && Deferred(st, End(run), g)
    ensures g in st.gaps <==> g.spoolSeq in End(run).disk.gaps
    ensures g in st.gaps ==> st.gaps[g].spoolSeq == g.spoolSeq && MayRemoveGap(End(run), g.spoolSeq)
  {
    ExactAt(cfg, run, r.sequence);
    FateAt(cfg, run, g.spoolSeq);
    GapNamed(st, End(run), r.sequence, g);
    GapIdAccepts(End(run), r.sequence, g);
  }

  lemma AloneAt(cfg: Config, run: Run, s: nat)
    requires Legal(cfg, run) && MayRemoveGap(End(run), s)
    ensures s !in End(run).disk.pending
  {
    EndKeeps(cfg, run);
    AcceptedGapStandsAlone(cfg, End(run), s);
  }

  /** A receipt has been carried out: everything it accepts is gone, nothing else is. */
  ghost predicate CarriedOut(d0: Disk, st0: State, d: Disk, st: State, r: Receipt) {
    && d == d0.(pending := d0.pending - ReceiptSeqs(r), gaps := d0.gaps - ReceiptSeqs(r))
    && SameTotals(st0, st)
    && st.counted.Keys <= st0.counted.Keys
    && (forall a :: a in r.admissions ==> a.spoolSeq !in st.counted)
    && (forall s :: s in st.counted && s in ReceiptSeqs(r) ==> s !in d0.pending)
  }

  method ApplyReceipt(store: Store, st: State, r: Receipt) returns (st': State)
    requires store.Valid() && Cached(st, store.W()) && Lagging(st, store.W())
    requires r.sequence in store.disk.receipts && store.disk.receipts[r.sequence] == r
    modifies store
    ensures store.Valid() && Unmoved(old(store.run), store.run) && Cached(st', store.W()) && Lagging(st', store.W())
    ensures CarriedOut(old(store.disk), st, store.disk, st', r)
  {
    ExactAt(store.cfg, store.run, r.sequence);
    st' := ApplyAdmissions(store, st, r);
    ghost var before := store.run;
    NoGapsYet(r, old(store.disk), st, store.disk, st', AdmissionSeqs(r, |r.admissions|));
    st' := ApplyGaps(store, st', r, old(store.disk), st);
    UnmovedTwice(old(store.run), before, store.run);
    PartlyIsAll(old(store.W()), st, store.disk, st', r);
  }

  lemma PartlyIsAll(w: World, st0: State, d: Disk, st: State, r: Receipt)
    requires r.sequence in w.disk.receipts && w.disk.receipts[r.sequence] == r && Exact(w, r.sequence)
    requires Partly(w.disk, st0, d, st, AdmissionSeqs(r, |r.admissions|), GapSeqs(r, |r.gapIds|))
    ensures CarriedOut(w.disk, st0, d, st, r)
  {
    AllSeqs(r);
    var records, gone := AdmissionSeqs(r, |r.admissions|), GapSeqs(r, |r.gapIds|);
    forall s
      ensures s in d.pending <==> s in w.disk.pending && s !in ReceiptSeqs(r)
      ensures s in d.gaps <==> s in w.disk.gaps && s !in ReceiptSeqs(r)
      ensures s in d.pending ==> d.pending[s] == w.disk.pending[s]
      ensures s in d.gaps ==> d.gaps[s] == w.disk.gaps[s]
      ensures s in st.counted ==> s in st0.counted && s !in records && (s in gone ==> s !in w.disk.pending)
    {
      assert PartlyAt(w.disk, st0, d, st, records, gone, s);
    }
    assert d.pending == w.disk.pending - ReceiptSeqs(r) && d.gaps == w.disk.gaps - ReceiptSeqs(r);
  }

  /** `persist_sequence_state` outside the counting of expiries. */
  method Persist(store: Store, st: State)
    requires store.Valid() && Cached(st, store.W()) && Lagging(st, store.W()) && Tidy(st, store.W())
    modifies store
    ensures store.Valid() && Unmoved(old(store.run), store.run)
    ensures Cached(st, store.W()) && Synced(st, store.W()) && Tidy(st, store.W())
    ensures store.disk == old(store.disk).(sequence := Some(SequenceOf(st)))
  {
    ghost var w := store.W();
    PersistAllowed(store.cfg, store.run, st);
    Tend(store, WriteSequence(SequenceOf(st)));
    EntriesUntouched(st, st, w, store.W());
    GapsUntouched(st, st, w.disk, store.disk);
    ReceiptsUntouched(st, st, w.disk, store.disk);
  }

  lemma PersistAllowed(cfg: Config, run: Run, st: State)
    requires Legal(cfg, run) && Lagging(st, End(run)) && Tidy(st, End(run))
    ensures MayWriteSequence(End(run), SequenceOf(st)) && NewlyCounted(End(run).disk, SequenceOf(st)) == {}
  {
    EndKeeps(cfg, run);
    MayPersist(cfg, st, End(run));
  }

  lemma SyncedIsLagging(st: State, w: World)
    requires Synced(st, w)
    ensures Lagging(st, w)
  {
    forall s ensures Lags(st, w.disk, s) { }
  }

  /** Carrying out a receipt leaves only pending numbers counted. */
  lemma TidyAfter(w0: World, st0: State, w: World, st: State, r: Receipt)
    requires CarriedOut(w0.disk, st0, w.disk, st, r) && Tidy(st0, w0) && w.hist == w0.hist
    ensures Tidy(st, w)
  {
  }

  /** Nothing accepted is left except by the receipts still to be carried out. */
  ghost predicate SettledBut(w: World, left: set<nat>) {
    forall s {:trigger Settled(w, s)} :: s !in left ==> Settled(w, s)
  }

  lemma SettledAfter(w0: World, w: World, st0: State, st: State, r: Receipt, left: set<nat>)
    requires CarriedOut(w0.disk, st0, w.disk, st, r) && SettledBut(w0, left)
    ensures SettledBut(w, left - ReceiptSeqs(r))
  {
    forall s | s !in left - ReceiptSeqs(r) ensures Settled(w, s) { assert s !in left ==> Settled(w0, s); }
  }

  lemma SettledSame(w: World, w': World, left: set<nat>)
    requires SettledBut(w, left)
    requires w'.disk.receipts == w.disk.receipts && w'.disk.pending == w.disk.pending && w'.disk.gaps == w.disk.gaps
    ensures SettledBut(w', left)
  {
    forall s | s !in left ensures Settled(w', s) { assert Settled(w, s); }
  }

  lemma AllSettledBut(w: World)
    ensures AllSettled(w) <==> SettledBut(w, {})
  {
    if SettledBut(w, {}) {
      forall s ensures Settled(w, s) { assert s !in {} ==> Settled(w, s); }
    }
    if AllSettled(w) {
      forall s | s !in {} ensures Settled(w, s) { assert Settled(w, s); }
    }
  }

  /** `complete_receipt`: afterwards nothing the receipt accepts is left, memory and disk agree again
      and the queue is the same, since it lost the accepted items with the receipt write. */
  method CompleteReceipt(store: Store, st: State, r: Receipt) returns (st': State)
    requires store.Valid() && Cached(st, store.W()) && Lagging(st, store.W()) && Tidy(st, store.W())
    requires r.sequence in store.disk.receipts && store.disk.receipts[r.sequence] == r
    requires SettledBut(store.W(), ReceiptSeqs(r))
    modifies store
    ensures store.Valid() && Unmoved(old(store.run), store.run) && Steady(st', store.W()) && Synced(st', store.W())
    ensures exists d :: CarriedOut(old(store.disk), st, d, st', r) && store.disk == d.(sequence := store.disk.sequence)
  {
    ghost var w := store.W();
    st' := ApplyReceipt(store, st, r);
    ghost var before := store.run;
    TidyAfter(w, st, store.W(), st', r);
    SettledAfter(w, store.W(), st, st', r, ReceiptSeqs(r));
    Persist(store, st');
    UnmovedTwice(old(store.run), before, store.run);
    SettledSame(End(before), store.W(), ReceiptSeqs(r) - ReceiptSeqs(r));
    assert ReceiptSeqs(r) - ReceiptSeqs(r) == {};
    AllSettledBut(store.W());
    SyncedIsLagging(st', store.W());
    assert CarriedOut(old(store.disk), st, End(before).disk, st', r);
  }

  lemma SteadyPersisted(st: State, w: World, w': World)
    requires AllSettled(w) && w'.disk == w.disk.(sequence := w'.disk.sequence)
    requires Cached(st, w') && Synced(st, w') && Tidy(st, w')
    ensures Steady(st, w')
  {
    forall s ensures Settled(w', s) { assert Settled(w, s); }
    SyncedIsLagging(st, w');
  }
}
