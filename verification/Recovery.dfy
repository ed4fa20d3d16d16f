/** Reopening a spool: every file the spool ever writes passes its own recovery checks, and the state
    rebuilt from the files agrees with them. */
module Recovery {
  import opened Finite
  import opened Wire
  import opened Limits
  import opened Durable
  import opened Invariant
  import opened Safety
  import opened Cache
  import opened Machine
  import opened Expiry
  import opened Receipts

  // ---------------------------------------------------------------------------
  // Gaps
  // ---------------------------------------------------------------------------

  ghost predicate PartOf<K, V>(part: map<K, V>, whole: map<K, V>) {
    part.Keys <= whole.Keys && forall k :: k in part ==> part[k] == whole[k]
  }

  /** `part` is `whole` without the keys `rest`. */
  ghost predicate PartBut<K, V>(part: map<K, V>, whole: map<K, V>, rest: set<K>) {
    PartOf(part, whole) && rest <= whole.Keys && part.Keys == whole.Keys - rest
  }

  lemma PartMore<K, V>(part: map<K, V>, whole: map<K, V>, rest: set<K>, k: K)
    requires PartBut(part, whole, rest) && k in rest
    ensures k !in part && PartBut(part[k := whole[k]], whole, rest - {k})
  {
  }

  lemma PartAll<K, V>(part: map<K, V>, whole: map<K, V>)
    requires PartBut(part, whole, {})
    ensures part == whole
  {
  }

  /** A gap file passes the checks of `recover_gaps`, whichever gaps were loaded before it. */
  lemma GapLoads(cfg: Config, run: Run, st: State, loaded: map<nat, GapNotice>, s: nat)
    requires Legal(cfg, run) && PartOf(loaded, End(run).disk.gaps) && s in End(run).disk.gaps && s !in loaded
    requires GapsAgree(st, End(run).disk.(gaps := loaded))
    ensures var n := End(run).disk.gaps[s];
            && ValidNotice(n) && n.spoolSeq == s && GapBytes(n) <= MAX_ENCRYPTED_GAP_BYTES
            && n.noticeId !in st.gaps && !GapOf(st, s)
            && |st.gaps| < cfg.maxRecords && st.gapBytes + GapBytes(n) <= cfg.maxBytes
  {
    var d, n := End(run).disk, End(run).disk.gaps[s];
    FateAt(cfg, run, s);
    NumberIsU64(cfg, run, s);
    GapIsSmall(n);
    assert GapOnDisk(st, d.(gaps := loaded), n.noticeId);
    forall id | id in st.gaps ensures st.gaps[id].spoolSeq != s { assert GapOnDisk(st, d.(gaps := loaded), id); }
    GapRoom(cfg, run, loaded, s);
  }

  lemma GapRoom(cfg: Config, run: Run, loaded: map<nat, GapNotice>, s: nat)
    requires Legal(cfg, run) && PartOf(loaded, End(run).disk.gaps) && s in End(run).disk.gaps && s !in loaded
    ensures |loaded| < cfg.maxRecords && Total(GapSizes(loaded)) + GapBytes(End(run).disk.gaps[s]) <= cfg.maxBytes
  {
    WithinBounds(cfg, run);
    var d := End(run).disk;
    PartSize(loaded, d.gaps, s);
    SubsetSize(d.gaps.Keys, d.pending.Keys + d.gaps.Keys);
    KeysSize(d.gaps);
    GapTotal(loaded, s, d.gaps[s]);
    TotalPart(GapSizes(loaded[s := d.gaps[s]]), GapSizes(d.gaps));
  }

  lemma WithinBounds(cfg: Config, run: Run)
    requires Legal(cfg, run)
    ensures Bounded(cfg, End(run).disk.pending, End(run).disk.gaps)
  {
    EndKeeps(cfg, run);
  }

  lemma PartSize<K, V>(part: map<K, V>, whole: map<K, V>, k: K)
    requires PartOf(part, whole) && k in whole && k !in part
    ensures |part| < |whole|
  {
    SubsetSize(part.Keys + {k}, whole.Keys);
    KeysSize(part);
    KeysSize(whole);
  }

  /** One gap file: none of the checks fails. */
  method LoadGap(store: Store, st: State, s: nat, ghost loaded: map<nat, GapNotice>) returns (st': State)
    requires store.Valid() && PartOf(loaded, store.disk.gaps) && s in store.disk.gaps && s !in loaded
    requires GapsAgree(st, store.disk.(gaps := loaded))
    ensures GapsAgree(st', store.disk.(gaps := loaded[s := store.disk.gaps[s]]))
    ensures st' == st.(gaps := st'.gaps, gapBytes := st'.gapBytes)
  {
    var n := store.disk.gaps[s];
    GapLoads(store.cfg, store.run, st, loaded, s);
    var bytes := GapBytes(n);
    if bytes > MAX_ENCRYPTED_GAP_BYTES || !ValidNotice(n) || n.spoolSeq != s || n.noticeId in st.gaps
        || GapOf(st, n.spoolSeq) {
      assert false;
    }
    if |st.gaps| >= store.cfg.maxRecords || SaturatingAddU64(st.gapBytes, bytes) > store.cfg.maxBytes { assert false; }
    GapsAfterWrite(st, store.disk.(gaps := loaded), n);
    st' := AddGap(st, n);
  }

  lemma NoGaps(st: State, d: Disk)
    requires st.gaps == map[] && st.gapBytes == 0 && d.gaps == map[]
    ensures GapsAgree(st, d)
  {
    assert GapSizes(d.gaps) == map[];
  }

  /** `recover_gaps`: all gap files load, in any order. */
  method LoadGaps(store: Store, st: State) returns (st': State)
    requires store.Valid() && st.gaps == map[] && st.gapBytes == 0
    ensures GapsAgree(st', store.disk) && st' == st.(gaps := st'.gaps, gapBytes := st'.gapBytes)
  {
    st' := st;
    var rest := store.disk.gaps.Keys;
    ghost var loaded: map<nat, GapNotice> := map[];
    NoGaps(st', store.disk.(gaps := loaded));
    while rest != {}
      invariant PartBut(loaded, store.disk.gaps, rest)
      invariant GapsAgree(st', store.disk.(gaps := loaded))
      invariant st' == st.(gaps := st'.gaps, gapBytes := st'.gapBytes)
      decreases |rest|
    {
      var s :| s in rest;
      PartMore(loaded, store.disk.gaps, rest, s);
      st' := LoadGap(store, st', s, loaded);
      loaded := loaded[s := store.disk.gaps[s]];
      rest := rest - {s};
    }
    PartAll(loaded, store.disk.gaps);
  }

  // ---------------------------------------------------------------------------
  // Pending records
  // ---------------------------------------------------------------------------

  /** The world with part of the pending directory. */
  ghost function With(w: World, pending: map<nat, PendingFile>): World { w.(disk := w.disk.(pending := pending)) }

  lemma SameRecordSameEvent(cfg: Config, run: Run, s: nat, t: nat)
    requires Legal(cfg, run) && s in End(run).disk.pending && t in End(run).disk.pending
    requires s in End(run).hist.admitted && t in End(run).hist.admitted
    requires || End(run).hist.admitted[s].recordId == End(run).hist.admitted[t].recordId
             || StableOf(End(run).hist.admitted[s]) == StableOf(End(run).hist.admitted[t])
    ensures s == t
  {
    var a, b := End(run).hist.admitted[s], End(run).hist.admitted[t];
    RecordReads(cfg, run, s);
    RecordReads(cfg, run, t);
    if a.recordId == b.recordId {
      LegacyIdIsExact(a.env, b.env);
      SamePlain(a.env, b.env);
    }
    if s != t { StablesDifferAt(cfg, run, s, t); }
  }

  lemma RecordReads(cfg: Config, run: Run, s: nat)
    requires Legal(cfg, run) && s in End(run).hist.admitted
    ensures var r := End(run).hist.admitted[s]; StableOf(r) == StableId(r.env) && r.recordId == LegacyId(r.env)
  {
    FateAt(cfg, run, s);
    AdmittedIsAdmissible(cfg, run, |run.steps|, s);
  }

  /** A pending file reads back as the admitted record. */
  lemma RecordLoads(cfg: Config, run: Run, s: nat)
    requires Legal(cfg, run) && !End(run).hist.damaged && s in End(run).disk.pending
    ensures s in End(run).hist.admitted
    ensures var f, r := End(run).disk.pending[s], End(run).hist.admitted[s];
            && f == PendingFile(r.recordId, Intact(r), f.bytes) && f.bytes <= MAX_ENCRYPTED_RECORD_BYTES
            && ValidStored(r) && r.stableId == Some(StableOf(r)) && r.spoolSeq == Some(s) && r.version == 2
  {
    FateAt(cfg, run, s);
    AdmittedIsAdmissible(cfg, run, |run.steps|, s);
  }

  /** A record that reads back passes the remaining checks, whichever records were loaded before it. */
  lemma EntryLoads(cfg: Config, run: Run, st: State, loaded: map<nat, PendingFile>, s: nat)
    requires Legal(cfg, run) && PartOf(loaded, End(run).disk.pending) && s in End(run).disk.pending && s !in loaded
    requires s in End(run).hist.admitted && EntriesAgree(st, With(End(run), loaded))
    ensures var r, f := End(run).hist.admitted[s], End(run).disk.pending[s];
            && r.recordId !in st.entries && StableOf(r) !in st.stableIndex
            && (forall id :: id in st.entries ==> st.entries[id].spoolSeq != s)
            && |st.entries| < cfg.maxRecords && st.pendingBytes + f.bytes <= cfg.maxBytes
  {
    var w, r := With(End(run), loaded), End(run).hist.admitted[s];
    if r.recordId in st.entries {
      assert EntryOnDisk(st, w, r.recordId);
      SameRecordSameEvent(cfg, run, s, st.entries[r.recordId].spoolSeq);
    }
    if StableOf(r) in st.stableIndex {
      assert Indexed(st, StableOf(r)) && EntryOnDisk(st, w, st.stableIndex[StableOf(r)]);
      SameRecordSameEvent(cfg, run, s, st.entries[st.stableIndex[StableOf(r)]].spoolSeq);
    }
    forall id | id in st.entries ensures st.entries[id].spoolSeq != s { assert EntryOnDisk(st, w, id); }
    PendingRoom(cfg, run, loaded, s);
  }

  lemma PendingRoom(cfg: Config, run: Run, loaded: map<nat, PendingFile>, s: nat)
    requires Legal(cfg, run) && PartOf(loaded, End(run).disk.pending) && s in End(run).disk.pending && s !in loaded
    ensures |loaded| < cfg.maxRecords && Total(PendingSizes(loaded)) + End(run).disk.pending[s].bytes <= cfg.maxBytes
  {
    WithinBounds(cfg, run);
    var d := End(run).disk;
    PartSize(loaded, d.pending, s);
    SubsetSize(d.pending.Keys, d.pending.Keys + d.gaps.Keys);
    KeysSize(d.pending);
    PendingTotal(loaded, s, d.pending[s]);
    TotalPart(PendingSizes(loaded[s := d.pending[s]]), PendingSizes(d.pending));
  }

  lemma EntriesAfterLoad(st: State, w: World, loaded: map<nat, PendingFile>, s: nat, f: PendingFile)
    requires EntriesAgree(st, With(w, loaded)) && s !in loaded && s in w.hist.admitted
    requires w.hist.admitted[s].recordId !in st.entries && StableOf(w.hist.admitted[s]) !in st.stableIndex
    ensures EntriesAgree(AddEntry(st, EntryOf(s, w.hist.admitted[s], f.bytes)), With(w, loaded[s := f]))
  {
    var st' := AddEntry(st, EntryOf(s, w.hist.admitted[s], f.bytes));
    var v, v' := With(w, loaded), With(w, loaded[s := f]);
    forall t ensures HasEntry(st', v', t) { assert HasEntry(st, v, t); }
    forall id ensures EntryOnDisk(st', v', id) { assert EntryOnDisk(st, v, id); }
    forall id ensures Indexed(st', id) { assert Indexed(st, id); }
    PendingTotal(loaded, s, f);
  }

  /** There is room in quarantine for a pending file that a gap shadows. */
  ghost predicate ShadowFits(cfg: Config, d: Disk, s: nat) {
    s in d.pending && s in d.gaps ==>
      d.quarantineFiles + 1 <= cfg.maxRecords && d.quarantineBytes + FileSize(d.pending[s]) <= cfg.maxBytes
  }

  /** When a directory can be opened: nothing is left over from an unfinished write, and a file that a
      stop left behind its own gap fits in quarantine. */
  ghost predicate CanReopen(cfg: Config, d: Disk) {
    !d.orphan && AllShadowsFit(cfg, d)
  }

  lemma OnlyShadow(cfg: Config, run: Run, s: nat, t: nat)
    requires Legal(cfg, run) && !End(run).hist.damaged
    requires s in End(run).disk.pending && s in End(run).disk.gaps && t in End(run).disk.pending
    requires t in End(run).disk.gaps
    ensures s == t
  {
    EndKeeps(cfg, run);
    var d := End(run).disk;
    if s != t { SubsetSize({s, t}, d.pending.Keys * d.gaps.Keys); }
  }

  /** Only the entries, their index, their bytes and the damage counter changed. */
  predicate OnlyEntries(st: State, st': State) {
    st' == st.(entries := st'.entries, stableIndex := st'.stableIndex, pendingBytes := st'.pendingBytes,
        corruptRecords := st'.corruptRecords)
  }

  /** What is left of the load loop: the loaded part agrees, and no loaded file is shadowed. */
  ghost predicate Loading(st: State, w: World, loaded: map<nat, PendingFile>, rest: set<nat>) {
    && GapsAgree(st, w.disk) && EntriesAgree(st, With(w, loaded)) && PartBut(loaded, w.disk.pending, rest)
    && loaded.Keys !! w.disk.gaps.Keys
  }

  /** Reads a pending file back: none of the checks fails. */
  method ReadPending(store: Store, s: nat) returns (r: StoredRecord)
    requires store.Valid() && !store.W().hist.damaged && s in store.disk.pending
    ensures s in store.W().hist.admitted && r == store.W().hist.admitted[s] && r.stableId == Some(StableOf(r))
  {
    var f := store.disk.pending[s];
    RecordLoads(store.cfg, store.run, s);
    if f.contents.Corrupt? || FileSize(f) > MAX_ENCRYPTED_RECORD_BYTES { assert false; }
    r := f.contents.stored;
    if !ValidStored(r) || f.id != r.recordId || r.stableId.None? || r.spoolSeq != Some(s) { assert false; }
  }

  /** One pending file that no gap shadows: none of the checks fails. */
  method LoadRecord(store: Store, st: State, s: nat, ghost loaded: map<nat, PendingFile>,
                    ghost rest: set<nat>) returns (st': State)
    requires store.Valid() && !store.W().hist.damaged && Loading(st, store.W(), loaded, rest) && s in rest
    requires s !in store.disk.gaps
    ensures Loading(st', store.W(), loaded[s := store.disk.pending[s]], rest - {s})
    ensures OnlyEntries(st, st') && st'.corruptRecords == st.corruptRecords
  {
    var f := store.disk.pending[s];
    var r := ReadPending(store, s);
    EntryLoads(store.cfg, store.run, st, loaded, s);
    if r.recordId in st.entries || r.stableId.value in st.stableIndex
       || (exists id :: id in st.entries && st.entries[id].spoolSeq == s)
       || |st.entries| >= store.cfg.maxRecords || SaturatingAddU64(st.pendingBytes, f.bytes) > store.cfg.maxBytes {
      assert false;
    }
    EntriesAfterLoad(st, store.W(), loaded, s, f);
    st' := AddEntry(st, Entry(r.recordId, r.stableId.value, s, r.admittedAt, r.expiresAt, f.bytes));
    LoadingAfterRecord(st, store.W(), st', loaded, rest, s);
  }

  lemma LoadingAfterRecord(st: State, w: World, st': State, loaded: map<nat, PendingFile>, rest: set<nat>, s: nat)
    requires Loading(st, w, loaded, rest) && s in rest && s !in w.disk.gaps
    requires EntriesAgree(st', With(w, loaded[s := w.disk.pending[s]]))
    requires st'.gaps == st.gaps && st'.gapBytes == st.gapBytes
    ensures Loading(st', w, loaded[s := w.disk.pending[s]], rest - {s})
  {
    GapsUntouched(st, st', w.disk, w.disk);
    PartMore(loaded, w.disk.pending, rest, s);
  }

  /** A pending file behind its own gap goes to quarantine if there is room. */
  method QuarantineShadow(store: Store, st: State, s: nat, ghost loaded: map<nat, PendingFile>, ghost rest: set<nat>)
    returns (r: Result<bool>, st': State)
    requires store.Valid() && !store.W().hist.damaged && Loading(st, store.W(), loaded, rest) && s in rest
    requires s in store.disk.gaps
    requires st.corruptRecords == store.disk.quarantineFiles
    modifies store
    ensures store.Valid() && Kept(old(store.run), store.run)
    ensures OnlyEntries(st, st') && st'.corruptRecords == store.disk.quarantineFiles
    ensures r.Ok? <==> ShadowFits(store.cfg, old(store.disk), s)
    ensures r.Ok? ==> Loading(st', store.W(), loaded, rest - {s})
    ensures r.Ok? ==> store.disk == ApplyDisk(old(store.disk), RemovePending(s, true)) && OnlyOne(old(store.disk), s)
    ensures r.Err? ==> store.disk == old(store.disk) && r.error.CapacityExceeded?
  {
    KeptSame(store.run);
    RoomIsFit(store.cfg, store.disk, s);
    if !QuarantineRoom(store.cfg, store.disk, FileSize(store.disk.pending[s])) { return Err(CapacityExceeded), st; }
    st' := MoveShadow(store, st, s, loaded, rest);
    r := Ok(true);
  }

  lemma RoomIsFit(cfg: Config, d: Disk, s: nat)
    requires Configured(cfg) && s in d.pending && s in d.gaps
    ensures QuarantineRoom(cfg, d, FileSize(d.pending[s])) <==> ShadowFits(cfg, d, s)
  {
  }

  method MoveShadow(store: Store, st: State, s: nat, ghost loaded: map<nat, PendingFile>,
                    ghost rest: set<nat>) returns (st': State)
    requires store.Valid() && !store.W().hist.damaged && Loading(st, store.W(), loaded, rest) && s in rest
    requires s in store.disk.gaps
    requires st.corruptRecords == store.disk.quarantineFiles && ShadowFits(store.cfg, store.disk, s)
    modifies store
    ensures store.Valid() && Kept(old(store.run), store.run)
    ensures OnlyEntries(st, st') && st'.corruptRecords == store.disk.quarantineFiles
    ensures Loading(st', store.W(), loaded, rest - {s})
    ensures store.disk == ApplyDisk(old(store.disk), RemovePending(s, true)) && OnlyOne(old(store.disk), s)
  {
    ghost var w := store.W();
    NoShadowLeft(store.cfg, store.run, s);
    Tend(store, RemovePending(s, true));
    st' := st.(corruptRecords := SaturatingAddU64(st.corruptRecords, 1));
    LoadingAfterShadow(st, w, st', store.W(), loaded, rest, s);
    OneInQuarantine(w.disk, s);
  }

  lemma OneInQuarantine(d: Disk, s: nat)
    requires s in d.pending
    ensures ApplyDisk(d, RemovePending(s, true)).quarantineFiles == d.quarantineFiles + 1
  {
  }

  /** The one number with both a pending and a gap file. */
  ghost predicate OnlyOne(d: Disk, s: nat) {
    s in d.pending && s in d.gaps && forall t :: t in d.pending && t in d.gaps ==> t == s
  }

  lemma NoShadowLeft(cfg: Config, run: Run, s: nat)
    requires Legal(cfg, run) && !End(run).hist.damaged && s in End(run).disk.pending && s in End(run).disk.gaps
    ensures OnlyOne(End(run).disk, s)
  {
    forall t | t in End(run).disk.pending && t in End(run).disk.gaps ensures t == s { OnlyShadow(cfg, run, s, t); }
  }

  lemma LoadingAfterShadow(st: State, w: World, st': State, w': World, loaded: map<nat, PendingFile>,
                           rest: set<nat>, s: nat)
    requires Loading(st, w, loaded, rest) && s in rest && w'.hist == w.hist
    requires w'.disk == ApplyDisk(w.disk, RemovePending(s, true)) && st' == st.(corruptRecords := st'.corruptRecords)
    ensures Loading(st', w', loaded, rest - {s})
  {
    GapsUntouched(st, st', w.disk, w'.disk);
    EntriesUntouched(st, st', With(w, loaded), With(w', loaded));
    assert PartBut(loaded, w'.disk.pending, rest - {s});
  }

  /** The directory without the file that a gap shadows; there is at most one. */
  ghost function Unshadowed(d: Disk): Disk {
    if d.pending.Keys !! d.gaps.Keys then d
    else var s :| s in d.pending && s in d.gaps; ApplyDisk(d, RemovePending(s, true))
  }

  /** Before and after the one shadowed file, if there is one, has been met. */
  ghost predicate ShadowState(cfg: Config, d0: Disk, d: Disk, handled: Option<nat>) {
    match handled
    case None => d == d0
    case Some(s) => OnlyOne(d0, s) && d == ApplyDisk(d0, RemovePending(s, true)) && AllShadowsFit(cfg, d0)
  }

  lemma NoneLeft(d: Disk, s: nat)
    requires OnlyOne(d, s)
    ensures ApplyDisk(d, RemovePending(s, true)).pending.Keys !! ApplyDisk(d, RemovePending(s, true)).gaps.Keys
    ensures Unshadowed(d) == ApplyDisk(d, RemovePending(s, true))
  {
  }

  lemma NotYetMet(cfg: Config, d0: Disk, d: Disk, handled: Option<nat>, s: nat)
    requires ShadowState(cfg, d0, d, handled) && s in d.pending && s in d.gaps
    ensures handled.None? && d == d0
  {
    if handled.Some? { NoneLeft(d0, handled.value); }
  }

  /** One pending file: loaded, or quarantined if a gap shadows it. */
  method LoadOne(store: Store, st: State, s: nat, ghost loaded: map<nat, PendingFile>, ghost rest: set<nat>,
                 ghost d0: Disk, ghost handled: Option<nat>)
    returns (r: Result<bool>, st': State, ghost loaded': map<nat, PendingFile>, ghost handled': Option<nat>)
    requires store.Valid() && !store.W().hist.damaged && Loading(st, store.W(), loaded, rest) && s in rest
    requires ShadowState(store.cfg, d0, store.disk, handled) && st.corruptRecords == store.disk.quarantineFiles
    modifies store
    ensures store.Valid() && Kept(old(store.run), store.run) && ShadowState(store.cfg, d0, store.disk, handled')
    ensures r.Ok? ==> Loading(st', store.W(), loaded', rest - {s})
    ensures r.Err? ==> !AllShadowsFit(store.cfg, d0) && r.error.CapacityExceeded?
    ensures OnlyEntries(st, st') && st'.corruptRecords == store.disk.quarantineFiles
  {
    KeptSame(store.run);
    loaded', handled' := loaded, handled;
    if s in store.disk.gaps {
      NotYetMet(store.cfg, d0, store.disk, handled, s);
      OnlyShadowFits(store.cfg, store.run, s);
      r, st' := QuarantineShadow(store, st, s, loaded, rest);
      if r.Ok? { handled' := Some(s); }
    } else {
      st' := LoadRecord(store, st, s, loaded, rest);
      loaded' := loaded[s := store.disk.pending[s]];
      r := Ok(true);
    }
  }

  /** The pending directory loads, in any order; a shadowed file goes to quarantine. */
  method LoadPending(store: Store, st: State) returns (r: Result<bool>, st': State)
    requires store.Valid() && !store.W().hist.damaged && GapsAgree(st, store.disk)
    requires st.entries == map[] && st.stableIndex == map[] && st.pendingBytes == 0
    requires st.corruptRecords == store.disk.quarantineFiles
    modifies store
    ensures store.Valid() && Kept(old(store.run), store.run)
    ensures r.Ok? <==> AllShadowsFit(store.cfg, old(store.disk))
    ensures r.Err? ==> r.error.CapacityExceeded?
    ensures r.Ok? ==>
              && EntriesAgree(st', store.W()) && GapsAgree(st', store.disk)
              && store.disk.pending.Keys !! store.disk.gaps.Keys
    ensures r.Ok? ==> store.disk == Unshadowed(old(store.disk))
    ensures OnlyEntries(st, st') && st'.corruptRecords == store.disk.quarantineFiles
  {
    KeptSame(store.run);
    st' := st;
    var rest := store.disk.pending.Keys;
    ghost var loaded: map<nat, PendingFile>, handled: Option<nat> := map[], None;
    NoEntries(st', With(store.W(), loaded));
    while rest != {}
      invariant store.Valid() && Kept(old(store.run), store.run) && Loading(st', store.W(), loaded, rest)
      invariant ShadowState(store.cfg, old(store.disk), store.disk, handled)
      invariant OnlyEntries(st, st') && st'.corruptRecords == store.disk.quarantineFiles
      decreases |rest|
    {
      var s :| s in rest;
      ghost var mid := store.run;
      r, st', loaded, handled := LoadOne(store, st', s, loaded, rest, old(store.disk), handled);
      KeptTwice(old(store.run), mid, store.run);
      if r.Err? { return; }
      rest := rest - {s};
    }
    AllLoaded(store.cfg, st', store.W(), loaded, old(store.disk), handled);
    r := Ok(true);
  }

  lemma AllLoaded(cfg: Config, st: State, w: World, loaded: map<nat, PendingFile>, d0: Disk, handled: Option<nat>)
    requires Loading(st, w, loaded, {}) && ShadowState(cfg, d0, w.disk, handled)
    ensures EntriesAgree(st, w) && w.disk.pending.Keys !! w.disk.gaps.Keys && AllShadowsFit(cfg, d0)
    ensures w.disk == Unshadowed(d0)
  {
    PartAll(loaded, w.disk.pending);
    assert With(w, loaded) == w;
    if handled.None? {
      forall s ensures ShadowFits(cfg, d0, s) { }
    } else {
      NoneLeft(d0, handled.value);
    }
  }

  ghost predicate AllShadowsFit(cfg: Config, d: Disk) {
    forall s {:trigger ShadowFits(cfg, d, s)} :: ShadowFits(cfg, d, s)
  }

  lemma OnlyShadowFits(cfg: Config, run: Run, s: nat)
    requires Legal(cfg, run) && !End(run).hist.damaged && s in End(run).disk.pending && s in End(run).disk.gaps
    ensures ShadowFits(cfg, End(run).disk, s) <==> AllShadowsFit(cfg, End(run).disk)
  {
    if ShadowFits(cfg, End(run).disk, s) {
      forall t ensures ShadowFits(cfg, End(run).disk, t) {
        if t in End(run).disk.pending && t in End(run).disk.gaps { OnlyShadow(cfg, run, s, t); }
      }
    }
  }

  lemma NoEntries(st: State, w: World)
    requires st.entries == map[] && st.stableIndex == map[] && st.pendingBytes == 0 && w.disk.pending == map[]
    ensures EntriesAgree(st, w)
  {
    assert PendingSizes(w.disk.pending) == map[];
    forall s ensures HasEntry(st, w, s) { }
    forall id ensures EntryOnDisk(st, w, id) && Indexed(st, id) { }
  }

  // ---------------------------------------------------------------------------
  // The sequence state
  // ---------------------------------------------------------------------------

  ghost function CountedLengths(counted: map<nat, RecordId>): map<nat,
                                nat> { map s | s in counted :: 69 + DigitCount(s) }

  /** The encoded sequence state: 69 bytes and the digits of the number for each counted expiry. */
  ghost function SequenceLength(q: SequenceState): nat {
    119 + DigitCount(q.next) + DigitCount(q.expiredTotal) + (if q.v1Pruned then 4 else 5)
    + Total(CountedLengths(q.counted)) + (if |q.counted| == 0 then 0 else |q.counted| - 1)
  }

  lemma {:induction false} TotalAtMost<K>(m: map<K, nat>, c: nat)
    requires forall k :: k in m ==> m[k] <= c
    ensures Total(m) <= |m| * c
    decreases |m|
  {
    if m != map[] {
      var k :| k in m;
      TotalSplit(m, k);
      TotalAtMost(m - {k}, c);
      assert |m - {k}| == |m| - 1;
      assert |m| * c == (|m| - 1) * c + c;
    }
  }

  /** A sequence state with at most a million counted expiries stays readable. */
  lemma SequenceStateIsReadable(q: SequenceState)
    requires |q.counted| <= 1_000_000 && q.next <= U64_MAX && q.expiredTotal <= U64_MAX
    requires forall s :: s in q.counted ==> s <= U64_MAX
    ensures SequenceLength(q) + ENCRYPTION_OVERHEAD <= MAX_ENCRYPTED_SEQUENCE_STATE_BYTES
  {
    U64Digits(q.next);
    U64Digits(q.expiredTotal);
    var m := CountedLengths(q.counted);
    forall s | s in m ensures m[s] <= 89 { U64Digits(s); }
    TotalAtMost(m, 89);
    assert m.Keys == q.counted.Keys;
    assert |m| == |m.Keys| && |q.counted| == |q.counted.Keys|;
  }

  /** The stored sequence state passes the checks of `recover_sequence_state`. */
  lemma SequenceLoads(cfg: Config, run: Run)
    requires Legal(cfg, run) && Configured(cfg) && !End(run).hist.damaged
    ensures var q := Ledger(End(run).disk);
            && 1 <= q.next <= U64_MAX && |q.counted| <= 1_000_000
            && (forall s :: s in q.counted ==> 0 < s < q.next)
            && SequenceLength(q) + ENCRYPTION_OVERHEAD <= MAX_ENCRYPTED_SEQUENCE_STATE_BYTES
  {
    EndKeeps(cfg, run);
    var w := End(run);
    var q := Ledger(w.disk);
    forall s | s in q.counted ensures 0 < s < q.next { assert Fate(w, s); }
    forall s | s in w.hist.expired ensures 1 <= s <= w.hist.next { assert Fate(w, s); }
    IntervalSize(w.hist.expired, w.hist.next);
    SequenceStateIsReadable(q);
  }

  /** The highest number of the entries, 0 if there are none. */
  method HighestEntry(st: State) returns (m: nat)
    ensures forall id :: id in st.entries ==> st.entries[id].spoolSeq <= m
    ensures m != 0 ==> exists id :: id in st.entries && st.entries[id].spoolSeq == m
  {
    m := 0;
    var rest := st.entries.Keys;
    while rest != {}
      invariant rest <= st.entries.Keys
      invariant forall id :: id in st.entries && id !in rest ==> st.entries[id].spoolSeq <= m
      invariant m != 0 ==> exists id :: id in st.entries && st.entries[id].spoolSeq == m
      decreases |rest|
    {
      var id :| id in rest;
      if st.entries[id].spoolSeq > m { m := st.entries[id].spoolSeq; }
      rest := rest - {id};
    }
  }

  method HighestGap(st: State) returns (m: nat)
    ensures forall id :: id in st.gaps ==> st.gaps[id].spoolSeq <= m
    ensures m != 0 ==> exists id :: id in st.gaps && st.gaps[id].spoolSeq == m
  {
    m := 0;
    var rest := st.gaps.Keys;
    while rest != {}
      invariant rest <= st.gaps.Keys
      invariant forall id :: id in st.gaps && id !in rest ==> st.gaps[id].spoolSeq <= m
      invariant m != 0 ==> exists id :: id in st.gaps && st.gaps[id].spoolSeq == m
      decreases |rest|
    {
      var id :| id in rest;
      if st.gaps[id].spoolSeq > m { m := st.gaps[id].spoolSeq; }
      rest := rest - {id};
    }
  }

  /** The next number recovered from the files is the one after the last ever handed out. */
  lemma RecoveredNext(cfg: Config, run: Run, st: State, e: nat, g: nat)
    requires Legal(cfg, run) && EntriesAgree(st, End(run)) && GapsAgree(st, End(run).disk)
    requires (forall id :: id in st.entries ==> st.entries[id].spoolSeq <= e)
    requires (e != 0 ==> exists id :: id in st.entries && st.entries[id].spoolSeq == e)
    requires (forall id :: id in st.gaps ==> st.gaps[id].spoolSeq <= g)
    requires (g != 0 ==> exists id :: id in st.gaps && st.gaps[id].spoolSeq == g)
    ensures Max(Ledger(End(run).disk).next, Max(e + 1, g + 1)) == End(run).hist.next
  {
    var w := End(run);
    NextNumberFromDisk(cfg, run, |run.steps|);
    var stored := Ledger(w.disk).next;
    assert HasEntry(st, w, stored) && HasGap(st, w.disk, stored);
    if e != 0 {
      var id :| id in st.entries && st.entries[id].spoolSeq == e;
      assert EntryOnDisk(st, w, id);
      assert OnDisk(w.disk, e);
    }
    if g != 0 {
      var id :| id in st.gaps && st.gaps[id].spoolSeq == g;
      assert GapOnDisk(st, w.disk, id);
      assert OnDisk(w.disk, g);
    }
    if stored in w.disk.pending { assert stored <= e; }
    if stored in w.disk.gaps { assert stored <= g; }
    StoredNextPositive(cfg, run);
  }

  lemma StoredNextPositive(cfg: Config, run: Run)
    requires Legal(cfg, run)
    ensures 1 <= Ledger(End(run).disk).next && End(run).hist.next <= U64_MAX
  {
    EndKeeps(cfg, run);
  }

  /** No counted number carries another identity than its entry. */
  lemma CountedIdentities(cfg: Config, run: Run, st: State)
    requires Legal(cfg, run) && EntriesAgree(st, End(run))
    ensures forall id :: id in st.entries && st.entries[id].spoolSeq in Ledger(End(run).disk).counted ==>
              Ledger(End(run).disk).counted[st.entries[id].spoolSeq] == st.entries[id].stableId
  {
    forall id | id in st.entries && st.entries[id].spoolSeq in Ledger(End(run).disk).counted
      ensures Ledger(End(run).disk).counted[st.entries[id].spoolSeq] == st.entries[id].stableId
    {
      assert EntryOnDisk(st, End(run), id);
      FateAt(cfg, run, st.entries[id].spoolSeq);
    }
  }

  /** Loads the sequence state and the next number. */
  method LoadSequence(store: Store, st: State) returns (st': State)
    requires store.Valid() && !store.W().hist.damaged && EntriesAgree(st, store.W()) && GapsAgree(st, store.disk)
    ensures EntriesAgree(st', store.W()) && GapsAgree(st', store.disk) && Lagging(st', store.W())
    ensures st'.counted == Ledger(store.disk).counted
    ensures st' == st.(next := st'.next, expiredRecords := st'.expiredRecords, counted := st'.counted,
            v1Pruned := st'.v1Pruned)
  {
    var q := Ledger(store.disk);
    SequenceLoads(store.cfg, store.run);
    if q.next == 0 || |q.counted| > 1_000_000 || exists s :: s in q.counted && (s == 0 || s >= q.next) { assert false; }
    var e := HighestEntry(st);
    var g := HighestGap(st);
    RecoveredNext(store.cfg, store.run, st, e, g);
    StoredNextPositive(store.cfg, store.run);
    if e + 1 > U64_MAX || g + 1 > U64_MAX { assert false; }
    CountedIdentities(store.cfg, store.run, st);
    if exists id :: id in st.entries && st.entries[id].spoolSeq in q.counted
        && q.counted[st.entries[id].spoolSeq] != st.entries[id].stableId {
      assert false;
    }
    st' := st.(next := Max(q.next, Max(e + 1, g + 1)), expiredRecords := q.expiredTotal, counted := q.counted,
        v1Pruned := q.v1Pruned);
    EntriesUntouched(st, st', store.W(), store.W());
    GapsUntouched(st, st', store.disk, store.disk);
    forall s ensures Lags(st', store.disk, s) { }
  }

  // ---------------------------------------------------------------------------
  // Receipts
  // ---------------------------------------------------------------------------

  /** A receipt file passes the checks of `recover_receipts`, whichever receipts were loaded before it. */
  lemma ReceiptLoads(cfg: Config, run: Run, st: State, loaded: map<nat, Receipt>, n: nat)
    requires Legal(cfg, run) && PartOf(loaded, End(run).disk.receipts) && n in End(run).disk.receipts && n !in loaded
    requires ReceiptsAgree(st, End(run).disk.(receipts := loaded))
    ensures var r := End(run).disk.receipts[n];
            && ReceiptShape(r) && r.sequence == n && r.batchId !in st.receipts
            && ReceiptLength(r) + ENCRYPTION_OVERHEAD <= MAX_ENCRYPTED_RECEIPT_BYTES
  {
    var d, r := End(run).disk, End(run).disk.receipts[n];
    ReceiptFormed(cfg, run, n);
    if r.batchId in st.receipts {
      assert ReceiptOnDisk(st, d.(receipts := loaded), r.batchId);
      ReceiptsApart(cfg, run, n, st.receipts[r.batchId].sequence);
    }
    ExactAt(cfg, run, n);
    forall a | a in r.admissions ensures a.spoolSeq <= U64_MAX { NumberIsU64(cfg, run, a.spoolSeq); }
    ReceiptIsReadable(r);
  }

  lemma ReceiptFormed(cfg: Config, run: Run, n: nat)
    requires Legal(cfg, run) && n in End(run).disk.receipts
    ensures ReceiptShape(End(run).disk.receipts[n]) && End(run).disk.receipts[n].sequence == n
  {
    EndKeeps(cfg, run);
  }

  lemma ReceiptsApart(cfg: Config, run: Run, n: nat, m: nat)
    requires Legal(cfg, run) && n in End(run).disk.receipts && m in End(run).disk.receipts
    requires End(run).disk.receipts[n].batchId == End(run).disk.receipts[m].batchId
    ensures n == m
  {
    EndKeeps(cfg, run);
  }

  /** The number after the highest sequence, 0 without receipts. */
  ghost predicate NextAfter(receipts: map<nat, Receipt>, n: nat) {
    && (forall m :: m in receipts ==> m < n)
    && (if receipts == map[] then n == 0 else n > 0 && n - 1 in receipts)
  }

  method LoadReceipt(store: Store, st: State, n: nat, ghost loaded: map<nat, Receipt>) returns (st': State)
    requires store.Valid() && PartOf(loaded, store.disk.receipts) && n in store.disk.receipts && n !in loaded
    requires ReceiptsAgree(st, store.disk.(receipts := loaded))
    requires NextAfter(loaded, st.nextReceipt)
    ensures ReceiptsAgree(st', store.disk.(receipts := loaded[n := store.disk.receipts[n]]))
    ensures st' == st.(receipts := st'.receipts, nextReceipt := st'.nextReceipt)
    ensures NextAfter(loaded[n := store.disk.receipts[n]], st'.nextReceipt)
  {
    var r := store.disk.receipts[n];
    ReceiptLoads(store.cfg, store.run, st, loaded, n);
    if ReceiptLength(r) + ENCRYPTION_OVERHEAD > MAX_ENCRYPTED_RECEIPT_BYTES || !ReceiptShape(r)
        || r.sequence != n || r.batchId in st.receipts {
      assert false;
    }
    var d := store.disk.(receipts := loaded);
    var st1 := st.(nextReceipt := Max(st.nextReceipt, SaturatingAddU64(r.sequence, 1)));
    ReceiptsUntouched(st, st1, d, d);
    ReceiptsAfterWrite(st1, d, r);
    st' := st1.(receipts := st.receipts[r.batchId := r]);
  }

  /** The first half of `recover_receipts`: all receipt files load, in any order. */
  method LoadReceipts(store: Store, st: State) returns (st': State)
    requires store.Valid() && st.receipts == map[] && st.nextReceipt == 0
    ensures NextAfter(store.disk.receipts, st'.nextReceipt)
    ensures ReceiptsAgree(st', store.disk) && st' == st.(receipts := st'.receipts, nextReceipt := st'.nextReceipt)
  {
    st' := st;
    var rest := store.disk.receipts.Keys;
    ghost var loaded: map<nat, Receipt> := map[];
    while rest != {}
      invariant PartBut(loaded, store.disk.receipts, rest)
      invariant ReceiptsAgree(st', store.disk.(receipts := loaded))
      invariant st' == st.(receipts := st'.receipts, nextReceipt := st'.nextReceipt)
      invariant NextAfter(loaded, st'.nextReceipt)
      decreases |rest|
    {
      var n :| n in rest;
      PartMore(loaded, store.disk.receipts, rest, n);
      st' := LoadReceipt(store, st', n, loaded);
      loaded := loaded[n := store.disk.receipts[n]];
      rest := rest - {n};
    }
    PartAll(loaded, store.disk.receipts);
  }

  /** The numbers that receipts still to be carried out accept. */
  ghost function Unsettled(receipts: map<BatchId, Receipt>, rest: set<BatchId>): set<nat>
    requires rest <= receipts.Keys
  {
    set b, s | b in rest && s in ReceiptSeqs(receipts[b]) :: s
  }

  lemma AllUnsettled(st: State, w: World)
    requires ReceiptsAgree(st, w.disk)
    ensures SettledBut(w, Unsettled(st.receipts, st.receipts.Keys))
  {
    forall s | Accepted(w.disk.receipts, s)
      ensures s in Unsettled(st.receipts, st.receipts.Keys)
    {
      var n :| n in w.disk.receipts && s in ReceiptSeqs(w.disk.receipts[n]);
      assert HasReceipt(st, w.disk, n);
    }
  }

  /** Numbers accepted as records by the receipts carried out so far are no longer counted. */
  ghost predicate Uncounted(st: State, rest: set<BatchId>) {
    forall b, a :: b in st.receipts && b !in rest && a in st.receipts[b].admissions ==> a.spoolSeq !in st.counted
  }

  /** What may be gone at a number: only what a receipt accepts. */
  ghost predicate GoneAt(d0: Disk, d: Disk, s: nat) {
    && (s in d.pending ==> s in d0.pending && d.pending[s] == d0.pending[s])
    && (s in d.gaps ==> s in d0.gaps && d.gaps[s] == d0.gaps[s])
    && (s in d0.pending && s !in d.pending ==> Accepted(d0.receipts, s))
    && (s in d0.gaps && s !in d.gaps ==> Accepted(d0.receipts, s))
  }

  ghost predicate OnlyAcceptedGone(d0: Disk, d: Disk) {
    && d.receipts == d0.receipts && d.sequence == d0.sequence && d.established == d0.established
    && d.orphan == d0.orphan
    && d.quarantineFiles == d0.quarantineFiles && d.quarantineBytes == d0.quarantineBytes
    && forall s {:trigger GoneAt(d0, d, s)} :: GoneAt(d0, d, s)
  }

  lemma NothingGone(d: Disk)
    ensures OnlyAcceptedGone(d, d)
  {
    forall s ensures GoneAt(d, d, s) { }
  }

  lemma GoneTwice(a: Disk, b: Disk, c: Disk)
    requires OnlyAcceptedGone(a, b) && OnlyAcceptedGone(b, c)
    ensures OnlyAcceptedGone(a, c)
  {
    forall s ensures GoneAt(a, c, s) { assert GoneAt(a, b, s) && GoneAt(b, c, s); }
  }

  lemma GoneByReceipt(d0: Disk, st0: State, d: Disk, st: State, r: Receipt)
    requires CarriedOut(d0, st0, d, st, r) && r.sequence in d0.receipts && d0.receipts[r.sequence] == r
    ensures OnlyAcceptedGone(d0, d)
  {
    forall s ensures GoneAt(d0, d, s) { assert s in ReceiptSeqs(r) ==> Accepted(d0.receipts, s); }
  }

  /** The directory without what its receipts accept. */
  ghost function Cleaned(d: Disk): Disk {
    d.(pending := map s | s in d.pending && !Accepted(d.receipts, s) :: d.pending[s],
       gaps := map s | s in d.gaps && !Accepted(d.receipts, s) :: d.gaps[s])
  }

  lemma AllGone(d0: Disk, w: World)
    requires OnlyAcceptedGone(d0, w.disk) && AllSettled(w)
    ensures w.disk == Cleaned(d0)
  {
    var d := w.disk;
    forall s
      ensures s in d.pending <==> s in d0.pending && !Accepted(d0.receipts, s)
      ensures s in d.gaps <==> s in d0.gaps && !Accepted(d0.receipts, s)
      ensures s in d.pending ==> d.pending[s] == d0.pending[s]
      ensures s in d.gaps ==> d.gaps[s] == d0.gaps[s]
    {
      assert GoneAt(d0, d, s) && Settled(w, s);
    }
    assert d.pending == Cleaned(d0).pending && d.gaps == Cleaned(d0).gaps;
  }

  /** The second half of `recover_receipts`: every receipt is carried out, in any order. */
  method ApplyReceipts(store: Store, st: State) returns (st': State)
    requires store.Valid() && Cached(st, store.W()) && Lagging(st, store.W())
    modifies store
    ensures store.Valid() && Kept(old(store.run), store.run) && Cached(st', store.W()) && Lagging(st', store.W())
    ensures AllSettled(store.W()) && Uncounted(st', {})
    ensures OnlyAcceptedGone(old(store.disk), store.disk) && SameTotals(st, st')
  {
    KeptSame(store.run);
    NothingGone(store.disk);
    st' := st;
    var rest := st.receipts.Keys;
    AllUnsettled(st, store.W());
    while rest != {}
      invariant store.Valid() && Kept(old(store.run), store.run) && Cached(st', store.W()) && Lagging(st', store.W())
      invariant st'.receipts == st.receipts && rest <= st.receipts.Keys
      invariant SettledBut(store.W(), Unsettled(st.receipts, rest)) && Uncounted(st', rest)
      invariant OnlyAcceptedGone(old(store.disk), store.disk) && SameTotals(st, st')
      decreases |rest|
    {
      var b :| b in rest;
      ghost var mid, before := store.run, store.disk;
      st' := ApplyNext(store, st', b, rest);
      KeptTwice(old(store.run), mid, store.run);
      GoneTwice(old(store.disk), before, store.disk);
      rest := rest - {b};
    }
    assert Unsettled(st.receipts, {}) == {};
    AllSettledBut(store.W());
  }

  method ApplyNext(store: Store, st: State, b: BatchId, ghost rest: set<BatchId>) returns (st': State)
    requires store.Valid() && Cached(st, store.W()) && Lagging(st, store.W()) && b in rest && rest <= st.receipts.Keys
    requires SettledBut(store.W(), Unsettled(st.receipts, rest)) && Uncounted(st, rest)
    modifies store
    ensures store.Valid() && Kept(old(store.run), store.run) && Cached(st', store.W()) && Lagging(st', store.W())
    ensures SameTotals(st, st') && OnlyAcceptedGone(old(store.disk), store.disk)
    ensures SettledBut(store.W(), Unsettled(st.receipts, rest - {b})) && Uncounted(st', rest - {b})
  {
    ghost var w := store.W();
    assert ReceiptOnDisk(st, store.disk, b);
    st' := ApplyReceipt(store, st, st.receipts[b]);
    SettledAfter(w, store.W(), st, st', st.receipts[b], Unsettled(st.receipts, rest));
    GoneByReceipt(w.disk, st, store.disk, st', st.receipts[b]);
    FewerUnsettled(store.W(), st.receipts, rest, b);
  }

  lemma FewerUnsettled(w: World, receipts: map<BatchId, Receipt>, rest: set<BatchId>, b: BatchId)
    requires b in rest && rest <= receipts.Keys && SettledBut(w, Unsettled(receipts, rest) - ReceiptSeqs(receipts[b]))
    ensures SettledBut(w, Unsettled(receipts, rest - {b}))
  {
    forall s | s in Unsettled(receipts, rest) - ReceiptSeqs(receipts[b])
      ensures s in Unsettled(receipts, rest - {b})
    {
      var c :| c in rest && s in ReceiptSeqs(receipts[c]);
      assert c in rest - {b};
    }
    forall s | s !in Unsettled(receipts, rest - {b})
      ensures Settled(w, s)
    {
      assert s !in Unsettled(receipts, rest) - ReceiptSeqs(receipts[b]);
    }
  }

  // ---------------------------------------------------------------------------
  // Opening
  // ---------------------------------------------------------------------------

  function CountedNotice(s: nat, identity: RecordId): RecordId { NoticeFor(s, identity, 0, RetentionExpired).noticeId }

  /** A physical gap or a receipt for the gap explains a count whose pending file is gone. */
  predicate Explained(st: State, s: nat)
    requires s in st.counted
  {
    var id := CountedNotice(s, st.counted[s]);
    id in st.gaps || exists b :: b in st.receipts && id in st.receipts[b].gapIds
  }

  lemma CountIsExplained(cfg: Config, run: Run, st: State, s: nat)
    requires Legal(cfg, run) && !End(run).hist.damaged && Cached(st, End(run)) && Lagging(st, End(run))
    requires Uncounted(st, {})
    requires s in st.counted && s !in End(run).disk.pending
    ensures Explained(st, s)
  {
    var w := End(run);
    FateAt(cfg, run, s);
    assert Lags(st, w.disk, s) && HasGap(st, w.disk, s);
    if s !in w.disk.gaps {
      var n :| n in w.disk.receipts && s in ReceiptSeqs(w.disk.receipts[n]);
      ExactAt(cfg, run, n);
      assert HasReceipt(st, w.disk, n);
      var r := w.disk.receipts[n];
      var b := r.batchId;
      assert b in st.receipts && b !in {};
      if a :| a in r.admissions && a.spoolSeq == s { assert false; }
      var g :| g in r.gapIds && g.NoticeDigest? && g.spoolSeq == s;
      assert g == CountedNotice(s, st.counted[s]);
      assert g in st.receipts[b].gapIds;
    }
  }

  lemma PendingNumbers(st: State, w: World)
    requires EntriesAgree(st, w)
    ensures (set id | id in st.entries :: st.entries[id].spoolSeq) == w.disk.pending.Keys
  {
    forall s
      ensures s in (set id | id in st.entries :: st.entries[id].spoolSeq) <==> s in w.disk.pending
    {
      assert HasEntry(st, w, s);
      if id :| id in st.entries && st.entries[id].spoolSeq == s { assert EntryOnDisk(st, w, id); }
    }
  }

  function Among(counted: map<nat, RecordId>, pending: set<nat>): map<nat, RecordId> {
    map s | s in counted && s in pending :: counted[s]
  }

  /** Every count is explained; only those of pending numbers are kept. */
  method RetainCounted(store: Store, st: State) returns (st': State)
    requires store.Valid() && !store.W().hist.damaged && Cached(st, store.W()) && Lagging(st, store.W())
    requires Uncounted(st, {})
    requires store.disk.pending.Keys !! store.disk.gaps.Keys
    ensures Cached(st', store.W()) && Lagging(st', store.W()) && Tidy(st', store.W())
    ensures SameTotals(st, st') && SameEntries(st, st') && SameGaps(st, st')
    ensures st'.counted == Among(st.counted, store.disk.pending.Keys)
  {
    PendingNumbers(st, store.W());
    var pending := set id | id in st.entries :: st.entries[id].spoolSeq;
    forall s | s in st.counted && s !in pending
      ensures Explained(st, s)
    {
      CountIsExplained(store.cfg, store.run, st, s);
    }
    if exists s :: s in st.counted && s !in pending && !Explained(st, s) { assert false; }
    st' := st.(counted := Among(st.counted, pending));
    RetainedAgrees(st, store.W(), st');
  }

  lemma RetainedAgrees(st: State, w: World, st': State)
    requires Cached(st, w) && Lagging(st, w) && w.disk.pending.Keys !! w.disk.gaps.Keys
    requires SameTotals(st, st') && SameEntries(st, st') && SameGaps(st, st')
    requires st'.counted == Among(st.counted, w.disk.pending.Keys)
    ensures Cached(st', w) && Lagging(st', w) && Tidy(st', w)
  {
    EntriesUntouched(st, st', w, w);
    GapsUntouched(st, st', w.disk, w.disk);
    ReceiptsUntouched(st, st', w.disk, w.disk);
    forall s ensures Lags(st', w.disk, s) { assert Lags(st, w.disk, s); }
  }

  /** Loads all files into an empty state. */
  method Load(store: Store) returns (r: Result<bool>, st: State)
    requires store.Valid() && !store.W().hist.damaged
    modifies store
    ensures store.Valid() && Kept(old(store.run), store.run)
    ensures r.Ok? <==> AllShadowsFit(store.cfg, old(store.disk))
    ensures r.Err? ==> r.error.CapacityExceeded?
    ensures r.Ok? ==> Cached(st, store.W()) && Lagging(st, store.W()) && store.disk.pending.Keys !! store.disk.gaps.Keys
    ensures r.Ok? ==> store.disk == Unshadowed(old(store.disk))
    ensures r.Ok? ==> st.corruptRecords == store.disk.quarantineFiles && NextAfter(store.disk.receipts, st.nextReceipt)
  {
    st := EMPTY_STATE.(corruptRecords := store.disk.quarantineFiles);
    st := LoadGaps(store, st);
    r, st := LoadPending(store, st);
    if r.Err? { return; }
    st := LoadSequence(store, st);
    ghost var before := st;
    st := LoadReceipts(store, st);
    LoadedReceipts(before, st, store.W());
  }

  lemma LoadedReceipts(st: State, st': State, w: World)
    requires EntriesAgree(st, w) && GapsAgree(st, w.disk) && Lagging(st, w) && ReceiptsAgree(st', w.disk)
    requires st' == st.(receipts := st'.receipts, nextReceipt := st'.nextReceipt)
    ensures Cached(st', w) && Lagging(st', w)
  {
    EntriesUntouched(st, st', w, w);
    GapsUntouched(st, st', w.disk, w.disk);
    forall s ensures Lags(st', w.disk, s) { assert Lags(st, w.disk, s); }
  }

  /** The next number as the files tell it. */
  ghost function NextOf(d: Disk): nat { if OnDisk(d, Ledger(d).next) then Ledger(d).next + 1 else Ledger(d).next }

  /** The directory recovery makes of a directory: a shadowed file is in quarantine, what receipts accept
      is gone, and the sequence state has caught up. */
  ghost function Rebuilt(d: Disk): Disk {
    var c := Cleaned(Unshadowed(d));
    var counted := Among(Ledger(d).counted, c.pending.Keys);
    c.(sequence := Some(SequenceState(NextOf(d), Ledger(d).expiredTotal, counted, Ledger(d).v1Pruned)))
  }

  /** The state counts what the sequence state counts among the pending numbers. */
  lemma RetainedCounts(st: State, w: World, counted: map<nat, RecordId>)
    requires Lagging(st, w) && counted == Among(st.counted, w.disk.pending.Keys)
    ensures counted == Among(Ledger(w.disk).counted, w.disk.pending.Keys)
  {
    forall s
      ensures s in counted <==> s in Ledger(w.disk).counted && s in w.disk.pending
      ensures s in counted ==> counted[s] == Ledger(w.disk).counted[s]
    {
      assert Lags(st, w.disk, s);
    }
  }

  lemma StillDisjoint(d0: Disk, d: Disk)
    requires OnlyAcceptedGone(d0, d) && d0.pending.Keys !! d0.gaps.Keys
    ensures d.pending.Keys !! d.gaps.Keys
  {
    forall s | s in d.pending ensures s !in d.gaps { assert GoneAt(d0, d, s); }
  }

  lemma UnshadowedKeeps(d: Disk)
    ensures Unshadowed(d).sequence == d.sequence && Unshadowed(d).receipts == d.receipts
  {
  }

  lemma RebuiltFiles(cfg: Config, run: Run, d: Disk, w: World, st: State, d': Disk)
    requires Legal(cfg, run) && End(run).disk == d && w.hist.next == End(run).hist.next
    requires OnlyAcceptedGone(Unshadowed(d), w.disk) && AllSettled(w) && Lagging(st, w)
    requires st.counted == Among(Ledger(w.disk).counted, w.disk.pending.Keys)
    requires d' == w.disk.(sequence := Some(SequenceOf(st)))
    ensures d' == Rebuilt(d)
  {
    AllGone(Unshadowed(d), w);
    UnshadowedKeeps(d);
    NextNumberFromDisk(cfg, run, |run.steps|);
  }

  /** What a rebuilt state fixes beyond agreement. */
  ghost predicate Counters(st: State, d: Disk) {
    st.corruptRecords == d.quarantineFiles && NextAfter(d.receipts, st.nextReceipt)
  }

  /** The part of `recover` before anything expires: the directory becomes `Rebuilt`, the state agrees
      with it in every field, and the queue is what the stop left. */
  method Rebuild(store: Store) returns (r: Result<bool>, st: State)
    requires store.Valid() && !store.W().hist.damaged
    modifies store
    ensures store.Valid() && Kept(old(store.run), store.run)
    ensures r.Ok? <==> AllShadowsFit(store.cfg, old(store.disk))
    ensures r.Err? ==> r.error.CapacityExceeded?
    ensures r.Ok? ==> Steady(st, store.W())
    ensures r.Ok? ==> store.disk == Rebuilt(old(store.disk)) && Counters(st, store.disk)
  {
    ghost var start, d := store.run, store.disk;
    r, st := Load(store);
    if r.Err? { return; }
    ghost var loaded := store.run;
    st := ApplyReceipts(store, st);
    KeptTwice(old(store.run), loaded, store.run);
    ghost var applied, before := store.run, st;
    StillDisjoint(End(loaded).disk, store.disk);
    st := RetainCounted(store, st);
    RetainedCounts(before, store.W(), st.counted);
    Persist(store, st);
    KeptTwice(old(store.run), applied, store.run);
    SteadyPersisted(st, End(applied), store.W());
    RebuiltFiles(store.cfg, start, d, End(applied), st, store.disk);
  }

  /** Two rebuilds of one directory, whatever order its files are listed in, give the same directory and
      the same state, all fields included. */
  lemma RebuildIsDetermined(d: Disk, a: State, wa: World, b: State, wb: World)
    requires wa.disk == Rebuilt(d) && wb.disk == Rebuilt(d) && wa.hist == wb.hist
    requires Cached(a, wa) && Synced(a, wa) && Counters(a, wa.disk) && Cached(b, wb) && Synced(b, wb)
    requires Counters(b, wb.disk)
    ensures a == b
  {
    assert wa == wb;
    AgreementIsUnique(a, b, wa);
  }

  lemma KeepsThenExpires(a: Run, b: Run, c: Run, now: int)
    requires Kept(a, b) && !End(a).hist.damaged && Continues(b, c) && Expires(b, c, now)
    ensures Expires(a, c, now)
  {
    var v := View(End(a).disk);
    VisitsWider(b, |a.steps|, {v}, {v, Expire(v, DueNow(v, now))});
    VisitsJoin(b, c, |a.steps|, {v, Expire(v, DueNow(v, now))});
  }

  /** `recover`, with the checks of `open` around it. */
  method Recover(store: Store, now: int) returns (r: Result<bool>, st: State)
    requires store.Valid() && !store.W().hist.damaged
    modifies store
    ensures store.Valid() && Continues(old(store.run), store.run)
    ensures OnlyExpired(old(store.W()).hist, store.W().hist)
    ensures r.Ok? <==> CanReopen(store.cfg, old(store.disk))
    ensures r.Ok? ==> Steady(st, store.W()) && Expires(old(store.run), store.run, now) && store.disk.established
    ensures r.Ok? ==> OnlyWhenFull(store.cfg, st) && |st.receipts| <= MAX_ACK_RECEIPTS
    ensures r.Err? ==> r.error == if old(store.disk).orphan then CorruptRecord else CapacityExceeded
    ensures r.Err? ==> Kept(old(store.run), store.run)
  {
    KeptSame(store.run);
    DirectoryIsSound(store.cfg, store.run);
    st := EMPTY_STATE;
    if store.disk.established && store.disk.sequence.None? { assert false; }
    if store.disk.quarantineFiles > store.cfg.maxRecords
        || store.disk.quarantineBytes > store.cfg.maxBytes { assert false; }
    if store.disk.orphan { return Err(CorruptRecord), st; }
    r, st := Rebuild(store);
    if r.Err? { return; }
    ghost var rebuilt := store.run;
    var expired;
    expired, st := ExpireDue(store, st, now);
    if expired.Err? { assert false; }
    KeepsThenExpires(old(store.run), rebuilt, store.run, now);
    ghost var mid, before := store.run, st;
    st := Finish(store, st);
    FullSame(store.cfg, before, st);
    ExpiresThenKeeps(old(store.run), mid, store.run, now);
  }

  lemma DirectoryIsSound(cfg: Config, run: Run)
    requires Legal(cfg, run)
    ensures End(run).disk.established ==> End(run).disk.sequence.Some?
    ensures End(run).disk.quarantineFiles <= cfg.maxRecords && End(run).disk.quarantineBytes <= cfg.maxBytes
  {
    EndKeeps(cfg, run);
  }

  /** Prunes receipts and writes the format marker. */
  method Finish(store: Store, st: State) returns (st': State)
    requires store.Valid() && Steady(st, store.W())
    modifies store
    ensures store.Valid() && Steady(st', store.W()) && Kept(old(store.run), store.run) && store.disk.established
    ensures SameEntries(st, st') && SameGaps(st, st') && st'.counted == st.counted && |st'.receipts| <= MAX_ACK_RECEIPTS
  {
    KeptSame(store.run);
    st' := PruneReceipts(store, st);
    if !store.disk.established {
      ghost var w, mid := store.W(), store.run;
      Tend(store, WriteFormat);
      KeptTwice(old(store.run), mid, store.run);
      SteadyWithFormat(st', w, store.W());
    }
  }

  lemma SteadyWithFormat(st: State, w: World, w': World)
    requires Steady(st, w) && w'.hist == w.hist && w'.disk == w.disk.(established := true)
    ensures Steady(st, w')
  {
    EntriesUntouched(st, st, w, w');
    GapsUntouched(st, st, w.disk, w'.disk);
    ReceiptsUntouched(st, st, w.disk, w'.disk);
    forall s ensures Settled(w', s) && Lags(st, w'.disk, s) { assert Settled(w, s) && Lags(st, w.disk, s); }
  }
}
