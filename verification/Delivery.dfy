/** Building version 2 batches from the state and the files. */
module Delivery {
  import opened Finite
  import opened Json
  import opened Wire
  import opened Limits
  import opened Durable
  import opened Invariant
  import opened Safety
  import opened Cache
  import opened Machine
  import opened Expiry
  import opened Batch

  // ---------------------------------------------------------------------------
  // Reading and quarantining one entry
  // ---------------------------------------------------------------------------

  /** `read_entry` */
  function ReadEntry(d: Disk, e: Entry): Result<StoredRecord> {
    if e.spoolSeq !in d.pending || FileSize(d.pending[e.spoolSeq]) > MAX_ENCRYPTED_RECORD_BYTES then Err(CorruptRecord)
    else match d.pending[e.spoolSeq].contents
      case Corrupt(_) => Err(CorruptRecord)
      case Intact(r) =>
        if ValidStored(r) && r.recordId == e.recordId && r.stableId == Some(e.stableId)
            && r.spoolSeq == Some(e.spoolSeq)
        then Ok(r) else Err(CorruptRecord)
  }

  /** An entry reads back as the record it was admitted as, unless its file was altered from outside. */
  lemma ReadEntryIsExact(cfg: Config, run: Run, st: State, e: Entry)
    requires Legal(cfg, run) && Cached(st, End(run)) && IsEntry(st, e)
    ensures var w, s := End(run), e.spoolSeq;
            && s in w.disk.pending && s in w.hist.admitted
            && (if w.disk.pending[s].contents.Intact? then ReadEntry(w.disk, e) == Ok(w.hist.admitted[s])
                else ReadEntry(w.disk, e) == Err(CorruptRecord) && w.hist.damaged)
  {
    EntryFacts(st, End(run), e);
    FateAt(cfg, run, e.spoolSeq);
    AdmittedIsValid(cfg, run, e.spoolSeq);
    ReadsBack(End(run), e);
  }

  lemma AdmittedIsValid(cfg: Config, run: Run, s: nat)
    requires Legal(cfg, run) && s in End(run).hist.admitted
    ensures ValidStored(End(run).hist.admitted[s])
  {
    AdmittedIsAdmissible(cfg, run, |run.steps|, s);
  }

  lemma ReadsBack(w: World, e: Entry)
    requires Fate(w, e.spoolSeq) && e.spoolSeq in w.disk.pending && e.spoolSeq in w.hist.admitted
    requires e == EntryOf(e.spoolSeq, w.hist.admitted[e.spoolSeq], w.disk.pending[e.spoolSeq].bytes)
    requires ValidStored(w.hist.admitted[e.spoolSeq])
    ensures if w.disk.pending[e.spoolSeq].contents.Intact? then ReadEntry(w.disk, e) == Ok(w.hist.admitted[e.spoolSeq])
            else ReadEntry(w.disk, e) == Err(CorruptRecord) && w.hist.damaged
  {
  }

  lemma QuarantineMayGap(cfg: Config, run: Run, st: State, e: Entry)
    requires Legal(cfg, run) && Loose(st, End(run)) && IsEntry(st, e)
    requires e.spoolSeq in End(run).disk.pending && End(run).disk.pending[e.spoolSeq].contents.Corrupt?
    requires InI64(e.admittedAt)
    ensures e.spoolSeq !in End(run).disk.gaps ==>
              MayGap(End(run), NoticeFor(e.spoolSeq, e.stableId, e.admittedAt, IntegrityQuarantine))
    ensures End(run).hist.damaged
    ensures forall id :: id in st.entries && st.entries[id].spoolSeq == e.spoolSeq ==>
            st.entries[id].recordId == e.recordId
  {
    var w := End(run);
    EntryFacts(st, w, e);
    FateAt(cfg, run, e.spoolSeq);
    assert Settled(w, e.spoolSeq);
    forall id | id in st.entries && st.entries[id].spoolSeq == e.spoolSeq
      ensures st.entries[id].recordId == e.recordId
    {
      assert EntryOnDisk(st, w, id);
      EntryNumbersDiffer(st, w, id, e.recordId);
    }
  }

  lemma AdmittedInI64(cfg: Config, run: Run, st: State, e: Entry)
    requires Legal(cfg, run) && Cached(st, End(run)) && IsEntry(st, e)
    ensures InI64(e.admittedAt)
  {
    EntryFacts(st, End(run), e);
    AdmittedIsAdmissible(cfg, run, |run.steps|, e.spoolSeq);
  }

  /** The directories differ at one number only. */
  ghost predicate Apart(d: Disk, d': Disk, s: nat) {
    d'.pending - {s} == d.pending - {s} && d'.gaps - {s} == d.gaps - {s}
  }

  /** Whether or not its gap was written, the file is still there. */
  lemma GapWritten(d: Disk, d': Disk, s: nat, n: GapNotice, ok: bool)
    requires s in d.pending && (d' == ApplyDisk(d, WriteGap(s, n)) || (d' == d && (ok ==> s in d.gaps)))
    ensures Apart(d, d', s) && s in d'.pending && d'.quarantineFiles == d.quarantineFiles
    ensures ok ==> s in d'.gaps && (s !in d.gaps ==> d'.gaps[s] == n)
  {
  }

  /** `quarantine_runtime_entry`: an integrity gap is durable before the file moves away; the entry
      goes and no other does. */
  method QuarantineEntry(store: Store, st: State, e: Entry) returns (r: Result<bool>, st': State)
    requires store.Valid() && Loose(st, store.W()) && IsEntry(st, e)
    requires e.spoolSeq in store.disk.pending && store.disk.pending[e.spoolSeq].contents.Corrupt?
    modifies store
    ensures store.Valid() && Loose(st', store.W()) && Kept(old(store.run), store.run) && SameReceipts(st, st')
    ensures r.Ok? ==>
              && st'.entries == st.entries - {e.recordId} && st'.gaps != map[]
              && Apart(old(store.disk), store.disk, e.spoolSeq)
    ensures r.Ok? ==>
              e.spoolSeq !in store.disk.pending && store.disk.quarantineFiles == old(store.disk.quarantineFiles) + 1
    ensures r.Ok? && e.spoolSeq !in old(store.disk.gaps) ==>
              e.spoolSeq in store.disk.gaps
                  && store.disk.gaps[e.spoolSeq] == NoticeFor(e.spoolSeq, e.stableId, e.admittedAt, IntegrityQuarantine)
    ensures r.Ok? <==>
            && GapPossible(store.cfg, old(store.disk), e)
            && old(store.disk.quarantineFiles) < store.cfg.maxRecords
            && old(store.disk.quarantineBytes + FileSize(store.disk.pending[e.spoolSeq])) <= store.cfg.maxBytes
  {
    if e.recordId !in st.entries { assert false; }
    ghost var d := store.disk;
    r, st' := PersistDamaged(store, st, e);
    if r.Err? { return; }
    ghost var mid, dm := store.run, store.disk;
    r, st' := QuarantineFile(store, st', e);
    KeptTwice(old(store.run), mid, store.run);
    if r.Ok? { ApartTwice(d, dm, store.disk, e.spoolSeq); }
  }

  /** The integrity gap of the entry is there already, or no other gap has its number and it fits. */
  ghost predicate GapPossible(cfg: Config, d: Disk, e: Entry) {
    var n := NoticeFor(e.spoolSeq, e.stableId, e.admittedAt, IntegrityQuarantine);
    if e.spoolSeq in d.gaps then d.gaps[e.spoolSeq].noticeId == n.noticeId
    else Total(GapSizes(d.gaps)) + GapBytes(n) <= cfg.maxBytes
  }

  /** `persist_gap_locked` for a damaged entry. */
  method PersistDamaged(store: Store, st: State, e: Entry) returns (r: Result<bool>, st': State)
    requires store.Valid() && Loose(st, store.W()) && IsEntry(st, e)
    requires e.spoolSeq in store.disk.pending && store.disk.pending[e.spoolSeq].contents.Corrupt?
    modifies store
    ensures store.Valid() && Loose(st', store.W()) && Kept(old(store.run), store.run) && store.W().hist.damaged
    ensures SameTotals(st, st') && SameEntries(st, st') && st'.counted == st.counted
    ensures Apart(old(store.disk), store.disk, e.spoolSeq)
    ensures e.spoolSeq in store.disk.pending && (r.Ok? ==> e.spoolSeq in store.disk.gaps)
    ensures store.disk.quarantineFiles == old(store.disk.quarantineFiles)
    ensures r.Ok? && e.spoolSeq !in old(store.disk.gaps) ==>
              store.disk.gaps[e.spoolSeq] == NoticeFor(e.spoolSeq, e.stableId, e.admittedAt, IntegrityQuarantine)
    ensures r.Ok? <==> GapPossible(store.cfg, old(store.disk), e)
    ensures store.disk.pending == old(store.disk.pending)
    ensures store.disk.quarantineBytes == old(store.disk.quarantineBytes)
  {
    ghost var w := store.W();
    AdmittedInI64(store.cfg, store.run, st, e);
    QuarantineMayGap(store.cfg, store.run, st, e);
    r, st' := PersistGap(store, st, e, e.admittedAt, IntegrityQuarantine);
    LooseAfterGap(st, w, st', store.W(), e.spoolSeq);
    GapWritten(w.disk, store.disk, e.spoolSeq, NoticeFor(e.spoolSeq, e.stableId, e.admittedAt, IntegrityQuarantine),
               r.Ok?);
  }

  /** Moves a damaged file, for which a gap is durable, to quarantine if there is room. */
  method QuarantineFile(store: Store, st: State, e: Entry) returns (r: Result<bool>, st': State)
    requires store.Valid() && Loose(st, store.W()) && IsEntry(st, e) && store.W().hist.damaged
    requires e.spoolSeq in store.disk.pending && e.spoolSeq in store.disk.gaps
    modifies store
    ensures store.Valid() && Loose(st', store.W()) && Kept(old(store.run), store.run) && SameReceipts(st, st')
    ensures r.Ok? ==>
              && st'.entries == st.entries - {e.recordId} && st'.gaps != map[]
              && Apart(old(store.disk), store.disk, e.spoolSeq)
    ensures r.Ok? ==>
              e.spoolSeq !in store.disk.pending && store.disk.quarantineFiles == old(store.disk.quarantineFiles) + 1
    ensures store.disk.gaps == old(store.disk.gaps)
    ensures r.Ok? <==>
            && old(store.disk.quarantineFiles) < store.cfg.maxRecords
            && old(store.disk.quarantineBytes + FileSize(store.disk.pending[e.spoolSeq])) <= store.cfg.maxBytes
  {
    KeptSame(store.run);
    if !QuarantineRoom(store.cfg, store.disk, FileSize(store.disk.pending[e.spoolSeq])) {
      return Err(CapacityExceeded), st;
    }
    st' := MoveDamaged(store, st, e);
    r := Ok(true);
  }

  method MoveDamaged(store: Store, st: State, e: Entry) returns (st': State)
    requires store.Valid() && Loose(st, store.W()) && IsEntry(st, e) && store.W().hist.damaged
    requires e.spoolSeq in store.disk.pending && e.spoolSeq in store.disk.gaps
    requires QuarantineRoom(store.cfg, store.disk, FileSize(store.disk.pending[e.spoolSeq]))
    modifies store
    ensures store.Valid() && Loose(st', store.W()) && Kept(old(store.run), store.run) && SameReceipts(st, st')
    ensures st'.entries == st.entries - {e.recordId} && st'.gaps != map[]
    ensures Apart(old(store.disk), store.disk, e.spoolSeq) && e.spoolSeq !in store.disk.pending
    ensures store.disk.quarantineFiles == old(store.disk.quarantineFiles) + 1 && store.disk.gaps == old(store.disk.gaps)
  {
    ghost var w := store.W();
    EntriesAfterRemoval(st, w, e, true);
    MovedAway(w.disk, e.spoolSeq);
    Tend(store, RemovePending(e.spoolSeq, true));
    st' := DropEntry(st, e).(corruptRecords := SaturatingAddU64(st.corruptRecords, 1));
    assert HasGap(st, w.disk, e.spoolSeq);
    LooseAfterQuarantine(st, w, st', store.W(), e);
  }

  lemma MovedAway(d: Disk, s: nat)
    requires s in d.pending
    ensures var d' := ApplyDisk(d, RemovePending(s, true));
            s !in d'.pending && d'.quarantineFiles == d.quarantineFiles + 1 && d'.gaps == d.gaps && Apart(d, d', s)
  {
  }

  lemma ApartTwice(a: Disk, b: Disk, c: Disk, s: nat)
    requires Apart(a, b, s) && Apart(b, c, s)
    ensures Apart(a, c, s)
  {
  }

  lemma LooseAfterGap(st: State, w: World, st': State, w': World, s: nat)
    requires Loose(st, w) && w.hist.damaged && s in w.disk.pending && w'.hist == w.hist
    requires w'.disk == w.disk || (exists n :: w'.disk == ApplyDisk(w.disk, WriteGap(s, n)))
    requires GapsAgree(st', w'.disk) && SameTotals(st, st') && SameEntries(st, st') && st'.counted == st.counted
    ensures Loose(st', w')
  {
    CachedAfterGap(st, w, st', w');
    forall t ensures Settled(w', t) { assert Settled(w, t) && Settled(w, s); }
  }

  lemma LooseAfterQuarantine(st: State, w: World, st': State, w': World, e: Entry)
    requires Loose(st, w) && w.hist.damaged && w'.hist == w.hist && e.spoolSeq in w.disk.pending
    requires w'.disk == ApplyDisk(w.disk, RemovePending(e.spoolSeq, true)) && EntriesAgree(DropEntry(st, e), w')
    requires st' == DropEntry(st, e).(corruptRecords := st'.corruptRecords)
    ensures Loose(st', w')
  {
    EntriesUntouched(DropEntry(st, e), st', w', w');
    GapsUntouched(st, st', w.disk, w'.disk);
    ReceiptsUntouched(st, st', w.disk, w'.disk);
    forall t ensures Settled(w', t) && Lags(st', w'.disk, t) { assert Settled(w, t) && Lags(st, w.disk, t); }
  }

  // ---------------------------------------------------------------------------
  // Candidates in sequence order
  // ---------------------------------------------------------------------------

  datatype Candidate = OfEntry(entry: Entry) | OfGap(notice: GapNotice)

  function NumberOf(c: Candidate): nat { match c case OfEntry(e) => e.spoolSeq case OfGap(n) => n.spoolSeq }

  function WithNumber(c: Candidate): Keyed<Candidate> { Keyed(NumberOf(c), 0, c) }

  ghost predicate IsCandidate(st: State, c: Candidate) {
    match c
    case OfEntry(e) => IsEntry(st, e)
    case OfGap(n) => n.noticeId in st.gaps && st.gaps[n.noticeId] == n
  }

  method ListEntries(st: State, ghost w: World) returns (keyed: seq<Keyed<Candidate>>)
    requires EntriesAgree(st, w)
    ensures forall k :: k in keyed <==> k == WithNumber(k.value) && k.value.OfEntry? && IsCandidate(st, k.value)
    ensures DifferentKeys(keyed)
  {
    keyed := [];
    var rest := st.entries.Keys;
    while rest != {}
      invariant rest <= st.entries.Keys
      invariant forall k :: k in keyed <==>
                  k == WithNumber(k.value) && k.value.OfEntry? && IsCandidate(st, k.value)
                      && k.value.entry.recordId !in rest
      invariant DifferentKeys(keyed)
      decreases |rest|
    {
      var id :| id in rest;
      assert EntryOnDisk(st, w, id);
      forall i | 0 <= i < |keyed|
        ensures keyed[i].major != st.entries[id].spoolSeq
      {
        assert keyed[i] in keyed;
        if keyed[i].major == st.entries[id].spoolSeq { EntryNumbersDiffer(st, w, id, keyed[i].value.entry.recordId); }
      }
      keyed := keyed + [WithNumber(OfEntry(st.entries[id]))];
      rest := rest - {id};
    }
  }

  method ListGaps(st: State, ghost d: Disk) returns (keyed: seq<Keyed<Candidate>>)
    requires GapsAgree(st, d)
    ensures forall k :: k in keyed <==> k == WithNumber(k.value) && k.value.OfGap? && IsCandidate(st, k.value)
    ensures DifferentKeys(keyed)
  {
    keyed := [];
    var rest := st.gaps.Keys;
    while rest != {}
      invariant rest <= st.gaps.Keys
      invariant forall k :: k in keyed <==>
                  k == WithNumber(k.value) && k.value.OfGap? && IsCandidate(st, k.value)
                      && k.value.notice.noticeId !in rest
      invariant DifferentKeys(keyed)
      decreases |rest|
    {
      var id :| id in rest;
      assert GapOnDisk(st, d, id);
      forall i | 0 <= i < |keyed|
        ensures keyed[i].major != st.gaps[id].spoolSeq
      {
        assert keyed[i] in keyed;
        assert GapOnDisk(st, d, keyed[i].value.notice.noticeId);
      }
      keyed := keyed + [WithNumber(OfGap(st.gaps[id]))];
      rest := rest - {id};
    }
  }

  ghost predicate AreCandidates(st: State, cands: seq<Candidate>) { forall c :: c in cands <==> IsCandidate(st, c) }

  predicate InOrder(cands: seq<Candidate>) {
    forall i, j :: 0 <= i < j < |cands| ==> NumberOf(cands[i]) < NumberOf(cands[j])
  }

  lemma JoinedDiffer(st: State, w: World, es: seq<Keyed<Candidate>>, gs: seq<Keyed<Candidate>>)
    requires Cached(st, w) && w.disk.pending.Keys !! w.disk.gaps.Keys
    requires forall k :: k in es ==> k == WithNumber(k.value) && k.value.OfEntry? && IsCandidate(st, k.value)
    requires forall k :: k in gs ==> k == WithNumber(k.value) && k.value.OfGap? && IsCandidate(st, k.value)
    requires DifferentKeys(es) && DifferentKeys(gs)
    ensures DifferentKeys(es + gs)
  {
    forall i, j | 0 <= i < |es| && 0 <= j < |gs|
      ensures !SameKey(es[i], gs[j])
    {
      assert es[i] in es && gs[j] in gs;
      EntryFacts(st, w, es[i].value.entry);
      assert GapOnDisk(st, w.disk, gs[j].value.notice.noticeId);
    }
  }

  /** The candidates sorted by sequence number; none if two of them share one. */
  method Candidates(st: State, ghost w: World) returns (r: Result<seq<Candidate>>)
    requires Cached(st, w)
    ensures r.Err? ==> !(w.disk.pending.Keys !! w.disk.gaps.Keys)
    ensures r.Ok? ==> AreCandidates(st, r.value) && InOrder(r.value)
  {
    var es := ListEntries(st, w);
    var gs := ListGaps(st, w.disk);
    var sorted := Sort(es + gs);
    if w.disk.pending.Keys !! w.disk.gaps.Keys {
      JoinedDiffer(st, w, es, gs);
      SortStrictly(es + gs);
    }
    forall i | 0 <= i < |sorted| ensures sorted[i].minor == 0 { assert sorted[i] in es + gs; }
    if exists i :: 0 <= i < |sorted| - 1 && sorted[i].major == sorted[i + 1].major {
      return Err(CorruptRecord);
    }
    SortedIsCandidates(st, es, gs, sorted);
    r := Ok(seq(|sorted|, i requires 0 <= i < |sorted| => sorted[i].value));
  }

  lemma SortedIsCandidates(st: State, es: seq<Keyed<Candidate>>, gs: seq<Keyed<Candidate>>,
                           sorted: seq<Keyed<Candidate>>)
    requires forall k :: k in es <==> k == WithNumber(k.value) && k.value.OfEntry? && IsCandidate(st, k.value)
    requires forall k :: k in gs <==> k == WithNumber(k.value) && k.value.OfGap? && IsCandidate(st, k.value)
    requires (forall k :: k in sorted <==> k in es + gs) && Ascending(sorted)
    requires forall i :: 0 <= i < |sorted| - 1 ==> sorted[i].major != sorted[i + 1].major
    ensures var cands := seq(|sorted|, i requires 0 <= i < |sorted| => sorted[i].value);
            AreCandidates(st, cands) && InOrder(cands)
  {
    var cands := seq(|sorted|, i requires 0 <= i < |sorted| => sorted[i].value);
    forall i | 0 <= i < |sorted|
      ensures sorted[i] == WithNumber(cands[i]) && IsCandidate(st, cands[i])
    {
      assert sorted[i] in es + gs;
    }
    forall c | IsCandidate(st, c)
      ensures c in cands
    {
      assert WithNumber(c) in es + gs;
      var i :| 0 <= i < |sorted| && sorted[i] == WithNumber(c);
      assert cands[i] == c;
    }
    forall i, j | 0 <= i < j < |cands|
      ensures NumberOf(cands[i]) < NumberOf(cands[j])
    {
      assert sorted[i + 1].major <= sorted[j].major;
      assert sorted[i].major < sorted[i + 1].major;
    }
  }

  // ---------------------------------------------------------------------------
  // The batch loop
  // ---------------------------------------------------------------------------

  function Numbers(cands: seq<Candidate>): seq<nat> { seq(|cands|, i requires 0 <= i < |cands| => NumberOf(cands[i])) }

  /** Nothing on disk is accepted, so the queue holds every file. */
  lemma SteadyKeys(st: State, w: World)
    requires AllSettled(w)
    ensures View(w.disk).Keys == Files(w.disk)
  {
    forall s ensures s in View(w.disk) <==> s in Files(w.disk) { assert Settled(w, s); }
  }

  /** The candidates are the queue in sequence order. */
  lemma CandidatesListQueue(st: State, w: World, cands: seq<Candidate>)
    requires Cached(st, w) && AllSettled(w) && AreCandidates(st, cands) && InOrder(cands)
    ensures Lists(View(w.disk).Keys, Numbers(cands))
  {
    SteadyKeys(st, w);
    var xs := Numbers(cands);
    forall s
      ensures s in xs <==> s in Files(w.disk)
    {
      if s in xs {
        var i :| 0 <= i < |xs| && xs[i] == s;
        assert cands[i] in cands;
        CandidateOnDisk(st, w, cands[i]);
      }
      if s in Files(w.disk) {
        var c := CandidateAt(st, w, s);
        var i :| 0 <= i < |cands| && cands[i] == c;
        assert xs[i] == s;
      }
    }
  }

  lemma CandidateOnDisk(st: State, w: World, c: Candidate)
    requires Cached(st, w) && IsCandidate(st, c)
    ensures NumberOf(c) in Files(w.disk)
    ensures c.OfGap? ==> NumberOf(c) in w.disk.gaps && w.disk.gaps[NumberOf(c)] == c.notice
  {
    match c
    case OfEntry(e) => EntryFacts(st, w, e);
    case OfGap(n) => assert GapOnDisk(st, w.disk, n.noticeId);
  }

  lemma CandidateAt(st: State, w: World, s: nat) returns (c: Candidate)
    requires Cached(st, w) && s in Files(w.disk)
    ensures IsCandidate(st, c) && NumberOf(c) == s
  {
    assert HasEntry(st, w, s) && HasGap(st, w.disk, s);
    if s in w.disk.gaps {
      assert GapOnDisk(st, w.disk, w.disk.gaps[s].noticeId);
      c := OfGap(w.disk.gaps[s]);
    } else {
      c := OfEntry(st.entries[w.hist.admitted[s].recordId]);
    }
  }

  /** An entry among candidates in order has no gap of its number beside it. */
  lemma EntryStandsAlone(st: State, w: World, cands: seq<Candidate>, i: nat)
    requires Cached(st, w) && AreCandidates(st, cands) && InOrder(cands) && i < |cands| && cands[i].OfEntry?
    ensures NumberOf(cands[i]) !in w.disk.gaps
  {
    if NumberOf(cands[i]) in w.disk.gaps { GapListed(st, w, cands, NumberOf(cands[i])); }
  }

  lemma GapListed(st: State, w: World, cands: seq<Candidate>, s: nat)
    requires Cached(st, w) && AreCandidates(st, cands) && s in w.disk.gaps
    ensures exists j :: 0 <= j < |cands| && cands[j].OfGap? && NumberOf(cands[j]) == s
  {
    assert HasGap(st, w.disk, s) && GapOnDisk(st, w.disk, w.disk.gaps[s].noticeId);
    assert OfGap(w.disk.gaps[s]) in cands;
  }

  /** Every item of the queue fits a batch of its own. */
  lemma ItemFits(cfg: Config, run: Run, s: nat)
    requires Legal(cfg, run) && s in View(End(run).disk)
    ensures ItemLength(s, View(End(run).disk)[s]) <= cfg.batchMaxBytes
    ensures View(End(run).disk)[s].Gap? ==> View(End(run).disk)[s].notice.spoolSeq == s
    ensures View(End(run).disk)[s].Damaged? ==> End(run).hist.damaged
  {
    FateAt(cfg, run, s);
    ItemOf(End(run), s);
    AdmittedIsAdmissible(cfg, run, |run.steps|, s);
    ItemLengthFits(cfg, s, End(run).hist.admitted[s], View(End(run).disk)[s]);
  }

  /** An item is the admitted record, a notice about it or a damaged file. */
  lemma ItemOf(w: World, s: nat)
    requires Fate(w, s) && s in View(w.disk)
    ensures s in w.hist.admitted
    ensures View(w.disk)[s].Record? ==> View(w.disk)[s].stored == w.hist.admitted[s]
    ensures View(w.disk)[s].Gap? ==> View(w.disk)[s].notice.spoolSeq == s && InI64(View(w.disk)[s].notice.occurredAt)
    ensures View(w.disk)[s].Damaged? ==> w.hist.damaged
  {
  }

  lemma ItemLengthFits(cfg: Config, s: nat, r: StoredRecord, item: Item)
    requires Admissible(cfg, s, r) && (item.Record? ==> item.stored == r)
    requires item.Gap? ==> item.notice.spoolSeq == s && InI64(item.notice.occurredAt)
    ensures ItemLength(s, item) <= cfg.batchMaxBytes
  {
    if item.Gap? { GapFitsWhereRecordFits(item.notice, r.env, r.admittedAt); }
  }

  method EncodedLength(s: nat, item: Item) returns (n: nat)
    ensures n == ItemLength(s, item)
  {
    match item
    case Record(r) =>
      var envelope := Measure(ToValue(r.env));
      n := V2RecordLength(s, r.admittedAt, envelope);
    case Gap(g) => n := GapLength(g);
    case Damaged(_) => n := 0;
  }

  ghost predicate Takeable(st: State, w: World, c: Candidate) {
    IsCandidate(st, c) && (c.OfEntry? ==> NumberOf(c) !in w.disk.gaps)
  }

  /** A candidate is read as the item of the queue at its number; an uncounted damaged record is
      quarantined, a counted one is an error. */
  method Take(store: Store, st: State, c: Candidate) returns (r: Result<Item>, st': State)
    requires store.Valid() && Loose(st, store.W()) && Takeable(st, store.W(), c)
    modifies store
    ensures store.Valid() && Loose(st', store.W()) && Kept(old(store.run), store.run) && SameReceipts(st, st')
    ensures r.Ok? && !r.value.Damaged? ==>
              && st' == st && store.disk == old(store.disk)
              && NumberOf(c) in View(store.disk) && View(store.disk)[NumberOf(c)] == r.value
    ensures r.Ok? && r.value.Damaged? ==>
              |st'.entries| < |st.entries| && Apart(old(store.disk), store.disk, NumberOf(c))
    ensures r.Err? || r.value.Damaged? ==> store.W().hist.damaged
    ensures r.Err? <==> c.OfEntry? && Stuck(store.cfg, st, old(store.disk), c.entry)
  {
    KeptSame(store.run);
    st' := st;
    match c
    case OfGap(n) =>
      CandidateOnDisk(st, store.W(), c);
      assert Settled(store.W(), n.spoolSeq);
      r := Ok(Gap(n));
    case OfEntry(e) => r, st' := TakeEntry(store, st, e);
  }

  /** A damaged entry that cannot be handled: its expiry is counted already, or its gap or its file does
      not fit. */
  ghost predicate Stuck(cfg: Config, st: State, d: Disk, e: Entry) {
    && e.spoolSeq in d.pending && d.pending[e.spoolSeq].contents.Corrupt?
    && (|| e.spoolSeq in st.counted || !GapPossible(cfg, d, e) || d.quarantineFiles >= cfg.maxRecords
        || d.quarantineBytes + FileSize(d.pending[e.spoolSeq]) > cfg.maxBytes)
  }

  /** Take for an entry. */
  method TakeEntry(store: Store, st: State, e: Entry) returns (r: Result<Item>, st': State)
    requires store.Valid() && Loose(st, store.W()) && IsEntry(st, e) && e.spoolSeq !in store.disk.gaps
    modifies store
    ensures store.Valid() && Loose(st', store.W()) && Kept(old(store.run), store.run) && SameReceipts(st, st')
    ensures r.Ok? && !r.value.Damaged? ==>
              && st' == st && store.disk == old(store.disk)
              && e.spoolSeq in View(store.disk) && View(store.disk)[e.spoolSeq] == r.value
    ensures r.Ok? && r.value.Damaged? ==>
              |st'.entries| < |st.entries| && Apart(old(store.disk), store.disk, e.spoolSeq)
    ensures r.Err? || r.value.Damaged? ==> store.W().hist.damaged
    ensures r.Err? <==> Stuck(store.cfg, st, old(store.disk), e)
  {
    KeptSame(store.run);
    ReadEntryIsExact(store.cfg, store.run, st, e);
    ReadIsItem(store.cfg, store.run, st, e);
    var stored := ReadEntry(store.disk, e);
    if e.spoolSeq in st.counted {
      if stored.Err? { return Err(stored.error), st; }
      return Ok(Gap(ExpiryNotice(e))), st;
    }
    if stored.Ok? { return Ok(Record(stored.value)), st; }
    r, st' := TakeDamaged(store, st, e);
  }

  /** Take for a damaged entry whose expiry is not counted. */
  method TakeDamaged(store: Store, st: State, e: Entry) returns (r: Result<Item>, st': State)
    requires store.Valid() && Loose(st, store.W()) && IsEntry(st, e) && store.W().hist.damaged
    requires e.spoolSeq in store.disk.pending && store.disk.pending[e.spoolSeq].contents.Corrupt?
    requires e.spoolSeq !in st.counted
    modifies store
    ensures store.Valid() && Loose(st', store.W()) && Kept(old(store.run), store.run) && SameReceipts(st, st')
    ensures store.W().hist.damaged && (r.Ok? ==> r.value.Damaged?)
    ensures r.Ok? ==> |st'.entries| < |st.entries| && Apart(old(store.disk), store.disk, e.spoolSeq)
    ensures r.Err? <==> Stuck(store.cfg, st, old(store.disk), e)
  {
    var done;
    done, st' := QuarantineEntry(store, st, e);
    r := if done.Ok? then Ok(Damaged(e.recordId)) else Err(done.error);
  }

  /** What is read at an entry without a gap is the item of the queue. */
  lemma ReadIsItem(cfg: Config, run: Run, st: State, e: Entry)
    requires Legal(cfg, run) && Loose(st, End(run)) && IsEntry(st, e) && e.spoolSeq !in End(run).disk.gaps
    ensures e.spoolSeq in View(End(run).disk) && e.spoolSeq in End(run).disk.pending
    ensures e.spoolSeq in End(run).hist.admitted
    ensures End(run).disk.pending[e.spoolSeq].contents.Intact? ==>
              View(End(run).disk)[e.spoolSeq] ==
                if e.spoolSeq in st.counted then Gap(ExpiryNotice(e)) else Record(End(run).hist.admitted[e.spoolSeq])
  {
    EntryFacts(st, End(run), e);
    FateAt(cfg, run, e.spoolSeq);
    ItemAtEntry(st, End(run), e);
  }

  lemma ItemAtEntry(st: State, w: World, e: Entry)
    requires Fate(w, e.spoolSeq) && AllSettled(w) && Lagging(st, w) && e.spoolSeq in w.disk.pending
    requires e.spoolSeq in w.hist.admitted
    requires e == EntryOf(e.spoolSeq, w.hist.admitted[e.spoolSeq], w.disk.pending[e.spoolSeq].bytes)
    requires e.spoolSeq !in w.disk.gaps
    ensures e.spoolSeq in View(w.disk)
    ensures w.disk.pending[e.spoolSeq].contents.Intact? ==>
              View(w.disk)[e.spoolSeq] == if e.spoolSeq in st.counted then Gap(ExpiryNotice(e))
                  else Record(w.hist.admitted[e.spoolSeq])
  {
    assert Settled(w, e.spoolSeq) && Lags(st, w.disk, e.spoolSeq);
  }

  lemma StillTakeable(st: State, w: World, st': State, w': World, s: nat, c: Candidate)
    requires Cached(st, w) && Cached(st', w') && w'.hist == w.hist && Apart(w.disk, w'.disk, s)
    requires Takeable(st, w, c) && NumberOf(c) != s
    ensures Takeable(st', w', c)
  {
    var n := NumberOf(c);
    CandidateOnDisk(st, w, c);
    assert n in w.disk.pending <==> n in w.disk.pending - {s};
    assert n in w'.disk.pending <==> n in w'.disk.pending - {s};
    assert n in w.disk.gaps <==> n in w.disk.gaps - {s};
    assert n in w'.disk.gaps <==> n in w'.disk.gaps - {s};
    match c
    case OfEntry(e) =>
      EntryFacts(st, w, e);
      assert w'.disk.pending[n] == (w'.disk.pending - {s})[n];
      assert HasEntry(st', w', n);
    case OfGap(g) =>
      assert w'.disk.gaps[n] == (w'.disk.gaps - {s})[n];
      assert HasGap(st', w'.disk, n);
  }

  /** The first `i` items have been collected. */
  ghost predicate Collected(v: map<nat, Item>, xs: seq<nat>, i: nat, records: seq<RecordV2>,
                            gaps: seq<GapNotice>, body: nat) {
    && i <= |xs| && (forall x :: x in xs ==> x in v) && (forall j :: 0 <= j < i ==> !v[xs[j]].Damaged?)
    && records == Records(v, xs[..i]) && gaps == Gaps(v, xs[..i]) && body == Bytes(v, xs[..i])
    && |records| + |gaps| == i
  }

  predicate WithinLimits(cfg: Config, records: nat, gaps: nat, body: nat) {
    && records + gaps <= cfg.batchMaxRecords && records <= MAX_BATCH_ITEMS && gaps <= MAX_BATCH_ITEMS
    && body <= cfg.batchMaxBytes
  }

  /** The limits with one more item. */
  ghost predicate NextWithinLimits(cfg: Config, s: nat, item: Item, records: nat, gaps: nat, body: nat) {
    if item.Record? then WithinLimits(cfg, records + 1, gaps, body + ItemLength(s, item))
    else WithinLimits(cfg, records, gaps + 1, body + ItemLength(s, item))
  }

  lemma OneMoreItem(v: map<nat, Item>, xs: seq<nat>, i: nat)
    requires (forall x :: x in xs ==> x in v) && i < |xs|
    ensures var s, item, more := xs[i], v[xs[i]], xs[..i + 1];
            && Records(v, more) == Records(v, xs[..i]) + (if item.Record? then [Delivered(s, item.stored)] else [])
            && Gaps(v, more) == Gaps(v, xs[..i]) + (if item.Gap? then [item.notice] else [])
            && Bytes(v, more) == Bytes(v, xs[..i]) + ItemLength(s, item)
  {
    assert xs[..i + 1][..i] == xs[..i];
  }

  /** The candidates from `i` on can still be taken. */
  ghost predicate Ready(st: State, w: World, cands: seq<Candidate>, i: nat) {
    forall j :: i <= j < |cands| ==> Takeable(st, w, cands[j])
  }

  lemma StillReady(st: State, w: World, st': State, w': World, cands: seq<Candidate>, i: nat)
    requires Cached(st, w) && Cached(st', w') && w'.hist == w.hist && InOrder(cands) && i < |cands|
    requires Ready(st, w, cands, i)
    requires Apart(w.disk, w'.disk, NumberOf(cands[i])) || (st' == st && w'.disk == w.disk)
    ensures Ready(st', w', cands, i + 1)
  {
    forall j | i < j < |cands|
      ensures Takeable(st', w', cands[j])
    {
      assert Takeable(st, w, cands[j]);
      if Apart(w.disk, w'.disk, NumberOf(cands[i])) { StillTakeable(st, w, st', w', NumberOf(cands[i]), cands[j]); }
    }
  }

  /** The item is the next one to collect. */
  ghost predicate NextItem(cfg: Config, v: map<nat, Item>, xs: seq<nat>, i: nat, records: seq<RecordV2>,
                           gaps: seq<GapNotice>, body: nat, s: nat, item: Item) {
    && Collected(v, xs, i, records, gaps, body) && WithinLimits(cfg, |records|, |gaps|, body)
    && i < |xs| && xs[i] == s && v[s] == item && !item.Damaged?
  }

  lemma CollectsRecord(v: map<nat, Item>, xs: seq<nat>, i: nat, records: seq<RecordV2>, gaps: seq<GapNotice>, body: nat)
    requires Collected(v, xs, i, records, gaps, body) && i < |xs| && v[xs[i]].Record?
    ensures Collected(v, xs, i + 1, records + [Delivered(xs[i], v[xs[i]].stored)], gaps,
                      body + ItemLength(xs[i], v[xs[i]]))
  {
    NextIsRecord(v, xs, i);
    NoneDamaged(v, xs, i);
  }

  lemma CollectsGap(v: map<nat, Item>, xs: seq<nat>, i: nat, records: seq<RecordV2>, gaps: seq<GapNotice>, body: nat)
    requires Collected(v, xs, i, records, gaps, body) && i < |xs| && v[xs[i]].Gap?
    ensures Collected(v, xs, i + 1, records, gaps + [v[xs[i]].notice], body + ItemLength(xs[i], v[xs[i]]))
  {
    NextIsGap(v, xs, i);
    NoneDamaged(v, xs, i);
  }

  lemma NextIsRecord(v: map<nat, Item>, xs: seq<nat>, i: nat)
    requires (forall x :: x in xs ==> x in v) && i < |xs| && v[xs[i]].Record?
    ensures Records(v, xs[..i + 1]) == Records(v, xs[..i]) + [Delivered(xs[i], v[xs[i]].stored)]
    ensures Gaps(v, xs[..i + 1]) == Gaps(v, xs[..i])
    ensures Bytes(v, xs[..i + 1]) == Bytes(v, xs[..i]) + ItemLength(xs[i], v[xs[i]])
  {
    OneMoreItem(v, xs, i);
    assert Gaps(v, xs[..i]) + [] == Gaps(v, xs[..i]);
  }

  lemma NextIsGap(v: map<nat, Item>, xs: seq<nat>, i: nat)
    requires (forall x :: x in xs ==> x in v) && i < |xs| && v[xs[i]].Gap?
    ensures Records(v, xs[..i + 1]) == Records(v, xs[..i])
    ensures Gaps(v, xs[..i + 1]) == Gaps(v, xs[..i]) + [v[xs[i]].notice]
    ensures Bytes(v, xs[..i + 1]) == Bytes(v, xs[..i]) + ItemLength(xs[i], v[xs[i]])
  {
    OneMoreItem(v, xs, i);
    assert Records(v, xs[..i]) + [] == Records(v, xs[..i]);
  }

  lemma NoneDamaged(v: map<nat, Item>, xs: seq<nat>, i: nat)
    requires (forall x :: x in xs ==> x in v) && i < |xs| && !v[xs[i]].Damaged?
    requires forall j :: 0 <= j < i ==> !v[xs[j]].Damaged?
    ensures forall j :: 0 <= j < i + 1 ==> !v[xs[j]].Damaged?
  {
  }

  lemma NoBytesYet(v: map<nat, Item>, xs: seq<nat>, i: nat, records: seq<RecordV2>, gaps: seq<GapNotice>, body: nat)
    requires Collected(v, xs, i, records, gaps, body) && records == [] && gaps == []
    ensures body == 0
  {
    assert xs[..i] == [];
  }

  /** The size checks of the batch loop: adds the item or ends the batch. */
  method Add(cfg: Config, s: nat, item: Item, records: seq<RecordV2>, gaps: seq<GapNotice>, body: nat,
             ghost v: map<nat, Item>, ghost xs: seq<nat>, ghost i: nat)
    returns (stop: bool, records': seq<RecordV2>, gaps': seq<GapNotice>, body': nat)
    requires Configured(cfg) && !item.Damaged? && ItemLength(s, item) <= cfg.batchMaxBytes
    requires |records| + |gaps| < cfg.batchMaxRecords
    ensures stop ==> records' == records && gaps' == gaps && body' == body
    ensures NextItem(cfg, v, xs, i, records, gaps, body, s, item) ==>
              if stop then !NextWithinLimits(cfg, s, item, |records|, |gaps|, body)
              else Collected(v, xs, i + 1, records', gaps', body') && WithinLimits(cfg, |records'|, |gaps'|, body')
  {
    ghost var applies := NextItem(cfg, v, xs, i, records, gaps, body, s, item);
    if (item.Record? && |records| >= MAX_BATCH_ITEMS) || (item.Gap? && |gaps| >= MAX_BATCH_ITEMS) {
      return true, records, gaps, body;
    }
    var bytes := EncodedLength(s, item);
    if (records != [] || gaps != []) && SaturatingAddU64(body, bytes) > cfg.batchMaxBytes {
      return true, records, gaps, body;
    }
    if bytes > cfg.batchMaxBytes { assert false; }
    if applies && records == [] && gaps == [] { NoBytesYet(v, xs, i, records, gaps, body); }
    stop, records', gaps', body' := false, records, gaps, SaturatingAddU64(body, bytes);
    if item.Record? {
      records' := records + [Delivered(s, item.stored)];
      if applies { CollectsRecord(v, xs, i, records, gaps, body); }
    } else {
      gaps' := gaps + [item.notice];
      if applies { CollectsGap(v, xs, i, records, gaps, body); }
    }
  }

  /** Reads the next candidate; the later ones can still be taken afterwards. */
  method TakeNext(store: Store, st: State, cands: seq<Candidate>, i: nat) returns (r: Result<Item>, st': State)
    requires store.Valid() && Loose(st, store.W()) && InOrder(cands) && i < |cands| && Ready(st, store.W(), cands, i)
    modifies store
    ensures store.Valid() && Loose(st', store.W()) && Kept(old(store.run), store.run) && SameReceipts(st, st')
    ensures r.Err? || r.value.Damaged? ==> store.W().hist.damaged
    ensures r.Ok? ==> Ready(st', store.W(), cands, i + 1)
    ensures r.Ok? && !r.value.Damaged? ==>
              && st' == st && store.disk == old(store.disk)
              && NumberOf(cands[i]) in View(store.disk) && View(store.disk)[NumberOf(cands[i])] == r.value
              && ItemLength(NumberOf(cands[i]), r.value) <= store.cfg.batchMaxBytes
    ensures r.Ok? && r.value.Damaged? ==> |st'.entries| < |st.entries|
  {
    ghost var w := store.W();
    r, st' := Take(store, st, cands[i]);
    if r.Ok? {
      StillReady(st, w, st', store.W(), cands, i);
      if !r.value.Damaged? { ItemFits(store.cfg, store.run, NumberOf(cands[i])); }
    }
  }

  /** Between two rounds of the batch loop. */
  ghost predicate CollectLoop(cfg: Config, st0: State, w0: World, st: State, w: World, cands: seq<Candidate>, i: nat,
                              records: seq<RecordV2>, gaps: seq<GapNotice>, body: nat, quarantined: bool) {
    && i <= |cands| && Ready(st, w, cands, i) && SameReceipts(st0, st)
    && (if quarantined then w.hist.damaged && |st.entries| < |st0.entries|
        else st == st0 && w.disk == w0.disk && WithinLimits(cfg, |records|, |gaps|, body)
             && Collected(View(w0.disk), Numbers(cands), i, records, gaps, body))
  }

  /** The batch ends before candidate `i` because it does not fit. */
  ghost predicate CollectFull(cfg: Config, w0: World, cands: seq<Candidate>, i: nat, records: seq<RecordV2>,
                              gaps: seq<GapNotice>, body: nat) {
    && i < |cands| && NumberOf(cands[i]) in View(w0.disk)
    && (|records| + |gaps| >= cfg.batchMaxRecords
        || (!View(w0.disk)[NumberOf(cands[i])].Damaged?
            && !NextWithinLimits(cfg, NumberOf(cands[i]), View(w0.disk)[NumberOf(cands[i])], |records|, |gaps|, body)))
  }

  /** One round: takes the next candidate and adds it, ends the batch or notes the damage. */
  method CollectRound(store: Store, st: State, cands: seq<Candidate>, i: nat, records: seq<RecordV2>,
                      gaps: seq<GapNotice>, body: nat, quarantined: bool, ghost st0: State, ghost w0: World)
    returns (r: Result<bool>, st': State, records': seq<RecordV2>, gaps': seq<GapNotice>, body': nat,
             quarantined': bool)
    requires store.Valid() && Loose(st, store.W()) && InOrder(cands) && i < |cands|
    requires CollectLoop(store.cfg, st0, w0, st, store.W(), cands, i, records, gaps, body, quarantined)
    requires |records| + |gaps| < store.cfg.batchMaxRecords
    modifies store
    ensures store.Valid() && Loose(st', store.W()) && Kept(old(store.run), store.run)
    ensures r.Err? ==> store.W().hist.damaged && SameReceipts(st0, st')
    ensures r.Ok? ==>
              CollectLoop(store.cfg, st0, w0, st', store.W(), cands, if r.value then i
                  else i + 1, records', gaps', body', quarantined')
    ensures r.Ok? && r.value && !quarantined' ==> CollectFull(store.cfg, w0, cands, i, records', gaps', body')
  {
    records', gaps', body', quarantined' := records, gaps, body, quarantined;
    var item;
    item, st' := TakeNext(store, st, cands, i);
    if item.Err? { return Err(item.error), st', records, gaps, body, quarantined; }
    if item.value.Damaged? { return Ok(false), st', records, gaps, body, true; }
    var stop;
    stop, records', gaps', body' := Add(store.cfg, NumberOf(cands[i]), item.value, records, gaps, body,
                                        View(w0.disk), Numbers(cands), i);
    r := Ok(stop);
  }

  /** One pass of `build_batch_v2`: the batch, or the news that damaged records were quarantined and
      the batch has to be built again from fewer entries. */
  method Collect(store: Store, st: State, cands: seq<Candidate>)
    returns (r: Result<bool>, st': State, records: seq<RecordV2>, gaps: seq<GapNotice>, ghost k: nat, ghost body: nat)
    requires store.Valid() && Loose(st, store.W()) && InOrder(cands)
    requires Lists(View(store.disk).Keys, Numbers(cands)) && Ready(st, store.W(), cands, 0)
    modifies store
    ensures store.Valid() && Loose(st', store.W()) && Kept(old(store.run), store.run) && SameReceipts(st, st')
    ensures r.Err? ==> store.W().hist.damaged
    ensures r.Ok? ==> CollectLoop(store.cfg, st, old(store.W()), st', store.W(), cands, k, records, gaps, body, r.value)
    ensures r.Ok? && !r.value ==> k == |cands| || CollectFull(store.cfg, old(store.W()), cands, k, records, gaps, body)
  {
    ghost var w := store.W();
    KeptSame(store.run);
    NoneCollected(View(w.disk), Numbers(cands));
    st', records, gaps := st, [], [];
    var bytes, quarantined, i, stop := 0, false, 0, false;
    while i < |cands| && !stop
      invariant store.Valid() && Loose(st', store.W()) && Kept(old(store.run), store.run)
      invariant CollectLoop(store.cfg, st, w, st', store.W(), cands, i, records, gaps, bytes, quarantined)
      invariant !quarantined && stop ==> CollectFull(store.cfg, w, cands, i, records, gaps, bytes)
      decreases |cands| - i, !stop
    {
      if |records| + |gaps| >= store.cfg.batchMaxRecords {
        if !quarantined { NumberListed(View(w.disk), cands, i); }
        stop := true;
      } else {
        ghost var mid := store.run;
        var round;
        round, st', records, gaps, bytes, quarantined := CollectRound(store, st', cands, i, records, gaps,
                                                                      bytes, quarantined, st, w);
        KeptTwice(old(store.run), mid, store.run);
        if round.Err? { return Err(round.error), st', [], [], 0, 0; }
        stop := round.value;
        if !stop { i := i + 1; }
      }
    }
    r, k, body := Ok(quarantined), i, bytes;
  }

  lemma NumberListed(v: map<nat, Item>, cands: seq<Candidate>, i: nat)
    requires i < |cands| && forall x :: x in Numbers(cands) ==> x in v
    ensures NumberOf(cands[i]) in v
  {
    assert Numbers(cands)[i] == NumberOf(cands[i]);
  }

  lemma NoneCollected(v: map<nat, Item>, xs: seq<nat>)
    requires forall x :: x in xs ==> x in v
    ensures Collected(v, xs, 0, [], [], 0)
  {
    assert xs[..0] == [];
  }

  lemma TakeableAt(st: State, w: World, cands: seq<Candidate>, j: nat)
    requires Cached(st, w) && AreCandidates(st, cands) && InOrder(cands) && j < |cands|
    ensures Takeable(st, w, cands[j])
  {
    assert cands[j] in cands;
    if cands[j].OfEntry? { EntryStandsAlone(st, w, cands, j); }
  }

  lemma MostCollected(cfg: Config, w: World, cands: seq<Candidate>, k: nat, records: seq<RecordV2>,
                      gaps: seq<GapNotice>, body: nat)
    requires Collected(View(w.disk), Numbers(cands), k, records, gaps, body)
    requires WithinLimits(cfg, |records|, |gaps|, body)
    requires k == |cands| || CollectFull(cfg, w, cands, k, records, gaps, body)
    ensures MostThatFit(cfg, View(w.disk), Numbers(cands), k)
  {
    if k < |cands| {
      assert Numbers(cands)[k] == NumberOf(cands[k]);
      FullStops(cfg, View(w.disk), Numbers(cands), k, records, gaps, body);
    }
  }

  lemma FullStops(cfg: Config, v: map<nat, Item>, xs: seq<nat>, k: nat, records: seq<RecordV2>,
                  gaps: seq<GapNotice>, body: nat)
    requires Collected(v, xs, k, records, gaps, body) && k < |xs|
    requires k >= cfg.batchMaxRecords || (!v[xs[k]].Damaged?
            && !NextWithinLimits(cfg, xs[k], v[xs[k]], |records|, |gaps|, body))
    ensures !Fits(cfg, v, xs[..k + 1])
  {
    if k < cfg.batchMaxRecords {
      if v[xs[k]].Record? { CollectsRecord(v, xs, k, records, gaps, body); }
          else { CollectsGap(v, xs, k, records, gaps, body); }
    }
  }

  lemma QueueGapsInPlace(cfg: Config, run: Run)
    requires Legal(cfg, run)
    ensures GapsInPlace(View(End(run).disk))
  {
    var v := View(End(run).disk);
    forall s | s in v && v[s].Gap? ensures v[s].notice.spoolSeq == s { ItemFits(cfg, run, s); }
  }

  lemma CollectedIsBatch(cfg: Config, v: map<nat, Item>, xs: seq<nat>, k: nat, records: seq<RecordV2>,
                         gaps: seq<GapNotice>, body: nat)
    requires Lists(v.Keys, xs) && Collected(v, xs, k, records, gaps, body) && MostThatFit(cfg, v, xs, k)
    requires GapsInPlace(v)
    ensures IsBatch(cfg, v, BatchV2(BatchIdV2(records, gaps), records, gaps))
  {
    forall x | x in xs[..k] ensures x in v && !v[x].Damaged? { var j :| 0 <= j < k && xs[..k][j] == x; }
    MergedIsQueueOrder(v, xs[..k]);
    assert BatchHolds(cfg, v, xs, k, BatchV2(BatchIdV2(records, gaps), records, gaps));
  }

  /** `build_batch_v2`: an Ok result is the batch of the queue. Undamaged it is always Ok and nothing
      changes; each rebuild after a quarantine starts from fewer entries. */
  method BuildBatchV2(store: Store, st: State) returns (r: Result<BatchV2>, st': State)
    requires store.Valid() && Steady(st, store.W())
    modifies store
    ensures store.Valid() && Steady(st', store.W()) && Kept(old(store.run), store.run) && SameReceipts(st, st')
    ensures r.Ok? ==> IsBatch(store.cfg, View(store.disk), r.value) && store.disk.pending.Keys !! store.disk.gaps.Keys
    ensures !store.W().hist.damaged ==> r.Ok? && st' == st && store.disk == old(store.disk)
    decreases |st.entries|
  {
    ghost var w := store.W();
    KeptSame(store.run);
    var cands := Candidates(st, w);
    if cands.Err? { return Err(cands.error), st; }
    CandidatesListQueue(st, w, cands.value);
    forall j | 0 <= j < |cands.value| ensures Takeable(st, w, cands.value[j]) { TakeableAt(st, w, cands.value, j); }
    ghost var k, body;
    var done, records, gaps;
    done, st', records, gaps, k, body := Collect(store, st, cands.value);
    SteadyUnlessSynced(st, w, st', store.W(), done.Ok? && !done.value);
    if done.Err? { return Err(done.error), st'; }
    if done.value {
      ghost var mid := store.run;
      r, st' := BuildBatchV2(store, st');
      KeptTwice(old(store.run), mid, store.run);
      return;
    }
    QueueGapsInPlace(store.cfg, store.run);
    NoShadow(st, store.W(), cands.value);
    MostCollected(store.cfg, w, cands.value, k, records, gaps, body);
    CollectedIsBatch(store.cfg, View(store.disk), Numbers(cands.value), k, records, gaps, body);
    r := Ok(BatchV2(BatchIdV2(records, gaps), records, gaps));
  }

  lemma EmptyMeansNothing(cfg: Config, run: Run, b: BatchV2)
    requires Legal(cfg, run) && Configured(cfg) && IsBatch(cfg, View(End(run).disk), b)
    ensures b.records == [] && b.gaps == [] <==> View(End(run).disk) == map[]
  {
    var v := View(End(run).disk);
    forall s | s in v ensures ItemLength(s, v[s]) <= cfg.batchMaxBytes { ItemFits(cfg, run, s); }
    EmptyOnlyIfNothingPending(cfg, v, b);
  }

  lemma NoShadow(st: State, w: World, cands: seq<Candidate>)
    requires Cached(st, w) && AreCandidates(st, cands) && InOrder(cands)
    ensures w.disk.pending.Keys !! w.disk.gaps.Keys
  {
    forall s | s in w.disk.pending
      ensures s !in w.disk.gaps
    {
      assert HasEntry(st, w, s);
      var c := OfEntry(st.entries[w.hist.admitted[s].recordId]);
      assert c in cands;
      var i :| 0 <= i < |cands| && cands[i] == c;
      EntryStandsAlone(st, w, cands, i);
    }
  }
}
