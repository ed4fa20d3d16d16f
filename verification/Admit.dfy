/** Admission of new records. */
module Admit {
  import opened Finite
  import opened Json
  import opened Wire
  import opened Limits
  import opened Durable
  import opened Invariant
  import opened Safety
  import opened Cache
  import opened Machine

  datatype Outcome = Stored(id: RecordId) | AlreadyPresent(id: RecordId)

  /** The record `enqueue` would store. */
  function NewRecord(cfg: Config, s: nat, env: Envelope, admittedAt: int): StoredRecord
    requires InI64(admittedAt) && Configured(cfg)
  {
    StoredRecord(2, LegacyId(env), Some(StableId(env)), Some(s), admittedAt,
                 SaturatingAddI64(admittedAt, cfg.retentionMs), env)
  }

  /** An occurrence of the event is pending. */
  ghost predicate EventPending(w: World, env: Envelope, s: nat) {
    s in w.disk.pending && s in w.hist.admitted && SameEvent(w.hist.admitted[s].env, env)
  }

  ghost predicate Present(w: World, env: Envelope) { exists s :: EventPending(w, env, s) }

  /** There is room for the record beside `files` occurrences and `bytes` bytes: in a batch, in the
      directory and in a readable file. */
  ghost predicate RoomBeside(cfg: Config, files: nat, bytes: nat, s: nat, r: StoredRecord) {
    && V1RecordLength(r.admittedAt, EnvelopeLength(r.env)) <= cfg.batchMaxBytes
    && V2RecordLength(s, r.admittedAt, EnvelopeLength(r.env)) <= cfg.batchMaxBytes
    && files < cfg.maxRecords
    && bytes + (RecordBytes(s, r) - ENCRYPTION_OVERHEAD) + 64 <= cfg.maxBytes
    && RecordBytes(s, r) <= MAX_ENCRYPTED_RECORD_BYTES
  }

  ghost predicate Room(cfg: Config, st: State, s: nat, r: StoredRecord) {
    RoomBeside(cfg, |st.entries| + |st.gaps|, st.pendingBytes, s, r)
  }

  /** Why there is no room: too large for a batch or a file, or the directory is full. */
  ghost function Shortage(cfg: Config, st: State, s: nat, r: StoredRecord): Error {
    if V1RecordLength(r.admittedAt, EnvelopeLength(r.env)) > cfg.batchMaxBytes
       || V2RecordLength(s, r.admittedAt, EnvelopeLength(r.env)) > cfg.batchMaxBytes then BatchItemTooLarge
    else if |st.entries| + |st.gaps| >= cfg.maxRecords
            || st.pendingBytes + (RecordBytes(s, r) - ENCRYPTION_OVERHEAD) + 64 > cfg.maxBytes then CapacityExceeded
    else BatchItemTooLarge
  }

  /** The stable index finds exactly the pending events. */
  lemma IndexFindsEvent(cfg: Config, run: Run, st: State, env: Envelope)
    requires Legal(cfg, run) && EntriesAgree(st, End(run)) && ValidEnvelope(env)
    ensures StableId(env) in st.stableIndex <==> Present(End(run), env)
    ensures StableId(env) in st.stableIndex ==>
              exists s :: EventPending(End(run), env, s)
                  && End(run).hist.admitted[s].recordId == st.stableIndex[StableId(env)]
  {
    var w, id := End(run), StableId(env);
    if id in st.stableIndex {
      assert Indexed(st, id);
      var s := st.entries[st.stableIndex[id]].spoolSeq;
      assert EntryOnDisk(st, w, st.stableIndex[id]);
      EventOf(cfg, run, env, s);
      assert EventPending(w, env, s);
    }
    if s :| EventPending(w, env, s) {
      EventOf(cfg, run, env, s);
      assert HasEntry(st, w, s);
      assert Indexed(st, w.hist.admitted[s].recordId);
    }
  }

  lemma EventOf(cfg: Config, run: Run, env: Envelope, s: nat)
    requires Legal(cfg, run) && ValidEnvelope(env) && s in End(run).hist.admitted
    ensures StableOf(End(run).hist.admitted[s]) == StableId(env) <==> SameEvent(End(run).hist.admitted[s].env, env)
    ensures End(run).hist.admitted[s].recordId == LegacyId(env) ==> SameEvent(End(run).hist.admitted[s].env, env)
  {
    FateAt(cfg, run, s);
    AdmittedIsAdmissible(cfg, run, |run.steps|, s);
    StableIdIsExact(End(run).hist.admitted[s].env, env);
    LegacyIdIsExact(End(run).hist.admitted[s].env, env);
  }

  lemma NewRecordIsAdmissible(cfg: Config, st: State, s: nat, env: Envelope, admittedAt: int)
    requires InI64(admittedAt) && Configured(cfg) && ValidEnvelope(env) && 0 < s
    requires Room(cfg, st, s, NewRecord(cfg, s, env, admittedAt))
    ensures Admissible(cfg, s, NewRecord(cfg, s, env, admittedAt)) && Numbered(NewRecord(cfg, s, env, admittedAt), s)
  {
  }

  /** A new event that fits may be written at the next number. */
  lemma MayAdmit(cfg: Config, run: Run, st: State, env: Envelope, admittedAt: int)
    requires Legal(cfg, run) && Configured(cfg) && Steady(st, End(run)) && ValidEnvelope(env) && InI64(admittedAt)
    requires StableId(env) !in st.stableIndex && st.next < U64_MAX
    requires Room(cfg, st, st.next, NewRecord(cfg, st.next, env, admittedAt))
    ensures var r := NewRecord(cfg, st.next, env, admittedAt);
            var f := PendingFile(r.recordId, Intact(r), RecordBytes(st.next, r));
            && MayWritePending(cfg, End(run), st.next, f) && Admits(cfg, WritePending(st.next, f))
            && st.next !in End(run).disk.pending && st.next !in End(run).hist.admitted && r.recordId !in st.entries
  {
    var w, r := End(run), NewRecord(cfg, st.next, env, admittedAt);
    FateAt(cfg, run, st.next);
    NextIsPositive(cfg, run);
    NewRecordIsAdmissible(cfg, st, st.next, env, admittedAt);
    NewEventIsNew(cfg, run, st, env);
    FilesCounted(st, w);
  }

  /** An event that is not pending has neither an entry nor a pending file. */
  lemma NewEventIsNew(cfg: Config, run: Run, st: State, env: Envelope)
    requires Legal(cfg, run) && EntriesAgree(st, End(run)) && ValidEnvelope(env) && StableId(env) !in st.stableIndex
    ensures forall t :: t in End(run).disk.pending ==>
            t in End(run).hist.admitted && StableOf(End(run).hist.admitted[t]) != StableId(env)
    ensures LegacyId(env) !in st.entries
  {
    var w := End(run);
    IndexFindsEvent(cfg, run, st, env);
    forall t | t in w.disk.pending
      ensures t in w.hist.admitted && StableOf(w.hist.admitted[t]) != StableId(env)
    {
      assert HasEntry(st, w, t);
      EventOf(cfg, run, env, t);
      assert !EventPending(w, env, t);
    }
    if LegacyId(env) in st.entries { SameRecordPending(cfg, run, st, env); }
  }

  lemma SameRecordPending(cfg: Config, run: Run, st: State, env: Envelope)
    requires Legal(cfg, run) && EntriesAgree(st, End(run)) && ValidEnvelope(env) && LegacyId(env) in st.entries
    ensures exists s :: EventPending(End(run), env, s)
  {
    var s := st.entries[LegacyId(env)].spoolSeq;
    assert EntryOnDisk(st, End(run), LegacyId(env));
    EventOf(cfg, run, env, s);
    assert EventPending(End(run), env, s);
  }

  lemma FilesCounted(st: State, w: World)
    requires EntriesAgree(st, w) && GapsAgree(st, w.disk)
    ensures |Files(w.disk)| <= |st.entries| + |st.gaps|
  {
    UnionSize(w.disk.pending.Keys, w.disk.gaps.Keys);
    KeysSize(w.disk.pending);
    KeysSize(w.disk.gaps);
  }

  lemma NextIsPositive(cfg: Config, run: Run)
    requires Legal(cfg, run)
    ensures 1 <= End(run).hist.next
  {
    EndKeeps(cfg, run);
  }

  lemma UnionSize<T>(a: set<T>, b: set<T>)
    ensures |a + b| <= |a| + |b|
  {
    assert a + b == a + (b - a);
    SubsetSize(b - a, b);
  }

  /** From `before` to `after` the queue gains the record in one step. */
  ghost predicate Gains(before: Run, after: Run, s: nat, r: StoredRecord) {
    var v := View(End(before).disk);
    && s !in v
    && View(End(after).disk) == v[s := Record(r)]
    && Visits(after, |before.steps|, {v, v[s := Record(r)]})
  }

  lemma AdmitGains(cfg: Config, run: Run, s: nat, f: PendingFile)
    requires Legal(cfg, run) && MayWritePending(cfg, End(run), s, f)
    ensures Gains(run, Extend(run, WritePending(s, f)), s, f.contents.stored)
  {
    AdmittedView(cfg, run, s, f);
    GainsStep(run, WritePending(s, f), s, f.contents.stored);
  }

  lemma AdmittedView(cfg: Config, run: Run, s: nat, f: PendingFile)
    requires Legal(cfg, run) && MayWritePending(cfg, End(run), s, f)
    ensures s !in View(End(run).disk)
    ensures View(Apply(End(run), WritePending(s, f)).disk) == View(End(run).disk)[s := Record(f.contents.stored)]
  {
    EndKeeps(cfg, run);
    AdmitExtendsView(cfg, End(run), s, f);
  }

  lemma GainsStep(run: Run, a: Action, s: nat, r: StoredRecord)
    requires s !in View(End(run).disk) && View(Apply(End(run), a).disk) == View(End(run).disk)[s := Record(r)]
    ensures Gains(run, Extend(run, a), s, r)
  {
    var v := View(End(run).disk);
    VisitsStep(run, |run.steps|, {v, v[s := Record(r)]}, a);
  }

  lemma GainsThenKeeps(a: Run, b: Run, c: Run, s: nat, r: StoredRecord)
    requires Continues(a, b) && Gains(a, b, s, r) && Unmoved(b, c)
    ensures Gains(a, c, s, r)
  {
    var v := View(End(a).disk);
    VisitsWider(c, |b.steps|, {View(End(b).disk)}, {v, v[s := Record(r)]});
    VisitsJoin(b, c, |a.steps|, {v, v[s := Record(r)]});
  }

  lemma AfterAdmit(st: State, w: World, st': State, s: nat, f: PendingFile)
    requires Steady(st, w) && s == st.next && s !in w.disk.pending && s !in w.hist.admitted && f.contents.Intact?
    requires f.contents.stored.recordId !in st.entries && StableOf(f.contents.stored) !in st.stableIndex
    requires st' == AddEntry(st, EntryOf(s, f.contents.stored, f.bytes)).(next := s + 1)
    requires !Accepted(w.disk.receipts, s) && s !in Ledger(w.disk).counted && s !in w.disk.gaps
    ensures var w' := Apply(w, WritePending(s, f));
            Cached(st', w') && Lagging(st', w') && Tidy(st', w') && AllSettled(w')
  {
    var w' := Apply(w, WritePending(s, f));
    var added := AddEntry(st, EntryOf(s, f.contents.stored, f.bytes));
    EntriesAfterAdmit(st, w, s, f);
    EntriesUntouched(added, st', w', w');
    GapsUntouched(st, st', w.disk, w'.disk);
    ReceiptsUntouched(st, st', w.disk, w'.disk);
    forall t
      ensures Lags(st', w'.disk, t) && Settled(w', t)
    {
      assert Lags(st, w.disk, t) && Settled(w, t);
      assert Lags(st, w.disk, s);
    }
  }

  /** The first write of `enqueue`, which alone admits the record. */
  method WriteRecord(store: Store, st: State, env: Envelope, admittedAt: int, bytes: nat) returns (st': State)
    requires store.Valid() && Steady(st, store.W()) && ValidEnvelope(env) && InI64(admittedAt)
    requires StableId(env) !in st.stableIndex && st.next < U64_MAX
    requires Room(store.cfg, st, st.next, NewRecord(store.cfg, st.next, env, admittedAt))
    requires bytes == RecordBytes(st.next, NewRecord(store.cfg, st.next, env, admittedAt))
    modifies store
    ensures store.Valid() && Cached(st', store.W()) && Lagging(st', store.W()) && Tidy(st', store.W())
    ensures AllSettled(store.W()) && SameAnswers(st, st')
    ensures Continues(old(store.run), store.run)
    ensures var s, h := old(store.W().hist.next), old(store.W().hist);
            var r := NewRecord(store.cfg, s, env, admittedAt);
            && store.W().hist == h.(next := s + 1, admitted := h.admitted[s := r])
            && Gains(old(store.run), store.run, s, r)
  {
    var s := st.next;
    var r := NewRecord(store.cfg, s, env, admittedAt);
    var f := PendingFile(r.recordId, Intact(r), bytes);
    MayAdmit(store.cfg, store.run, st, env, admittedAt);
    FateAt(store.cfg, store.run, s);
    AdmitGains(store.cfg, store.run, s, f);
    st' := AddEntry(st, EntryOf(s, r, bytes)).(next := s + 1);
    AfterAdmit(st, store.W(), st', s, f);
    store.Perform(WritePending(s, f));
  }

  /** The two writes of `enqueue`. */
  method StoreRecord(store: Store, st: State, env: Envelope, admittedAt: int, bytes: nat) returns (st': State)
    requires store.Valid() && Steady(st, store.W()) && ValidEnvelope(env) && InI64(admittedAt)
    requires StableId(env) !in st.stableIndex && st.next < U64_MAX
    requires Room(store.cfg, st, st.next, NewRecord(store.cfg, st.next, env, admittedAt))
    requires bytes == RecordBytes(st.next, NewRecord(store.cfg, st.next, env, admittedAt))
    modifies store
    ensures store.Valid() && Steady(st', store.W()) && Continues(old(store.run), store.run) && SameAnswers(st, st')
    ensures var s, h := old(store.W().hist.next), old(store.W().hist);
            var r := NewRecord(store.cfg, s, env, admittedAt);
            && store.W().hist == h.(next := s + 1, admitted := h.admitted[s := r])
            && Gains(old(store.run), store.run, s, r)
  {
    ghost var s := st.next;
    st' := WriteRecord(store, st, env, admittedAt, bytes);
    ghost var first := store.run;
    Persist(store, st');
    SteadyPersisted(st', End(first), store.W());
    GainsThenKeeps(old(store.run), first, store.run, s, NewRecord(store.cfg, s, env, admittedAt));
  }

  /** The size checks of `enqueue`. The predicted size covers the encrypted one, so the second check
      of the byte limit never fails. */
  method CheckRoom(cfg: Config, st: State, env: Envelope, admittedAt: int) returns (r: Result<nat>)
    requires InI64(admittedAt) && Configured(cfg)
    ensures r.Ok? <==> Room(cfg, st, st.next, NewRecord(cfg, st.next, env, admittedAt))
    ensures r.Ok? ==> r.value == RecordBytes(st.next, NewRecord(cfg, st.next, env, admittedAt))
    ensures r.Err? ==> r.error == Shortage(cfg, st, st.next, NewRecord(cfg, st.next, env, admittedAt))
  {
    var s, expiresAt := st.next, SaturatingAddI64(admittedAt, cfg.retentionMs);
    var envelope := Measure(ToValue(env));
    if V1RecordLength(admittedAt, envelope) > cfg.batchMaxBytes
        || V2RecordLength(s, admittedAt, envelope) > cfg.batchMaxBytes {
      return Err(BatchItemTooLarge);
    }
    var plain := StoredLength(s, admittedAt, expiresAt, envelope);
    var predicted := SaturatingAddU64(plain, 64);
    if |st.entries| + |st.gaps| >= cfg.maxRecords || SaturatingAddU64(st.pendingBytes, predicted) > cfg.maxBytes {
      return Err(CapacityExceeded);
    }
    var bytes := plain + ENCRYPTION_OVERHEAD;
    if bytes > MAX_ENCRYPTED_RECORD_BYTES { return Err(BatchItemTooLarge); }
    if SaturatingAddU64(st.pendingBytes, bytes) > cfg.maxBytes { assert false; }
    r := Ok(bytes);
  }

  /** What `enqueue` does: an invalid envelope is refused, a pending event is recognised whatever its
      arrival time, and a new event that fits is stored at the next number; nothing else changes
      anything. Wherever it stops, the queue is the one without or the one with the record. */
  ghost predicate Enqueues(cfg: Config, run: Run, st: State, env: Envelope, admittedAt: int,
                           r: Result<Outcome>, run': Run, st': State)
    requires InI64(admittedAt) && Configured(cfg)
  {
    var w, s := End(run), st.next;
    var stored := NewRecord(cfg, s, env, admittedAt);
    && Continues(run, run')
    && (r == Err(CorruptRecord) <==> !ValidEnvelope(env))
    && (r.Ok? && r.value.AlreadyPresent? <==> ValidEnvelope(env) && Present(w, env))
    && (r.Ok? && r.value.AlreadyPresent? ==>
        exists t :: EventPending(w, env, t) && w.hist.admitted[t].recordId == r.value.id)
    && (r.Ok? && r.value.Stored? <==>
          ValidEnvelope(env) && !Present(w, env) && s < U64_MAX && Room(cfg, st, s, stored))
    && (r.Ok? && r.value.Stored? ==>
          && r.value.id == LegacyId(env) && s == w.hist.next && SameAnswers(st, st')
          && End(run').hist == w.hist.(next := s + 1, admitted := w.hist.admitted[s := stored])
          && Gains(run, run', s, stored))
    && (r.Err? && ValidEnvelope(env) ==>
        r.error == if s >= U64_MAX then InvalidConfig else Shortage(cfg, st, s, stored))
    && (r.Err? || r.value.AlreadyPresent? ==> run' == run && st' == st)
  }

  method Enqueue(store: Store, st: State, env: Envelope, admittedAt: int) returns (r: Result<Outcome>, st': State)
    requires store.Valid() && Steady(st, store.W()) && InI64(admittedAt)
    modifies store
    ensures store.Valid() && Steady(st', store.W())
    ensures Enqueues(store.cfg, old(store.run), st, env, admittedAt, r, store.run, st')
  {
    if !ValidEnvelope(env) { return Err(CorruptRecord), st; }
    IndexFindsEvent(store.cfg, store.run, st, env);
    if StableId(env) in st.stableIndex { return Ok(AlreadyPresent(st.stableIndex[StableId(env)])), st; }
    r, st' := EnqueueNew(store, st, env, admittedAt);
  }

  /** The part of `enqueue` for a valid event that is not pending. */
  method EnqueueNew(store: Store, st: State, env: Envelope, admittedAt: int) returns (r: Result<Outcome>, st': State)
    requires store.Valid() && Steady(st, store.W()) && InI64(admittedAt) && ValidEnvelope(env)
    requires StableId(env) !in st.stableIndex && !Present(store.W(), env)
    modifies store
    ensures store.Valid() && Steady(st', store.W())
    ensures Enqueues(store.cfg, old(store.run), st, env, admittedAt, r, store.run, st')
  {
    ghost var run := store.run;
    if st.next + 1 > U64_MAX {
      Refused(store.cfg, run, st, env, admittedAt, InvalidConfig);
      return Err(InvalidConfig), st;
    }
    var bytes := CheckRoom(store.cfg, st, env, admittedAt);
    if bytes.Err? {
      Refused(store.cfg, run, st, env, admittedAt, bytes.error);
      return Err(bytes.error), st;
    }
    st' := StoreRecord(store, st, env, admittedAt, bytes.value);
    r := Ok(Stored(LegacyId(env)));
    StoredAnswer(store.cfg, run, st, env, admittedAt, store.run, st');
  }

  lemma Refused(cfg: Config, run: Run, st: State, env: Envelope, admittedAt: int, e: Error)
    requires InI64(admittedAt) && Configured(cfg) && ValidEnvelope(env) && !Present(End(run), env)
    requires e == if st.next >= U64_MAX then InvalidConfig
            else Shortage(cfg, st, st.next, NewRecord(cfg, st.next, env, admittedAt))
    requires st.next >= U64_MAX || !Room(cfg, st, st.next, NewRecord(cfg, st.next, env, admittedAt))
    ensures Enqueues(cfg, run, st, env, admittedAt, Err(e), run, st)
  {
  }

  lemma StoredAnswer(cfg: Config, run: Run, st: State, env: Envelope, admittedAt: int, run': Run, st': State)
    requires InI64(admittedAt) && Configured(cfg) && ValidEnvelope(env) && !Present(End(run), env)
    requires st.next < U64_MAX && Room(cfg, st, st.next, NewRecord(cfg, st.next, env, admittedAt))
    requires Continues(run, run') && st.next == End(run).hist.next && SameAnswers(st, st')
    requires var s, h, stored := st.next, End(run).hist, NewRecord(cfg, st.next, env, admittedAt);
             && End(run').hist == h.(next := s + 1, admitted := h.admitted[s := stored])
             && Gains(run, run', s, stored)
    ensures Enqueues(cfg, run, st, env, admittedAt, Ok(Stored(LegacyId(env))), run', st')
  {
  }
}
