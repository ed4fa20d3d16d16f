/** A version 1 batch identifier names records, not occurrences, so it can recur. What was answered for it
    the first time is then answered again, and the records stay. Two sequences of operations on an open
    spool show it; `Spools.LegacyTakesEffect` says exactly when it happens. */
module Recurring {
  import opened Finite
  import opened Wire
  import opened Limits
  import opened Durable
  import opened Invariant
  import opened Cache
  import opened Machine
  import opened Delivery
  import opened Receipts
  import opened Admit
  import opened Acknowledge
  import opened Legacy
  import opened Spools

  // ---------------------------------------------------------------------------
  // Queues of records and their batches
  // ---------------------------------------------------------------------------

  /** The directory holds the records of the queue, unaltered, and nothing else. */
  ghost predicate HoldsRecords(w: World) {
    && w.disk.gaps == map[] && w.disk.pending.Keys !! Ledger(w.disk).counted.Keys && AllIntact(w)
    && w.disk.pending.Keys == View(w.disk).Keys
  }

  lemma FilesOf(cfg: Config, run: Run, st: State)
    requires Legal(cfg, run) && Steady(st, End(run)) && !End(run).hist.damaged && OnlyRecords(View(End(run).disk))
    ensures HoldsRecords(End(run)) && |st.entries| == |View(End(run).disk).Keys| && |st.gaps| == 0
  {
    NoGapsInQueue(cfg, run, st);
    SteadyKeys(st, End(run));
    IntactPending(cfg, run);
    assert |End(run).disk.pending.Keys| == |End(run).disk.pending|;
  }

  /** Records that fit one batch are the batch. */
  lemma WholeBatch(cfg: Config, rank: Rank, w: World, xs: seq<nat>, b: BatchV1)
    requires HoldsRecords(w) && ListsByTime(rank, w.hist.admitted, w.disk.pending.Keys, xs)
    requires LegacyFits(cfg, w.hist.admitted, xs)
    requires b.records == FirstRecords(w.hist.admitted, xs) && b.batchId == LegacyBatchId(b.records)
    ensures IsLegacyBatch(cfg, rank, w, b)
  {
    assert xs[..|xs|] == xs;
    ListedIntact(w, xs);
    assert LegacyBatchHolds(cfg, rank, w, xs, |xs|, b);
  }

  lemma ListedIntact(w: World, xs: seq<nat>)
    requires AllIntact(w) && forall x :: x in xs ==> x in w.disk.pending
    ensures forall i :: 0 <= i < |xs| ==>
              xs[i] in w.hist.admitted && w.disk.pending[xs[i]].contents == Intact(w.hist.admitted[xs[i]])
  {
    forall i | 0 <= i < |xs|
      ensures xs[i] in w.hist.admitted && w.disk.pending[xs[i]].contents == Intact(w.hist.admitted[xs[i]])
    {
      assert xs[i] in xs;
    }
  }

  /** One record is in the queue. */
  ghost predicate Alone(w: World, s: nat, r: StoredRecord) {
    View(w.disk).Keys == {s} && View(w.disk)[s] == Record(r) && s in w.hist.admitted && w.hist.admitted[s] == r
  }

  function AloneBatch(r: StoredRecord): BatchV1 { BatchV1(BatchV1Digest([r.recordId]), [Legacy.Legacy(r)]) }

  lemma AloneIsBatch(cfg: Config, rank: Rank, w: World, s: nat, r: StoredRecord)
    requires Configured(cfg) && HoldsRecords(w) && Alone(w, s, r) && LegacyLength(r) <= cfg.batchMaxBytes
    ensures IsLegacyBatch(cfg, rank, w, AloneBatch(r))
  {
    OneCollected(w.hist.admitted, s);
    assert LegacyBatchId(AloneBatch(r).records).ids == [r.recordId];
    WholeBatch(cfg, rank, w, [s], AloneBatch(r));
  }

  lemma OneCollected(records: map<nat, StoredRecord>, s: nat)
    requires s in records
    ensures FirstRecords(records, [s]) == [Legacy.Legacy(records[s])]
    ensures LegacyBytes(records, [s]) == LegacyLength(records[s])
  {
  }

  /** Two records fit one batch, the first admitted earlier. */
  ghost predicate FitTogether(cfg: Config, r: StoredRecord, q: StoredRecord) {
    && r.admittedAt < q.admittedAt && r.recordId != q.recordId
    && 2 <= cfg.batchMaxRecords && LegacyLength(r) + LegacyLength(q) <= cfg.batchMaxBytes
  }

  ghost predicate Both(w: World, s: nat, r: StoredRecord, t: nat, q: StoredRecord) {
    && s != t && View(w.disk).Keys == {s, t} && View(w.disk)[s] == Record(r) && View(w.disk)[t] == Record(q)
    && s in w.hist.admitted && w.hist.admitted[s] == r && t in w.hist.admitted && w.hist.admitted[t] == q
  }

  function BothBatch(r: StoredRecord, q: StoredRecord): BatchV1 {
    BatchV1(BatchV1Digest([r.recordId, q.recordId]), [Legacy.Legacy(r), Legacy.Legacy(q)])
  }

  lemma BothAreBatch(cfg: Config, rank: Rank, w: World, s: nat, r: StoredRecord, t: nat, q: StoredRecord)
    requires Configured(cfg) && HoldsRecords(w) && Both(w, s, r, t, q) && FitTogether(cfg, r, q)
    ensures IsLegacyBatch(cfg, rank, w, BothBatch(r, q))
  {
    TwoCollected(w.hist.admitted, s, t);
    TwoIds(Legacy.Legacy(r), Legacy.Legacy(q));
    TwoInOrder(rank, w.hist.admitted, s, t);
    WholeBatch(cfg, rank, w, [s, t], BothBatch(r, q));
  }

  lemma TwoCollected(records: map<nat, StoredRecord>, s: nat, t: nat)
    requires s in records && t in records
    ensures FirstRecords(records, [s, t]) == [Legacy.Legacy(records[s]), Legacy.Legacy(records[t])]
    ensures LegacyBytes(records, [s, t]) == LegacyLength(records[s]) + LegacyLength(records[t])
  {
    var xs := [s, t];
    OneCollected(records, s);
    assert xs[..1] == [s] && xs[..|xs| - 1] == [s];
  }

  lemma TwoIds(a: RecordV1, b: RecordV1)
    ensures LegacyBatchId([a, b]) == BatchV1Digest([a.recordId, b.recordId])
  {
    assert LegacyBatchId([a, b]).ids == [a.recordId, b.recordId];
  }

  lemma TwoInOrder(rank: Rank, records: map<nat, StoredRecord>, s: nat, t: nat)
    requires s in records && t in records && records[s].admittedAt < records[t].admittedAt
    ensures ListsByTime(rank, records, {s, t}, [s, t])
  {
  }

  /** Naming nothing, or one record of the current batch, acknowledges it. */
  lemma Acknowledged(cfg: Config, rank: Rank, w: World, ack: AckV1, b: BatchV1)
    requires IsLegacyBatch(cfg, rank, w, b) && ack.batchId == b.batchId
    requires ack.recordIds == [] || (exists r :: r in b.records && ack.recordIds == [r.recordId])
    ensures LegacyAcknowledges(cfg, rank, w, ack, b)
  {
    Delivers(ack.recordIds, b);
  }

  lemma Delivers(ids: seq<RecordId>, b: BatchV1)
    requires ids == [] || (exists r :: r in b.records && ids == [r.recordId])
    ensures Members(ids) <= DeliveredIds(b)
  {
  }

  lemma AloneAcknowledged(cfg: Config, rank: Rank, w: World, r: StoredRecord, ack: AckV1)
    requires IsLegacyBatch(cfg, rank, w, AloneBatch(r)) && ack.batchId == AloneBatch(r).batchId
    requires ack.recordIds == [] || ack.recordIds == [r.recordId]
    ensures LegacyAcknowledges(cfg, rank, w, ack, AloneBatch(r))
  {
    assert Legacy.Legacy(r) in AloneBatch(r).records;
    Acknowledged(cfg, rank, w, ack, AloneBatch(r));
  }

  lemma SecondAcknowledged(cfg: Config, rank: Rank, w: World, r: StoredRecord, q: StoredRecord, ack: AckV1)
    requires IsLegacyBatch(cfg, rank, w, BothBatch(r, q)) && ack.batchId == BothBatch(r, q).batchId
    requires ack.recordIds == [q.recordId]
    ensures LegacyAcknowledges(cfg, rank, w, ack, BothBatch(r, q))
  {
    assert Legacy.Legacy(q) in BothBatch(r, q).records;
    Acknowledged(cfg, rank, w, ack, BothBatch(r, q));
  }

  /** Naming a record names its occurrence. */
  lemma NamesIt(w: World, s: nat)
    requires w.disk.pending.Keys == View(w.disk).Keys && s in View(w.disk) && s in w.hist.admitted
    requires forall t :: t in View(w.disk) && t in w.hist.admitted && t != s ==>
               w.hist.admitted[t].recordId != w.hist.admitted[s].recordId
    ensures NamedBy(w, [w.hist.admitted[s].recordId]) == {s} && NamedBy(w, []) == {}
  {
  }

  // ---------------------------------------------------------------------------
  // Admission
  // ---------------------------------------------------------------------------

  lemma EmptyFits(cfg: Config, run: Run, st: State, s: nat, r: StoredRecord)
    requires Legal(cfg, run) && Steady(st, End(run)) && !End(run).hist.damaged && View(End(run).disk) == map[]
    requires RoomBeside(cfg, 0, 0, s, r)
    ensures Room(cfg, st, s, r) && End(run).disk.pending == map[]
  {
    FilesOf(cfg, run, st);
    assert PendingSizes(End(run).disk.pending) == map[];
  }

  lemma SecondFits(cfg: Config, run: Run, st: State, t: nat, first: StoredRecord, s: nat, r: StoredRecord)
    requires Legal(cfg, run) && Steady(st, End(run)) && !End(run).hist.damaged && Alone(End(run), t, first)
    requires RoomBeside(cfg, 1, MAX_ENCRYPTED_RECORD_BYTES, s, r)
    ensures Room(cfg, st, s, r) && End(run).disk.pending.Keys == {t}
  {
    FilesOf(cfg, run, st);
    FateAt(cfg, run, t);
    var sizes := PendingSizes(End(run).disk.pending);
    TotalSplit(sizes, t);
    assert sizes - {t} == map[];
  }

  /** A new event that fits is stored at the next number. */
  lemma Stores(cfg: Config, run: Run, st: State, env: Envelope, at: int, r: Result<Outcome>, run': Run, st': State)
    requires InI64(at) && Configured(cfg) && Enqueues(cfg, run, st, env, at, r, run', st') && ValidEnvelope(env)
    requires forall s :: s in End(run).disk.pending && s in End(run).hist.admitted ==>
               !SameEvent(End(run).hist.admitted[s].env, env)
    requires st.next < U64_MAX && Room(cfg, st, st.next, NewRecord(cfg, st.next, env, at))
    ensures var stored := NewRecord(cfg, st.next, env, at);
            && r == Ok(Stored(LegacyId(env))) && SameAnswers(st, st')
            && st.next !in View(End(run).disk) && View(End(run').disk) == View(End(run).disk)[st.next := Record(stored)]
            && End(run').hist.admitted == End(run).hist.admitted[st.next := stored]
    ensures End(run').hist.next == st.next + 1
    ensures End(run').hist.v1Batches == End(run).hist.v1Batches && End(run').hist.damaged == End(run).hist.damaged
  {
  }

  // ---------------------------------------------------------------------------
  // One operation
  // ---------------------------------------------------------------------------

  /** An open spool between operations over an unaltered directory. */
  ghost predicate Quiet(cfg: Config, run: Run, st: State) {
    Legal(cfg, run) && Steady(st, End(run)) && !End(run).hist.damaged
  }

  lemma AloneAfter(w: World, w': World, s: nat, r: StoredRecord)
    requires View(w.disk) == map[] && View(w'.disk) == View(w.disk)[s := Record(r)]
    requires w'.hist.admitted == w.hist.admitted[s := r]
    ensures Alone(w', s, r)
  {
  }

  lemma BothAfter(w: World, w': World, s: nat, r: StoredRecord, t: nat, q: StoredRecord)
    requires Alone(w, s, r) && t !in View(w.disk) && View(w'.disk) == View(w.disk)[t := Record(q)]
    requires w'.hist.admitted == w.hist.admitted[t := q]
    ensures Both(w', s, r, t, q)
  {
  }

  lemma FirstAfter(w: World, w': World, s: nat, r: StoredRecord, t: nat, q: StoredRecord)
    requires Both(w, s, r, t, q) && View(w'.disk) == View(w.disk) - {t} && w'.hist.admitted == w.hist.admitted
    ensures Alone(w', s, r)
  {
    assert View(w'.disk).Keys == {s};
  }

  /** The only record is the current batch. */
  lemma AloneIsCurrent(cfg: Config, rank: Rank, run: Run, st: State, s: nat, r: StoredRecord)
    requires Configured(cfg) && Quiet(cfg, run, st) && Alone(End(run), s, r) && LegacyLength(r) <= cfg.batchMaxBytes
    ensures IsLegacyBatch(cfg, rank, End(run), AloneBatch(r))
  {
    FilesOf(cfg, run, st);
    AloneIsBatch(cfg, rank, End(run), s, r);
  }

  /** A record enters the empty queue and is the batch. */
  lemma EntersAlone(cfg: Config, rank: Rank, run: Run, st: State, env: Envelope, at: int,
                    r: Result<Outcome>, run': Run, st': State)
    requires Configured(cfg) && Quiet(cfg, run, st) && Legal(cfg, run') && Steady(st', End(run'))
    requires View(End(run).disk) == map[] && ValidEnvelope(env) && InI64(at) && st.next < U64_MAX
    requires RoomBeside(cfg, 0, 0, st.next, NewRecord(cfg, st.next, env, at))
    requires Enqueues(cfg, run, st, env, at, r, run', st')
    ensures var stored := NewRecord(cfg, st.next, env, at);
            Alone(End(run'), st.next, stored) && IsLegacyBatch(cfg, rank, End(run'), AloneBatch(stored))
    ensures Quiet(cfg, run', st') && SameAnswers(st, st') && st'.next == st.next + 1
    ensures End(run').hist.v1Batches == End(run).hist.v1Batches
  {
    var stored := NewRecord(cfg, st.next, env, at);
    EmptyFits(cfg, run, st, st.next, stored);
    Stores(cfg, run, st, env, at, r, run', st');
    AloneAfter(End(run), End(run'), st.next, stored);
    AloneIsCurrent(cfg, rank, run', st', st.next, stored);
  }

  /** What an acknowledgement of the current batch under a new identifier does. */
  lemma TakesEffect(cfg: Config, rank: Rank, run: Run, st: State, ack: AckV1, b: BatchV1,
                    r: Result<AckResultV1>, run': Run, st': State)
    requires Quiet(cfg, run, st) && Legal(cfg, run') && Steady(st', End(run')) && !st.v1Pruned
    requires st.nextReceipt < U64_MAX && ack.batchId !in End(run).hist.v1Batches
    requires LegacyAcknowledges(cfg, rank, End(run), ack, b) && LegacyAnswers(cfg, rank, run, st, ack, r, run', st')
    ensures Quiet(cfg, run', st') && r == Ok(AckResultV1(ack.recordIds)) && LegacyReceived(st, st', ack)
    ensures View(End(run').disk) == View(End(run).disk) - NamedBy(End(run), ack.recordIds)
    ensures End(run').hist.v1Batches == End(run).hist.v1Batches + {ack.batchId}
    ensures End(run').hist.admitted == End(run).hist.admitted && st'.next == st.next
  {
    BatchHoldsRecords(cfg, run, rank, st, b);
    ReceiptMeansAcknowledged(cfg, run, st, ack.batchId);
    NewIsAccepted(cfg, rank, run, st, ack, b, r, run', st');
  }

  lemma AloneLeft(w: World, w': World, s: nat, r: StoredRecord, named: set<nat>)
    requires Alone(w, s, r) && View(w'.disk) == View(w.disk) - named && w'.hist.admitted == w.hist.admitted
    ensures named == {} ==> Alone(w', s, r)
    ensures named == {s} ==> View(w'.disk) == map[]
  {
    if named == {} { assert View(w'.disk) == View(w.disk); }
    if named == {s} { assert View(w'.disk).Keys == {}; }
  }

  /** The only record, or nothing, is acknowledged under a new identifier. */
  lemma AloneTakesEffect(cfg: Config, rank: Rank, run: Run, st: State, s: nat, stored: StoredRecord, ack: AckV1,
                         r: Result<AckResultV1>, run': Run, st': State)
    requires Quiet(cfg, run, st) && Legal(cfg, run') && Steady(st', End(run')) && !st.v1Pruned
    requires Alone(End(run), s, stored) && IsLegacyBatch(cfg, rank, End(run), AloneBatch(stored))
    requires st.nextReceipt < U64_MAX && ack.batchId !in End(run).hist.v1Batches
    requires ack.batchId == AloneBatch(stored).batchId && (ack.recordIds == [] || ack.recordIds == [stored.recordId])
    requires LegacyAnswers(cfg, rank, run, st, ack, r, run', st')
    ensures Quiet(cfg, run', st') && r == Ok(AckResultV1(ack.recordIds)) && LegacyReceived(st, st', ack)
    ensures if ack.recordIds == [] then Alone(End(run'), s, stored) else View(End(run').disk) == map[]
    ensures End(run').hist.v1Batches == End(run).hist.v1Batches + {ack.batchId} && st'.next == st.next
  {
    AloneNamed(cfg, run, st, s, stored);
    AloneAcknowledged(cfg, rank, End(run), stored, ack);
    TakesEffect(cfg, rank, run, st, ack, AloneBatch(stored), r, run', st');
    AloneLeft(End(run), End(run'), s, stored, NamedBy(End(run), ack.recordIds));
  }

  lemma OnlyBoth(w: World, s: nat, r: StoredRecord, t: nat, q: StoredRecord)
    requires Both(w, s, r, t, q)
    ensures OnlyRecords(View(w.disk))
  {
  }

  lemma BothAreCurrent(cfg: Config, rank: Rank, run: Run, st: State, s: nat, r: StoredRecord, t: nat, q: StoredRecord)
    requires Configured(cfg) && Quiet(cfg, run, st) && Both(End(run), s, r, t, q) && FitTogether(cfg, r, q)
    ensures IsLegacyBatch(cfg, rank, End(run), BothBatch(r, q))
  {
    OnlyBoth(End(run), s, r, t, q);
    FilesOf(cfg, run, st);
    BothAreBatch(cfg, rank, End(run), s, r, t, q);
  }

  lemma SecondNamed(cfg: Config, run: Run, st: State, s: nat, r: StoredRecord, t: nat, q: StoredRecord)
    requires Quiet(cfg, run, st) && Both(End(run), s, r, t, q) && r.recordId != q.recordId
    ensures NamedBy(End(run), [q.recordId]) == {t}
  {
    OnlyBoth(End(run), s, r, t, q);
    FilesOf(cfg, run, st);
    NamesIt(End(run), t);
  }

  lemma AloneNamed(cfg: Config, run: Run, st: State, s: nat, r: StoredRecord)
    requires Quiet(cfg, run, st) && Alone(End(run), s, r)
    ensures NamedBy(End(run), [r.recordId]) == {s} && NamedBy(End(run), []) == {}
  {
    FilesOf(cfg, run, st);
    NamesIt(End(run), s);
  }

  /** A second record enters. */
  lemma EntersSecond(cfg: Config, rank: Rank, run: Run, st: State, s: nat, first: StoredRecord, env: Envelope, at: int,
                     r: Result<Outcome>, run': Run, st': State)
    requires Configured(cfg) && Quiet(cfg, run, st) && Legal(cfg, run') && Steady(st', End(run'))
    requires Alone(End(run), s, first) && ValidEnvelope(env) && InI64(at) && st.next < U64_MAX
    requires RoomBeside(cfg, 1, MAX_ENCRYPTED_RECORD_BYTES, st.next, NewRecord(cfg, st.next, env, at))
    requires FitTogether(cfg, first, NewRecord(cfg, st.next, env, at)) && !SameEvent(first.env, env)
    requires Enqueues(cfg, run, st, env, at, r, run', st')
    ensures var stored := NewRecord(cfg, st.next, env, at);
            Both(End(run'), s, first, st.next, stored) && IsLegacyBatch(cfg, rank, End(run'), BothBatch(first, stored))
    ensures Quiet(cfg, run', st') && SameAnswers(st, st') && st'.next == st.next + 1
    ensures End(run').hist.v1Batches == End(run).hist.v1Batches
  {
    var stored := NewRecord(cfg, st.next, env, at);
    SecondFits(cfg, run, st, s, first, st.next, stored);
    Stores(cfg, run, st, env, at, r, run', st');
    BothAfter(End(run), End(run'), s, first, st.next, stored);
    BothAreCurrent(cfg, rank, run', st', s, first, st.next, stored);
  }

  /** The second record alone is acknowledged out of the batch of both. */
  lemma SecondTakesEffect(cfg: Config, rank: Rank, run: Run, st: State, s: nat, first: StoredRecord,
                          t: nat, second: StoredRecord, ack: AckV1, r: Result<AckResultV1>, run': Run, st': State)
    requires Quiet(cfg, run, st) && Legal(cfg, run') && Steady(st', End(run')) && !st.v1Pruned
    requires Both(End(run), s, first, t, second) && IsLegacyBatch(cfg, rank, End(run), BothBatch(first, second))
    requires st.nextReceipt < U64_MAX && ack.batchId !in End(run).hist.v1Batches && first.recordId != second.recordId
    requires ack.batchId == BothBatch(first, second).batchId && ack.recordIds == [second.recordId]
    requires LegacyAnswers(cfg, rank, run, st, ack, r, run', st')
    ensures Quiet(cfg, run', st') && r == Ok(AckResultV1(ack.recordIds)) && LegacyReceived(st, st', ack)
    ensures Alone(End(run'), s, first)
    ensures End(run').hist.v1Batches == End(run).hist.v1Batches + {ack.batchId} && st'.next == st.next
  {
    SecondNamed(cfg, run, st, s, first, t, second);
    SecondAcknowledged(cfg, rank, End(run), first, second, ack);
    TakesEffect(cfg, rank, run, st, ack, BothBatch(first, second), r, run', st');
    FirstAfter(End(run), End(run'), s, first, t, second);
  }

  // ---------------------------------------------------------------------------
  // The inputs
  // ---------------------------------------------------------------------------

  /** A spool between two operations. */
  datatype Moment = Moment(run: Run, st: State)

  ghost predicate Between(cfg: Config, m: Moment) { Legal(cfg, m.run) && Steady(m.st, End(m.run)) }

  ghost predicate Admitting(cfg: Config, a: Moment, env: Envelope, at: int, b: Moment)
    requires InI64(at) && Configured(cfg)
  {
    Between(cfg, b) && exists r :: Enqueues(cfg, a.run, a.st, env, at, r, b.run, b.st)
  }

  ghost predicate Answering(cfg: Config, rank: Rank, a: Moment, ack: AckV1, r: Result<AckResultV1>, b: Moment) {
    Between(cfg, b) && (!End(a.run).hist.damaged ==> LegacyAnswers(cfg, rank, a.run, a.st, ack, r, b.run, b.st))
  }

  method AdmitThis(spool: Spool, env: Envelope, at: int)
    requires spool.Valid() && InI64(at)
    modifies spool, spool.store
    ensures spool.Valid()
    ensures var before := Moment(old(spool.store.run), old(spool.state));
            Admitting(spool.store.cfg, before, env, at, Moment(spool.store.run, spool.state))
  {
    var r := spool.Enqueue(env, at);
  }

  method AnswerThis(spool: Spool, ack: AckV1) returns (r: Result<AckResultV1>)
    requires spool.Valid() && LegacyWellFormed(ack)
    modifies spool, spool.store
    ensures spool.Valid()
    ensures var before := Moment(old(spool.store.run), old(spool.state));
            Answering(spool.store.cfg, spool.rank, before, ack, r, Moment(spool.store.run, spool.state))
  {
    ghost var mid, stm;
    r, mid, stm := spool.Acknowledge(ack);
  }

  /** The acknowledgement of the record alone. */
  function AloneAck(env: Envelope): AckV1 { AckV1(1, BatchV1Digest([LegacyId(env)]), [LegacyId(env)]) }

  /** A spool with an empty queue that has room for the envelope. */
  ghost predicate RoomAlone(cfg: Config, m: Moment, env: Envelope, at: int)
    requires InI64(at) && Configured(cfg)
  {
    && Quiet(cfg, m.run, m.st) && View(End(m.run).disk) == map[] && m.st.next < U64_MAX && ValidEnvelope(env)
    && RoomBeside(cfg, 0, 0, m.st.next, NewRecord(cfg, m.st.next, env, at))
  }

  /** There will be room for it at the number after. */
  ghost predicate RoomAgain(cfg: Config, m: Moment, env: Envelope, again: int)
    requires InI64(again) && Configured(cfg)
  {
    m.st.next + 1 < U64_MAX && RoomBeside(cfg, 0, 0, m.st.next + 1, NewRecord(cfg, m.st.next + 1, env, again))
  }

  /** Version 1 has not acknowledged the record alone, and can. */
  ghost predicate NeverAnswered(m: Moment, env: Envelope) {
    !m.st.v1Pruned && m.st.nextReceipt < U64_MAX && BatchV1Digest([LegacyId(env)]) !in End(m.run).hist.v1Batches
  }

  /** The record is the queue and the current batch. */
  ghost predicate Stays(cfg: Config, rank: Rank, m: Moment, s: nat, r: StoredRecord) {
    Alone(End(m.run), s, r) && IsLegacyBatch(cfg, rank, End(m.run), AloneBatch(r))
  }

  lemma StaysWhenUnmoved(cfg: Config, rank: Rank, run: Run, run': Run, st': State, s: nat, r: StoredRecord)
    requires Configured(cfg) && Unmoved(run, run') && Alone(End(run), s, r) && !End(run).hist.damaged
    requires Legal(cfg, run') && Steady(st', End(run')) && LegacyLength(r) <= cfg.batchMaxBytes
    ensures Stays(cfg, rank, Moment(run', st'), s, r)
  {
    AloneIsCurrent(cfg, rank, run', st', s, r);
  }

  /** The record is admitted and acknowledged; the queue is empty again and a receipt remembers the answer. */
  lemma FirstRound(cfg: Config, rank: Rank, env: Envelope, at: int, start: Moment, one: Moment,
                   r: Result<AckResultV1>, two: Moment)
    requires Configured(cfg) && InI64(at) && RoomAlone(cfg, start, env, at) && NeverAnswered(start, env)
    requires Admitting(cfg, start, env, at, one) && Answering(cfg, rank, one, AloneAck(env), r, two)
    ensures r == Ok(AckResultV1([LegacyId(env)])) && two.st.next == start.st.next + 1
    ensures Quiet(cfg, two.run, two.st) && View(End(two.run).disk) == map[] && Answered(two.st, AloneAck(env))
  {
    var stored :| Enqueues(cfg, start.run, start.st, env, at, stored, one.run, one.st);
    EntersAlone(cfg, rank, start.run, start.st, env, at, stored, one.run, one.st);
    AloneTakesEffect(cfg, rank, one.run, one.st, start.st.next, NewRecord(cfg, start.st.next, env, at),
                     AloneAck(env), r, two.run, two.st);
  }

  /** A receipt remembers the answer to the acknowledgement. */
  ghost predicate Answered(st: State, ack: AckV1) {
    ack.batchId in st.receipts && st.receipts[ack.batchId].recordIds == ack.recordIds
  }

  /** The record is admitted again; its acknowledgement gets the old answer and removes nothing. */
  lemma SecondRound(cfg: Config, rank: Rank, env: Envelope, at: int, two: Moment, three: Moment,
                    r: Result<AckResultV1>, four: Moment)
    requires Configured(cfg) && InI64(at) && RoomAlone(cfg, two, env, at) && Answered(two.st, AloneAck(env))
    requires Admitting(cfg, two, env, at, three) && Answering(cfg, rank, three, AloneAck(env), r, four)
    ensures r == Ok(AckResultV1([LegacyId(env)]))
    ensures Stays(cfg, rank, four, two.st.next, NewRecord(cfg, two.st.next, env, at))
  {
    var stored :| Enqueues(cfg, two.run, two.st, env, at, stored, three.run, three.st);
    EntersAlone(cfg, rank, two.run, two.st, env, at, stored, three.run, three.st);
    StaysWhenUnmoved(cfg, rank, three.run, four.run, four.st, two.st.next, NewRecord(cfg, two.st.next, env, at));
  }

  /** A record is admitted into an empty queue, acknowledged and admitted again. The acknowledgement of the
      second occurrence is answered by Ok, yet it stays in the queue and is the current batch. */
  lemma ReadmittedStays(cfg: Config, rank: Rank, env: Envelope, at: int, again: int,
                        start: Moment, one: Moment, first: Result<AckResultV1>, two: Moment, three: Moment,
                        second: Result<AckResultV1>, four: Moment)
    requires Configured(cfg) && InI64(at) && InI64(again) && RoomAlone(cfg, start, env, at) && NeverAnswered(start, env)
    requires RoomAgain(cfg, start, env, again)
    requires Admitting(cfg, start, env, at, one) && Answering(cfg, rank, one, AloneAck(env), first, two)
    requires Admitting(cfg, two, env, again, three) && Answering(cfg, rank, three, AloneAck(env), second, four)
    ensures first == Ok(AckResultV1([LegacyId(env)])) && second == first
    ensures Stays(cfg, rank, four, start.st.next + 1, NewRecord(cfg, start.st.next + 1, env, again))
  {
    FirstRound(cfg, rank, env, at, start, one, first, two);
    SecondRound(cfg, rank, env, again, two, three, second, four);
  }

  /** The operations of ReadmittedStays on an open spool. */
  method Readmit(spool: Spool, env: Envelope, at: int, again: int)
    returns (first: Result<AckResultV1>, second: Result<AckResultV1>)
    requires spool.Valid() && InI64(at) && InI64(again)
    requires RoomAlone(spool.store.cfg, Moment(spool.store.run, spool.state), env, at)
    requires NeverAnswered(Moment(spool.store.run, spool.state), env)
    requires RoomAgain(spool.store.cfg, Moment(spool.store.run, spool.state), env, again)
    modifies spool, spool.store
    ensures spool.Valid() && first == Ok(AckResultV1([LegacyId(env)])) && second == first
    ensures var cfg, s := spool.store.cfg, old(spool.state.next) + 1;
            Stays(cfg, spool.rank, Moment(spool.store.run, spool.state), s, NewRecord(cfg, s, env, again))
  {
    ghost var start := Moment(spool.store.run, spool.state);
    AdmitThis(spool, env, at);
    ghost var one := Moment(spool.store.run, spool.state);
    first := AnswerThis(spool, AloneAck(env));
    ghost var two := Moment(spool.store.run, spool.state);
    AdmitThis(spool, env, again);
    ghost var three := Moment(spool.store.run, spool.state);
    second := AnswerThis(spool, AloneAck(env));
    ReadmittedStays(spool.store.cfg, spool.rank, env, at, again, start, one, first, two, three, second,
                    Moment(spool.store.run, spool.state));
  }

  /** A different event, admitted later, has room beside the first and in a batch with it. */
  ghost predicate RoomBehind(cfg: Config, s: nat, r: StoredRecord, env: Envelope, later: int)
    requires InI64(later) && Configured(cfg)
  {
    var q := NewRecord(cfg, s, env, later);
    && s < U64_MAX && ValidEnvelope(env) && !SameEvent(r.env, env)
    && RoomBeside(cfg, 1, MAX_ENCRYPTED_RECORD_BYTES, s, q) && FitTogether(cfg, r, q)
  }

  /** Neither one nor two further receipts prune the history. */
  ghost predicate Unpressed(m: Moment, receipts: nat) {
    && !m.st.v1Pruned && m.st.nextReceipt + receipts <= U64_MAX
    && |m.st.receipts| + receipts <= MAX_ACK_RECEIPTS
  }

  /** The acknowledgement that names nothing of the record alone. */
  function EmptyAck(env: Envelope): AckV1 { AckV1(1, BatchV1Digest([LegacyId(env)]), []) }

  function BothId(a: Envelope, b: Envelope): BatchId { BatchV1Digest([LegacyId(a), LegacyId(b)]) }

  /** The acknowledgement of the second record alone, out of the batch of both. */
  function SecondAck(a: Envelope, b: Envelope): AckV1 { AckV1(1, BothId(a, b), [LegacyId(b)]) }

  /** The queue holds the record, and an empty receipt stands for its batch. */
  ghost predicate Blocked(cfg: Config, m: Moment, s: nat, r: StoredRecord, env: Envelope) {
    && Quiet(cfg, m.run, m.st) && Alone(End(m.run), s, r) && Answered(m.st, EmptyAck(env))
    && EmptyAck(env).batchId in End(m.run).hist.v1Batches
  }

  lemma AtMostOneMore(before: map<BatchId, Receipt>, after: map<BatchId, Receipt>, b: BatchId)
    requires OnlyNew(before, after, b)
    ensures |after| <= |before| + 1
  {
    SubsetSize(after.Keys, before.Keys + {b});
  }

  /** The record is admitted and its batch acknowledged without naming it. */
  lemma EmptyRound(cfg: Config, rank: Rank, env: Envelope, at: int, start: Moment, one: Moment,
                   r: Result<AckResultV1>, two: Moment)
    requires Configured(cfg) && InI64(at) && RoomAlone(cfg, start, env, at) && NeverAnswered(start, env)
    requires Unpressed(start, 2)
    requires Admitting(cfg, start, env, at, one) && Answering(cfg, rank, one, EmptyAck(env), r, two)
    ensures r == Ok(AckResultV1([])) && two.st.next == start.st.next + 1 && Unpressed(two, 1)
    ensures Blocked(cfg, two, start.st.next, NewRecord(cfg, start.st.next, env, at), env)
    ensures End(two.run).hist.v1Batches == End(start.run).hist.v1Batches + {EmptyAck(env).batchId}
  {
    var stored :| Enqueues(cfg, start.run, start.st, env, at, stored, one.run, one.st);
    EntersAlone(cfg, rank, start.run, start.st, env, at, stored, one.run, one.st);
    AloneTakesEffect(cfg, rank, one.run, one.st, start.st.next, NewRecord(cfg, start.st.next, env, at),
                     EmptyAck(env), r, two.run, two.st);
    AtMostOneMore(one.st.receipts, two.st.receipts, EmptyAck(env).batchId);
  }

  lemma DifferentIds(a: Envelope, b: Envelope)
    ensures EmptyAck(a).batchId != BothId(a, b)
  {
    assert |[LegacyId(a)]| != |[LegacyId(a), LegacyId(b)]|;
  }

  lemma StillAnswered(st: State, sm: State, st': State, ack: AckV1, b: BatchId)
    requires Answered(st, ack) && SameAnswers(st, sm) && OnlyNew(sm.receipts, st'.receipts, b)
    requires ack.batchId != b && ack.batchId in st'.receipts
    ensures Answered(st', ack)
  {
  }

  /** The first record is blocked and the second may come. */
  ghost predicate ReadyForSecond(cfg: Config, m: Moment, s: nat, first: StoredRecord, t: nat, a: Envelope, b: Envelope,
                                 later: int)
    requires InI64(later) && Configured(cfg)
  {
    && Blocked(cfg, m, s, first, a) && first.recordId == LegacyId(a) && m.st.next == t && Unpressed(m, 1)
    && RoomBehind(cfg, t, first, b, later) && BothId(a, b) !in End(m.run).hist.v1Batches
  }

  lemma BecomesReady(cfg: Config, rank: Rank, a: Envelope, b: Envelope, at: int, later: int, start: Moment,
                     one: Moment, r: Result<AckResultV1>, two: Moment)
    requires Configured(cfg) && InI64(at) && InI64(later) && RoomForBoth(cfg, start, a, b, at, later)
    requires Admitting(cfg, start, a, at, one) && Answering(cfg, rank, one, EmptyAck(a), r, two)
    ensures r == Ok(AckResultV1([]))
    ensures var s := start.st.next; ReadyForSecond(cfg, two, s, NewRecord(cfg, s, a, at), s + 1, a, b, later)
  {
    EmptyRound(cfg, rank, a, at, start, one, r, two);
    DifferentIds(a, b);
    StillNew(End(start.run).hist, End(two.run).hist, EmptyAck(a).batchId, BothId(a, b));
    assert NewRecord(cfg, start.st.next, a, at).recordId == LegacyId(a);
  }

  lemma StillNew(h: History, h': History, b: BatchId, other: BatchId)
    requires h'.v1Batches == h.v1Batches + {b} && other != b && other !in h.v1Batches
    ensures other !in h'.v1Batches
  {
  }

  /** A second record comes and goes; the first is as before. */
  lemma SecondComesAndGoes(cfg: Config, rank: Rank, a: Envelope, b: Envelope, later: int, s: nat, first: StoredRecord,
                           t: nat, two: Moment, three: Moment, r: Result<AckResultV1>, four: Moment)
    requires Configured(cfg) && InI64(later) && ReadyForSecond(cfg, two, s, first, t, a, b, later)
    requires Admitting(cfg, two, b, later, three) && Answering(cfg, rank, three, SecondAck(a, b), r, four)
    ensures r == Ok(AckResultV1([LegacyId(b)])) && Blocked(cfg, four, s, first, a)
  {
    var q := NewRecord(cfg, t, b, later);
    var stored :| Enqueues(cfg, two.run, two.st, b, later, stored, three.run, three.st);
    EntersSecond(cfg, rank, two.run, two.st, s, first, b, later, stored, three.run, three.st);
    SecondTakesEffect(cfg, rank, three.run, three.st, s, first, t, q, SecondAck(a, b), r, four.run, four.st);
    RememberedBatch(cfg, four.run, four.st, EmptyAck(a).batchId);
    DifferentIds(a, b);
    StillAnswered(two.st, three.st, four.st, EmptyAck(a), BothId(a, b));
  }

  /** Naming the record is refused. */
  lemma BlockedRefuses(cfg: Config, rank: Rank, env: Envelope, s: nat, stored: StoredRecord, four: Moment,
                       r: Result<AckResultV1>, five: Moment)
    requires Configured(cfg) && Blocked(cfg, four, s, stored, env) && LegacyLength(stored) <= cfg.batchMaxBytes
    requires Answering(cfg, rank, four, AloneAck(env), r, five)
    ensures r == Err(InvalidAcknowledgement) && Stays(cfg, rank, five, s, stored)
  {
    StaysWhenUnmoved(cfg, rank, four.run, five.run, five.st, s, stored);
  }

  /** An empty queue has room for both records, and version 1 acknowledged neither their batch nor that of
      the first alone. */
  ghost predicate RoomForBoth(cfg: Config, m: Moment, a: Envelope, b: Envelope, at: int, later: int)
    requires InI64(at) && InI64(later) && Configured(cfg)
  {
    && RoomAlone(cfg, m, a, at) && NeverAnswered(m, a) && Unpressed(m, 2)
    && RoomBehind(cfg, m.st.next + 1, NewRecord(cfg, m.st.next, a, at), b, later)
    && BothId(a, b) !in End(m.run).hist.v1Batches
  }

  /** A batch of one record is acknowledged without naming it; a second record is admitted and acknowledged
      alone, out of the batch of both. The first is the batch again, and naming it is refused. */
  lemma OldReceiptRefuses(cfg: Config, rank: Rank, a: Envelope, b: Envelope, at: int, later: int, start: Moment,
                          one: Moment, nothing: Result<AckResultV1>, two: Moment, three: Moment,
                          second: Result<AckResultV1>, four: Moment, rest: Result<AckResultV1>, five: Moment)
    requires Configured(cfg) && InI64(at) && InI64(later) && RoomForBoth(cfg, start, a, b, at, later)
    requires Admitting(cfg, start, a, at, one) && Answering(cfg, rank, one, EmptyAck(a), nothing, two)
    requires Admitting(cfg, two, b, later, three) && Answering(cfg, rank, three, SecondAck(a, b), second, four)
    requires Answering(cfg, rank, four, AloneAck(a), rest, five)
    ensures nothing == Ok(AckResultV1([])) && second == Ok(AckResultV1([LegacyId(b)]))
    ensures rest == Err(InvalidAcknowledgement)
    ensures Stays(cfg, rank, five, start.st.next, NewRecord(cfg, start.st.next, a, at))
  {
    var r := NewRecord(cfg, start.st.next, a, at);
    BecomesReady(cfg, rank, a, b, at, later, start, one, nothing, two);
    SecondComesAndGoes(cfg, rank, a, b, later, start.st.next, r, start.st.next + 1, two, three, second, four);
    BlockedRefuses(cfg, rank, a, start.st.next, r, four, rest, five);
  }

  /** The operations of OldReceiptRefuses on an open spool. */
  method BlockByEmpty(spool: Spool, a: Envelope, b: Envelope, at: int, later: int)
    returns (nothing: Result<AckResultV1>, second: Result<AckResultV1>, rest: Result<AckResultV1>)
    requires spool.Valid() && InI64(at) && InI64(later)
    requires RoomForBoth(spool.store.cfg, Moment(spool.store.run, spool.state), a, b, at, later)
    modifies spool, spool.store
    ensures spool.Valid() && nothing == Ok(AckResultV1([])) && second == Ok(AckResultV1([LegacyId(b)]))
    ensures rest == Err(InvalidAcknowledgement)
    ensures var cfg, s := spool.store.cfg, old(spool.state.next);
            Stays(cfg, spool.rank, Moment(spool.store.run, spool.state), s, NewRecord(cfg, s, a, at))
  {
    ghost var start := Moment(spool.store.run, spool.state);
    AdmitThis(spool, a, at);
    ghost var one := Moment(spool.store.run, spool.state);
    nothing := AnswerThis(spool, EmptyAck(a));
    ghost var two := Moment(spool.store.run, spool.state);
    AdmitThis(spool, b, later);
    ghost var three := Moment(spool.store.run, spool.state);
    second := AnswerThis(spool, SecondAck(a, b));
    ghost var four := Moment(spool.store.run, spool.state);
    rest := AnswerThis(spool, AloneAck(a));
    OldReceiptRefuses(spool.store.cfg, spool.rank, a, b, at, later, start, one, nothing, two, three, second, four,
                      rest, Moment(spool.store.run, spool.state));
  }
}
