/** What the spool keeps on disk, the durable steps that change it, and the queue it stands for.

    A durable step is one completed `write_atomic`, one file removal or one rename to quarantine.
    The process may stop between any two of them. */
module Durable {
  import opened Finite
  import opened Wire
  import opened Limits

  const MAX_ACK_RECEIPTS: nat := 1_024
  const MAX_ENCRYPTED_RECORD_BYTES: nat := 393_216
  const MAX_ENCRYPTED_RECEIPT_BYTES: nat := 163_840
  const MAX_ENCRYPTED_SEQUENCE_STATE_BYTES: nat := 100_001_024
  const MAX_ENCRYPTED_GAP_BYTES: nat := 16_384
  const MAX_BATCH_ITEMS: nat := 256

  /** Ciphertext header of 40 bytes and authentication tag of 16 bytes. */
  const ENCRYPTION_OVERHEAD: nat := 56

  // ---------------------------------------------------------------------------
  // Files
  // ---------------------------------------------------------------------------

  datatype StoredRecord = StoredRecord(
    version: nat, recordId: RecordId, stableId: Option<RecordId>, spoolSeq: Option<nat>,
    admittedAt: int, expiresAt: int, env: Envelope)

  /** `valid_stored_record` */
  predicate ValidStored(r: StoredRecord) {
    && ValidEnvelope(r.env)
    && r.recordId == LegacyId(r.env)
    && r.admittedAt <= r.expiresAt
    && match r.version
       case 1 => r.stableId.None? && r.spoolSeq.None?
       case 2 => r.stableId == Some(StableId(r.env)) && r.spoolSeq.Some? && r.spoolSeq.value > 0
       case _ => false
  }

  /** A record carrying its number and its stable identity. */
  predicate Numbered(r: StoredRecord, s: nat) {
    r.version == 2 && r.spoolSeq == Some(s) && r.stableId.Some? && InI64(r.expiresAt)
  }

  function StableOf(r: StoredRecord): RecordId { if r.stableId.Some? then r.stableId.value else r.recordId }

  /** What `enqueue` checked before writing the record: it is valid, its file is readable again and
      it fits a delivery batch of either version. */
  ghost predicate Admissible(cfg: Config, s: nat, r: StoredRecord) {
    && ValidStored(r) && InI64(r.admittedAt)
    && RecordBytes(s, r) <= MAX_ENCRYPTED_RECORD_BYTES
    && V1RecordLength(r.admittedAt, EnvelopeLength(r.env)) <= cfg.batchMaxBytes
    && V2RecordLength(s, r.admittedAt, EnvelopeLength(r.env)) <= cfg.batchMaxBytes
  }

  function StoredLength(s: nat, admittedAt: int, expiresAt: int, envelope: nat): nat {
    238 + DigitCount(s) + IntLength(admittedAt) + IntLength(expiresAt) + envelope
  }

  /** Encrypted size of a numbered record. */
  ghost function RecordBytes(s: nat, r: StoredRecord): nat {
    StoredLength(s, r.admittedAt, r.expiresAt, EnvelopeLength(r.env)) + ENCRYPTION_OVERHEAD
  }

  function GapBytes(n: GapNotice): nat { GapLength(n) + ENCRYPTION_OVERHEAD }

  /** The contents of a pending file: what was written, or something altered from outside. */
  datatype Contents = Intact(stored: StoredRecord) | Corrupt(size: nat)

  /** A pending file; `id` is the record id in its name and `bytes` the size it was written with. */
  datatype PendingFile = PendingFile(id: RecordId, contents: Contents, bytes: nat)

  datatype Admission = Admission(spoolSeq: nat, stableId: RecordId, legacyId: RecordId)

  datatype Receipt = Receipt(
    version: nat, sequence: nat, batchId: BatchId, recordIds: seq<RecordId>, stableIds: seq<RecordId>,
    gapIds: seq<RecordId>, admissions: seq<Admission>)

  datatype SequenceState = SequenceState(
    next: nat, expiredTotal: nat, counted: map<nat, RecordId>, v1Pruned: bool)

  /** The spool directory. Pending, gap and receipt files are keyed by the number their name starts
      with; every write is proved to go to an unused number, so no two files ever share one. */
  datatype Disk = Disk(
    established: bool, pending: map<nat, PendingFile>, gaps: map<nat, GapNotice>, receipts: map<nat, Receipt>,
    sequence: Option<SequenceState>, orphan: bool, quarantineFiles: nat, quarantineBytes: nat)

  const EMPTY_DISK: Disk := Disk(false, map[], map[], map[], None, false, 0, 0)

  /** The sequence state, with the defaults recovery uses when the file is absent. */
  function Ledger(d: Disk): SequenceState {
    if d.sequence.Some? then d.sequence.value else SequenceState(1, 0, map[], false)
  }

  function FileSize(f: PendingFile): nat { if f.contents.Corrupt? then f.contents.size else f.bytes }

  ghost function PendingSizes(pending: map<nat, PendingFile>): map<nat, nat> {
    map s | s in pending :: pending[s].bytes
  }

  ghost function GapSizes(gaps: map<nat, GapNotice>): map<nat, nat> { map s | s in gaps :: GapBytes(gaps[s]) }

  /** The numbers with a pending or gap file. */
  function Files(d: Disk): set<nat> { d.pending.Keys + d.gaps.Keys }

  // ---------------------------------------------------------------------------
  // Receipts
  // ---------------------------------------------------------------------------

  function AdmissionOf(s: nat, r: StoredRecord): Admission { Admission(s, StableOf(r), r.recordId) }

  /** The sequence numbers a receipt accepts, as records or as gaps. */
  ghost function ReceiptSeqs(r: Receipt): set<nat> {
    (set a | a in r.admissions :: a.spoolSeq) + (set g | g in r.gapIds && g.NoticeDigest? :: g.spoolSeq)
  }

  /** Some receipt accepts the number. */
  ghost predicate Accepted(receipts: map<nat, Receipt>, s: nat) {
    exists n :: n in receipts && s in ReceiptSeqs(receipts[n])
  }

  function LegacyIds(admissions: seq<Admission>): set<RecordId> { set a | a in admissions :: a.legacyId }

  function StableIds(admissions: seq<Admission>): set<RecordId> { set a | a in admissions :: a.stableId }

  /** The version-dependent shape and the bounds `recover_receipts` insists on. */
  predicate ReceiptShape(r: Receipt) {
    && (match r.version
        case 1 =>
          && r.stableIds == [] && r.gapIds == []
          && |r.admissions| == |r.recordIds| && LegacyIds(r.admissions) == Members(r.recordIds)
        case 2 =>
          && r.recordIds == []
          && |r.admissions| == |r.stableIds| && StableIds(r.admissions) == Members(r.stableIds)
        case _ => false)
    && (forall i :: 0 <= i < |r.admissions| ==> r.admissions[i].spoolSeq > 0)
    && ValidDigest(r.batchId)
    && |r.recordIds| <= MAX_BATCH_ITEMS && |r.stableIds| <= MAX_BATCH_ITEMS && |r.gapIds| <= MAX_BATCH_ITEMS
    && r.sequence < U64_MAX
    && Distinct(r.recordIds) && Distinct(r.stableIds) && Distinct(r.gapIds) && Distinct(r.admissions)
  }

  // ---------------------------------------------------------------------------
  // The queue a disk stands for
  // ---------------------------------------------------------------------------

  datatype Item = Record(stored: StoredRecord) | Gap(notice: GapNotice) | Damaged(id: RecordId)

  function RetentionNotice(s: nat, r: StoredRecord): GapNotice {
    NoticeFor(s, StableOf(r), r.expiresAt, RetentionExpired)
  }

  /** The item at a number: a gap file wins over a pending file, and a counted pending file is the
      gap that will be written for it. */
  function ItemAt(d: Disk, s: nat): Item
    requires s in d.pending || s in d.gaps
  {
    if s in d.gaps then Gap(d.gaps[s])
    else if d.pending[s].contents.Corrupt? then Damaged(d.pending[s].id)
    else if s in Ledger(d).counted then Gap(RetentionNotice(s, d.pending[s].contents.stored))
    else Record(d.pending[s].contents.stored)
  }

  /** The abstract queue: everything on disk that no receipt accepts. */
  ghost function View(d: Disk): map<nat, Item> {
    map s | s in Files(d) && !Accepted(d.receipts, s) :: ItemAt(d, s)
  }

  // ---------------------------------------------------------------------------
  // History and worlds
  // ---------------------------------------------------------------------------

  /** What happened so far, whether or not a trace of it is left on disk. */
  datatype History = History(
    next: nat, admitted: map<nat, StoredRecord>, acked: set<nat>, expired: set<nat>,
    v1Batches: set<BatchId>, v1Used: bool, damaged: bool)

  datatype World = World(disk: Disk, hist: History)

  const FRESH: World := World(EMPTY_DISK, History(1, map[], {}, {}, {}, false, false))

  /** One durable step. `Damage` is an alteration from outside and `Orphan` a stop inside a write. */
  datatype Action =
    | WritePending(spoolSeq: nat, file: PendingFile)
    | RemovePending(spoolSeq: nat, quarantine: bool)
    | WriteGap(spoolSeq: nat, notice: GapNotice)
    | RemoveGap(spoolSeq: nat)
    | WriteReceipt(receipt: Receipt)
    | RemoveReceipt(sequence: nat)
    | WriteSequence(state: SequenceState)
    | WriteFormat
    | Damage(spoolSeq: nat, size: nat)
    | Orphan

  /** The numbers a sequence-state write counts as expired for the first time. */
  function NewlyCounted(d: Disk, state: SequenceState): set<nat> {
    state.counted.Keys - Ledger(d).counted.Keys
  }

  function ApplyDisk(d: Disk, a: Action): Disk {
    match a
    case WritePending(s, f) => d.(pending := d.pending[s := f])
    case RemovePending(s, q) =>
      if q && s in d.pending then
        d.(pending := d.pending - {s}, quarantineFiles := d.quarantineFiles + 1,
           quarantineBytes := d.quarantineBytes + FileSize(d.pending[s]))
      else d.(pending := d.pending - {s})
    case WriteGap(s, n) => d.(gaps := d.gaps[s := n])
    case RemoveGap(s) => d.(gaps := d.gaps - {s})
    case WriteReceipt(r) => d.(receipts := d.receipts[r.sequence := r])
    case RemoveReceipt(n) => d.(receipts := d.receipts - {n})
    case WriteSequence(state) => d.(sequence := Some(state))
    case WriteFormat => d.(established := true)
    case Damage(s, size) =>
      if s in d.pending then d.(pending := d.pending[s := d.pending[s].(contents := Corrupt(size))]) else d
    case Orphan => d.(orphan := true)
  }

  ghost function ApplyHistory(d: Disk, h: History, a: Action): History {
    match a
    case WritePending(s, f) =>
      if f.contents.Intact? then h.(next := s + 1, admitted := h.admitted[s := f.contents.stored]) else h
    case WriteReceipt(r) =>
      h.(acked := h.acked + ReceiptSeqs(r),
         v1Batches := if r.version == 1 then h.v1Batches + {r.batchId} else h.v1Batches,
         v1Used := h.v1Used || r.version == 1)
    case WriteSequence(state) => h.(expired := h.expired + NewlyCounted(d, state))
    case Damage(_, _) => h.(damaged := true)
    case _ => h
  }

  ghost function Apply(w: World, a: Action): World {
    World(ApplyDisk(w.disk, a), ApplyHistory(w.disk, w.hist, a))
  }

  // ---------------------------------------------------------------------------
  // When a step is taken
  // ---------------------------------------------------------------------------

  /** A new occurrence takes the next number, is no pending event and fits. */
  ghost predicate MayWritePending(cfg: Config, w: World, s: nat, f: PendingFile) {
    var d, h := w.disk, w.hist;
    && d.sequence.Some? && s == h.next == Ledger(d).next && s < U64_MAX
    && f.contents.Intact? && Numbered(f.contents.stored, s)
    && f.id == f.contents.stored.recordId && f.bytes <= MAX_ENCRYPTED_RECORD_BYTES
    && (forall t :: t in d.pending ==> t in h.admitted && StableOf(h.admitted[t]) != StableOf(f.contents.stored))
    && |Files(d)| < cfg.maxRecords
    && Total(PendingSizes(d.pending)) + f.bytes <= cfg.maxBytes
  }

  /** A pending file goes only when its gap notice or a receipt for it is durable. */
  ghost predicate MayRemovePending(cfg: Config, w: World, s: nat, quarantine: bool) {
    var d := w.disk;
    && s in d.pending && (s in d.gaps || Accepted(d.receipts, s))
    && (quarantine ==>
          d.quarantineFiles + 1 <= cfg.maxRecords && d.quarantineBytes + FileSize(d.pending[s]) <= cfg.maxBytes)
  }

  ghost predicate MayWriteGap(cfg: Config, w: World, s: nat, n: GapNotice) {
    var d, h := w.disk, w.hist;
    && s in d.pending && s !in d.gaps && !Accepted(d.receipts, s) && s in h.admitted
    && (n.reason.RetentionExpired? ==> s in Ledger(d).counted && n == RetentionNotice(s, h.admitted[s]))
    && (n.reason.IntegrityQuarantine? ==>
          && d.pending[s].contents.Corrupt? && InI64(n.occurredAt)
          && (n == NoticeFor(s, StableOf(h.admitted[s]), n.occurredAt, IntegrityQuarantine)
              || n == NoticeFor(s, h.admitted[s].recordId, n.occurredAt, IntegrityQuarantine)))
    && Total(GapSizes(d.gaps)) + GapBytes(n) <= cfg.maxBytes
    && (!h.damaged ==> d.pending.Keys !! d.gaps.Keys)
  }

  ghost predicate MayRemoveGap(w: World, s: nat) {
    s in w.disk.gaps && exists n :: n in w.disk.receipts && w.disk.gaps[s].noticeId in w.disk.receipts[n].gapIds
  }

  /** A receipt names live items only, each by its exact identity. */
  ghost predicate AcceptsLive(d: Disk, r: Receipt) {
    && (forall a :: a in r.admissions ==>
          && a.spoolSeq in View(d) && View(d)[a.spoolSeq].Record?
          && a == AdmissionOf(a.spoolSeq, View(d)[a.spoolSeq].stored))
    && (forall g :: g in r.gapIds ==>
          && g.NoticeDigest? && g.spoolSeq in View(d)
          && View(d)[g.spoolSeq].Gap? && View(d)[g.spoolSeq].notice.noticeId == g)
  }

  /** Nothing live is left before an accepted item. */
  ghost predicate AcceptsPrefix(d: Disk, r: Receipt) {
    forall s, t :: s in ReceiptSeqs(r) && t in View(d) && t < s ==> t in ReceiptSeqs(r)
  }

  /** A batch identifier of version 2 names first what comes first in the queue. */
  ghost predicate NamesFirst(d: Disk, b: BatchId) {
    && b.BatchV2Digest?
    && (b.items != [] ==> b.items[0].spoolSeq in View(d) && forall t :: t in View(d) ==> b.items[0].spoolSeq <= t)
  }

  ghost predicate MayWriteReceipt(w: World, r: Receipt) {
    var d, h := w.disk, w.hist;
    && d.sequence.Some? && Ledger(d).next == h.next
    && ReceiptShape(r)
    && (forall m :: m in d.receipts ==> m < r.sequence && d.receipts[m].batchId != r.batchId)
    && d.pending.Keys !! d.gaps.Keys
    && AcceptsLive(d, r)
    && (r.version == 2 ==> AcceptsPrefix(d, r) && NamesFirst(d, r.batchId))
    && (r.version == 1 ==>
          && r.batchId.BatchV1Digest? && d.gaps == map[]
          && d.pending.Keys !! Ledger(d).counted.Keys && !Ledger(d).v1Pruned)
  }

  /** Only the oldest receipt goes, only beyond the retained number, and only when nothing it
      accepted is left; version 1 history is marked as pruned first. */
  ghost predicate MayRemoveReceipt(w: World, n: nat) {
    var d := w.disk;
    && n in d.receipts && |d.receipts| > MAX_ACK_RECEIPTS
    && (forall m :: m in d.receipts ==> n <= m)
    && (forall s :: s in ReceiptSeqs(d.receipts[n]) ==>
          s !in d.pending && s !in d.gaps && (!w.hist.damaged ==> s !in Ledger(d).counted))
    && (d.receipts[n].version == 1 ==> Ledger(d).v1Pruned)
  }

  /** A sequence-state write never lowers the next number, counts each expiry once, and forgets a
      counted number only when its pending file is gone. */
  ghost predicate MayWriteSequence(w: World, state: SequenceState) {
    && state.next == w.hist.next
    && state.expiredTotal == Ledger(w.disk).expiredTotal + |NewlyCounted(w.disk, state)|
    && (Ledger(w.disk).v1Pruned ==> state.v1Pruned)
    && (forall s {:trigger MayCount(w, state, s)} :: MayCount(w, state, s))
  }

  /** What a sequence-state write may say about one number. */
  ghost predicate MayCount(w: World, state: SequenceState, s: nat) {
    var d, h, l := w.disk, w.hist, Ledger(w.disk);
    && (s in state.counted && s !in l.counted ==>
          && s in d.pending && s !in d.gaps && !Accepted(d.receipts, s)
          && s in h.admitted && state.counted[s] == StableOf(h.admitted[s]))
    && (s in state.counted && s in l.counted ==> state.counted[s] == l.counted[s])
    && (s in l.counted && s !in state.counted ==> s !in d.pending)
    && (s in state.counted && !h.damaged ==> s in d.pending)
  }

  ghost predicate Enabled(cfg: Config, w: World, a: Action) {
    match a
    case WritePending(s, f) => MayWritePending(cfg, w, s, f)
    case RemovePending(s, q) => MayRemovePending(cfg, w, s, q)
    case WriteGap(s, n) => MayWriteGap(cfg, w, s, n)
    case RemoveGap(s) => MayRemoveGap(w, s)
    case WriteReceipt(r) => MayWriteReceipt(w, r)
    case RemoveReceipt(n) => MayRemoveReceipt(w, n)
    case WriteSequence(state) => MayWriteSequence(w, state)
    case WriteFormat => w.disk.sequence.Some?
    case Damage(s, size) => s in w.disk.pending
    case Orphan => true
  }

  // ---------------------------------------------------------------------------
  // Runs
  // ---------------------------------------------------------------------------

  /** Steps and the worlds before, between and after them. */
  datatype Trace = Trace(worlds: seq<World>, steps: seq<Action>)

  type Run = t: Trace | |t.worlds| == |t.steps| + 1 witness Trace([FRESH], [])

  function End(run: Run): World { run.worlds[|run.steps|] }

  ghost function Extend(run: Run, a: Action): Run {
    Trace(run.worlds + [Apply(End(run), a)], run.steps + [a])
  }

  predicate Continues(run: Run, longer: Run) {
    run.steps <= longer.steps && run.worlds <= longer.worlds
  }

  /** Step `i` was allowed in the world it was taken in and led to the next world. */
  ghost predicate Allowed(cfg: Config, run: Run, i: nat)
    requires i < |run.steps|
  {
    Enabled(cfg, run.worlds[i], run.steps[i]) && run.worlds[i + 1] == Apply(run.worlds[i], run.steps[i])
  }

  /** A record write stores an admissible record at its encrypted size. */
  ghost predicate Admits(cfg: Config, a: Action) {
    a.WritePending? && a.file.contents.Intact? ==>
      Admissible(cfg, a.spoolSeq, a.file.contents.stored)
          && a.file.bytes == RecordBytes(a.spoolSeq, a.file.contents.stored)
  }

  /** A run from an empty directory in which every step was allowed. A stop of the process leaves
      the disk of some world of the run; reopening continues the run from there. */
  ghost predicate Legal(cfg: Config, run: Run) {
    && run.worlds[0] == FRESH
    && (forall i {:trigger Allowed(cfg, run, i)} :: 0 <= i < |run.steps| ==> Allowed(cfg, run, i))
    && (forall i {:trigger Admits(cfg, run.steps[i])} :: 0 <= i < |run.steps| ==> Admits(cfg, run.steps[i]))
  }
}
