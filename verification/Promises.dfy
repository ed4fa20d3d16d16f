/** What the operations mean to their callers, from an envelope that is admitted to the batch, the gap and
    the acknowledgement that come of it. The statements name fields, numbers and encoded lengths, not the
    functions the operations are specified by. */
module Promises {
  import opened Finite
  import opened Wire
  import opened Limits
  import opened Durable
  import opened Invariant
  import opened Safety
  import opened Cache
  import opened Machine
  import opened Expiry
  import opened Batch
  import opened Delivery
  import opened Receipts
  import opened Admit
  import opened Acknowledge
  import opened Legacy
  import opened Recovery
  import opened Spools

  // ---------------------------------------------------------------------------
  // Version 2 batches
  // ---------------------------------------------------------------------------

  /** The record is the one stored at its number, unchanged. */
  ghost predicate Carries(v: map<nat, Item>, r: RecordV2) {
    && r.spoolSeq in v && v[r.spoolSeq].Record?
    && r.env == v[r.spoolSeq].stored.env && r.receivedAt == v[r.spoolSeq].stored.admittedAt
    && r.legacyId == v[r.spoolSeq].stored.recordId
    && (v[r.spoolSeq].stored.stableId.Some? ==> r.recordId == v[r.spoolSeq].stored.stableId.value)
  }

  /** Every record of a batch carries the stored envelope, admission time and identifiers, and every gap is
      the notice in the queue. */
  lemma BatchCarries(cfg: Config, v: map<nat, Item>, b: BatchV2)
    requires IsBatch(cfg, v, b) && GapsInPlace(v)
    ensures forall r :: r in b.records ==> Carries(v, r)
    ensures forall n :: n in b.gaps ==> n.spoolSeq in v && v[n.spoolSeq] == Gap(n)
  {
    var xs, k: nat :| BatchHolds(cfg, v, xs, k, b);
    RecordsInOrder(v, xs[..k]);
    GapsInOrder(v, xs[..k]);
    forall r | r in b.records
      ensures Carries(v, r)
    {
      var i :| 0 <= i < |b.records| && b.records[i] == r;
    }
    forall n | n in b.gaps
      ensures n.spoolSeq in v && v[n.spoolSeq] == Gap(n)
    {
      var i :| 0 <= i < |b.gaps| && b.gaps[i] == n;
    }
  }

  /** The numbers a batch delivers. */
  ghost function Delivers(b: BatchV2): set<nat> {
    (set r | r in b.records :: r.spoolSeq) + (set n | n in b.gaps :: n.spoolSeq)
  }

  lemma {:induction false} DeliversFirst(v: map<nat, Item>, xs: seq<nat>)
    requires (forall x :: x in xs ==> x in v && !v[x].Damaged?) && Increasing(xs) && GapsInPlace(v)
    ensures Delivers(BatchV2(OtherText(""), Records(v, xs), Gaps(v, xs))) == Members(xs)
    ensures |Records(v, xs)| + |Gaps(v, xs)| == |xs|
  {
    RecordsInOrder(v, xs);
    GapsInOrder(v, xs);
    NothingLost(v, xs);
    var b := BatchV2(OtherText(""), Records(v, xs), Gaps(v, xs));
    forall s
      ensures s in Delivers(b) <==> s in xs
    {
      if s in xs {
        if v[s].Record? { assert Delivered(s, v[s].stored) in b.records; } else { assert v[s].notice in b.gaps; }
      }
    }
  }

  /** The encoded bytes of records and of gaps. */
  ghost function RecordsLength(rs: seq<RecordV2>): nat {
    if rs == [] then 0
    else
      var r := rs[|rs| - 1];
      RecordsLength(rs[..|rs| - 1]) + V2RecordLength(r.spoolSeq, r.receivedAt, EnvelopeLength(r.env))
  }

  ghost function GapsLength(ns: seq<GapNotice>): nat {
    if ns == [] then 0 else GapsLength(ns[..|ns| - 1]) + GapLength(ns[|ns| - 1])
  }

  lemma {:induction false} BytesAreEncoded(v: map<nat, Item>, xs: seq<nat>)
    requires forall x :: x in xs ==> x in v && !v[x].Damaged?
    ensures Bytes(v, xs) == RecordsLength(Records(v, xs)) + GapsLength(Gaps(v, xs))
  {
    if xs != [] {
      var s, rest := xs[|xs| - 1], xs[..|xs| - 1];
      BytesAreEncoded(v, rest);
      if v[s].Record? {
        assert Records(v, xs)[..|Records(v, xs)| - 1] == Records(v, rest);
      } else {
        assert Gaps(v, xs)[..|Gaps(v, xs)| - 1] == Gaps(v, rest);
      }
    }
  }

  /** Whether the item would still go into the batch: by number of items, by its kind and by bytes. */
  ghost predicate StillFits(cfg: Config, b: BatchV2, s: nat, item: Item) {
    && |b.records| + |b.gaps| + 1 <= cfg.batchMaxRecords
    && (item.Record? ==> |b.records| + 1 <= 256) && (item.Gap? ==> |b.gaps| + 1 <= 256)
    && RecordsLength(b.records) + GapsLength(b.gaps)
       + (match item
          case Record(r) => V2RecordLength(s, r.admittedAt, EnvelopeLength(r.env))
          case Gap(n) => GapLength(n)
          case Damaged(_) => 0) <= cfg.batchMaxBytes
  }

  /** A batch takes the queue from its lowest number on, without leaving one out, within the configured
      items and bytes and 256 of each kind, and stops only where the next item no longer fits. */
  lemma BatchIsLongest(cfg: Config, v: map<nat, Item>, b: BatchV2)
    requires IsBatch(cfg, v, b) && GapsInPlace(v)
    ensures Delivers(b) <= v.Keys && forall s, t :: s in v && t in Delivers(b) && s < t ==> s in Delivers(b)
    ensures |b.records| + |b.gaps| == |Delivers(b)| <= cfg.batchMaxRecords
    ensures |b.records| <= 256 && |b.gaps| <= 256
    ensures RecordsLength(b.records) + GapsLength(b.gaps) <= cfg.batchMaxBytes
    ensures forall s :: s in v && s !in Delivers(b) && (forall t :: t in v && t < s ==> t in Delivers(b)) ==>
              !StillFits(cfg, b, s, v[s])
  {
    var xs, k: nat :| BatchHolds(cfg, v, xs, k, b);
    var ys := xs[..k];
    FirstUndamaged(v, xs, k);
    DeliversFirst(v, ys);
    BytesAreEncoded(v, ys);
    MembersSize(ys);
    assert Delivers(b) == Members(ys);
    forall s, t | s in v && t in Delivers(b) && s < t
      ensures s in Delivers(b)
    {
      PrefixOf(v, xs, k, s, t);
    }
    forall s | s in v && s !in Delivers(b) && (forall t :: t in v && t < s ==> t in Delivers(b))
      ensures !StillFits(cfg, b, s, v[s])
    {
      NextAfterFirst(v, xs, k, s);
      OneMore(cfg, v, xs, k, b);
    }
  }

  lemma FirstUndamaged(v: map<nat, Item>, xs: seq<nat>, k: nat)
    requires k <= |xs| && (forall x :: x in xs ==> x in v) && (forall i :: 0 <= i < k ==> !v[xs[i]].Damaged?)
    ensures forall x :: x in xs[..k] ==> x in v && !v[x].Damaged?
  {
    forall x | x in xs[..k]
      ensures x in v && !v[x].Damaged?
    {
      var i :| 0 <= i < k && xs[..k][i] == x;
      assert xs[i] in xs;
    }
  }

  lemma {:induction false} MembersSize(xs: seq<nat>)
    requires Increasing(xs)
    ensures |Members(xs)| == |xs|
  {
    if xs != [] {
      var rest, last := xs[..|xs| - 1], xs[|xs| - 1];
      MembersSize(rest);
      assert last !in rest;
      assert Members(xs) == Members(rest) + {last};
    }
  }

  lemma PrefixOf(v: map<nat, Item>, xs: seq<nat>, k: nat, s: nat, t: nat)
    requires Lists(v.Keys, xs) && k <= |xs| && s in v && t in xs[..k] && s < t
    ensures s in xs[..k]
  {
    assert s in xs;
    var i :| 0 <= i < |xs| && xs[i] == s;
    var j :| 0 <= j < k && xs[..k][j] == t;
    assert i < j;
    assert xs[..k][i] == s;
  }

  lemma NextAfterFirst(v: map<nat, Item>, xs: seq<nat>, k: nat, s: nat)
    requires Lists(v.Keys, xs) && k <= |xs| && s in v && s !in xs[..k]
    requires forall t :: t in v && t < s ==> t in xs[..k]
    ensures k < |xs| && xs[k] == s
  {
    if k < |xs| { assert xs[k] in xs && forall j :: 0 <= j < k ==> xs[..k][j] < xs[k]; }
    assert s in xs;
    var i :| 0 <= i < |xs| && xs[i] == s;
  }

  lemma OneMore(cfg: Config, v: map<nat, Item>, xs: seq<nat>, k: nat, b: BatchV2)
    requires k < |xs| && (forall x :: x in xs ==> x in v) && (forall x :: x in xs[..k] ==> !v[x].Damaged?)
    requires b.records == Records(v, xs[..k]) && b.gaps == Gaps(v, xs[..k]) && !Fits(cfg, v, xs[..k + 1])
    requires |b.records| <= 256 && |b.gaps| <= 256
    ensures !StillFits(cfg, b, xs[k], v[xs[k]])
  {
    OneMoreItem(v, xs, k);
    BytesAreEncoded(v, xs[..k]);
    NothingLost(v, xs[..k]);
  }

  /** The identifier of a batch names what the batch delivers: each record and gap by number, kind and
      identifier, in ascending order. */
  lemma BatchIdNames(cfg: Config, v: map<nat, Item>, b: BatchV2)
    requires IsBatch(cfg, v, b) && GapsInPlace(v)
    ensures b.batchId.BatchV2Digest?
    ensures forall i, j :: 0 <= i < j < |b.batchId.items| ==> b.batchId.items[i].spoolSeq < b.batchId.items[j].spoolSeq
    ensures forall key :: key in b.batchId.items <==> NamedKey(b, key)
  {
    var xs, k: nat :| BatchHolds(cfg, v, xs, k, b);
    var ys := xs[..k];
    FirstUndamaged(v, xs, k);
    forall key
      ensures key in Keys(v, ys) <==> NamedKey(b, key)
    {
      KeyNamed(v, ys, b, key);
    }
  }

  ghost predicate NamedKey(b: BatchV2, key: ItemKey) {
    || (key.isRecord && exists r :: r in b.records && key == ItemKey(r.spoolSeq, true, r.recordId))
    || (!key.isRecord && exists n :: n in b.gaps && key == ItemKey(n.spoolSeq, false, n.noticeId))
  }

  lemma KeyNamed(v: map<nat, Item>, ys: seq<nat>, b: BatchV2, key: ItemKey)
    requires (forall x :: x in ys ==> x in v && !v[x].Damaged?) && Increasing(ys) && GapsInPlace(v)
    requires b.records == Records(v, ys) && b.gaps == Gaps(v, ys)
    ensures key in Keys(v, ys) <==> NamedKey(b, key)
  {
    RecordsInOrder(v, ys);
    GapsInOrder(v, ys);
    if key in Keys(v, ys) {
      var i :| 0 <= i < |ys| && Keys(v, ys)[i] == key;
      assert ys[i] in ys;
      if v[ys[i]].Record? {
        assert Delivered(ys[i], v[ys[i]].stored) in b.records;
      } else {
        assert v[ys[i]].notice in b.gaps;
      }
    }
    if NamedKey(b, key) { KeyFound(v, ys, b, key); }
  }

  lemma KeyFound(v: map<nat, Item>, ys: seq<nat>, b: BatchV2, key: ItemKey)
    requires (forall x :: x in ys ==> x in v && !v[x].Damaged?) && Increasing(ys) && GapsInPlace(v)
    requires b.records == Records(v, ys) && b.gaps == Gaps(v, ys) && NamedKey(b, key)
    ensures key in Keys(v, ys)
  {
    RecordsInOrder(v, ys);
    GapsInOrder(v, ys);
    var s := key.spoolSeq;
    if key.isRecord {
      var r :| r in b.records && key == ItemKey(r.spoolSeq, true, r.recordId);
      var j :| 0 <= j < |b.records| && b.records[j] == r;
    } else {
      var n :| n in b.gaps && key == ItemKey(n.spoolSeq, false, n.noticeId);
      var j :| 0 <= j < |b.gaps| && b.gaps[j] == n;
    }
    var i :| 0 <= i < |ys| && ys[i] == s;
    assert Keys(v, ys)[i] == key;
  }

  // ---------------------------------------------------------------------------
  // From admission to delivery
  // ---------------------------------------------------------------------------

  /** A stored record is due exactly when more than the retention has passed since its admission. */
  lemma LifetimeIsRetention(cfg: Config, run: Run, st: State, env: Envelope, at: int, r: Result<Outcome>,
                            run': Run, st': State, now: int)
    requires InI64(at) && InI64(now) && Configured(cfg) && Enqueues(cfg, run, st, env, at, r, run', st')
    requires r.Ok? && r.value.Stored?
    ensures st.next in View(End(run').disk)
    ensures st.next in DueNow(View(End(run').disk), now) <==> at + cfg.retentionMs < now
  {
    StoredItem(cfg, run, st, env, at, r, run', st');
    DueMeans(View(End(run').disk), st.next, now);
  }

  /** The item a stored envelope becomes. */
  lemma StoredItem(cfg: Config, run: Run, st: State, env: Envelope, at: int, r: Result<Outcome>, run': Run, st': State)
    requires InI64(at) && Configured(cfg) && Enqueues(cfg, run, st, env, at, r, run', st')
    requires r.Ok? && r.value.Stored?
    ensures st.next in View(End(run').disk) && View(End(run').disk)[st.next].Record?
    ensures var q := View(End(run').disk)[st.next].stored;
            q.env == env && q.admittedAt == at && q.expiresAt == ExpiryInstant(cfg, at)
  {
    ExpiresThen(cfg, st.next, env, at);
  }

  lemma ExpiresThen(cfg: Config, s: nat, env: Envelope, at: int)
    requires InI64(at) && Configured(cfg)
    ensures NewRecord(cfg, s, env, at).expiresAt == ExpiryInstant(cfg, at)
  {
  }

  lemma DueMeans(v: map<nat, Item>, s: nat, now: int)
    ensures s in DueNow(v, now) <==> s in v && v[s].Record? && v[s].stored.expiresAt < now
  {
  }

  /** What an expiry does at every number: a record past its expiry becomes a gap that tells its number,
      its stable identity and the instant it expired; everything else stays. */
  lemma ExpiredTells(before: Run, after: Run, now: int, s: nat)
    requires Expires(before, after, now)
    ensures var v, v' := View(End(before).disk), View(End(after).disk);
            && (s in v' <==> s in v)
            && (s in v && v[s].Record? && v[s].stored.expiresAt < now ==>
                  v'[s].Gap? && Tells(v'[s].notice, s, v[s].stored))
            && (s in v && !(v[s].Record? && v[s].stored.expiresAt < now) ==> v'[s] == v[s])
  {
  }

  /** The notice says which record expired and when. */
  ghost predicate Tells(n: GapNotice, s: nat, r: StoredRecord) {
    && n.spoolSeq == s && n.occurredAt == r.expiresAt && n.reason == RetentionExpired
    && n.evidence.spoolSeq == s && n.evidence.reason == RetentionExpired
    && (r.stableId.Some? ==> n.evidence.identity == r.stableId.value)
    && n.noticeId == NoticeDigest(s, RetentionExpired, n.evidence)
  }

  /** An envelope that was stored is delivered as it was sent, at its number and with its admission time,
      or as the gap of its expiry, in every batch of every later directory of the run. */
  lemma DeliveredAsSent(cfg: Config, run: Run, st: State, env: Envelope, at: int, r: Result<Outcome>,
                        run': Run, st': State, later: Run, b: BatchV2)
    requires InI64(at) && Configured(cfg) && Enqueues(cfg, run, st, env, at, r, run', st')
    requires r.Ok? && r.value.Stored?
    requires Legal(cfg, later) && Continues(run', later) && !End(later).hist.damaged
    requires IsBatch(cfg, View(End(later).disk), b)
    ensures forall q :: q in b.records && q.spoolSeq == st.next ==>
              q.env == env && q.receivedAt == at && q.recordId == StableId(env) && q.legacyId == LegacyId(env)
    ensures forall n :: n in b.gaps && n.spoolSeq == st.next ==>
              && n.occurredAt == (if at + cfg.retentionMs > I64_MAX then I64_MAX else at + cfg.retentionMs)
              && n.reason == RetentionExpired && n.evidence == Evidence(st.next, StableId(env), RetentionExpired)
              && n.noticeId == NoticeDigest(st.next, RetentionExpired, n.evidence)
  {
    var s := st.next;
    StaysAdmitted(cfg, run', later, s);
    QueueGapsInPlace(cfg, later);
    BatchCarries(cfg, View(End(later).disk), b);
    if s in View(End(later).disk) { LiveItem(cfg, later, |later.steps|, s); }
  }

  lemma StaysAdmitted(cfg: Config, run: Run, later: Run, s: nat)
    requires Legal(cfg, later) && Continues(run, later) && s in End(run).hist.admitted
    ensures s in End(later).hist.admitted && End(later).hist.admitted[s] == End(run).hist.admitted[s]
  {
    assert later.worlds[|run.steps|] == End(run);
    HistoryGrows(cfg, later, |run.steps|, |later.steps|);
  }

  // ---------------------------------------------------------------------------
  // Admission
  // ---------------------------------------------------------------------------

  /** The instant a record admitted at `at` expires. */
  function ExpiryInstant(cfg: Config, at: int): int {
    if at + cfg.retentionMs > 0x7FFF_FFFF_FFFF_FFFF then 0x7FFF_FFFF_FFFF_FFFF else at + cfg.retentionMs
  }

  /** It fits a delivery batch of either version. */
  ghost predicate FitsBatches(cfg: Config, s: nat, env: Envelope, at: int) {
    && V1RecordLength(at, EnvelopeLength(env)) <= cfg.batchMaxBytes
    && V2RecordLength(s, at, EnvelopeLength(env)) <= cfg.batchMaxBytes
  }

  /** The directory takes one more file of this size, with the margin the source adds. */
  ghost predicate FitsDirectory(cfg: Config, d: Disk, plain: nat) {
    |d.pending| + |d.gaps| < cfg.maxRecords && Total(PendingSizes(d.pending)) + plain + 64 <= cfg.maxBytes
  }

  /** Admission, decided by the directory: a valid envelope is stored exactly if no pending record is the
      same event, a number is left and it fits the batches, the directory and a readable file; every
      refusal names what is missing. */
  lemma AdmissionIsExact(cfg: Config, run: Run, st: State, env: Envelope, at: int, r: Result<Outcome>,
                         run': Run, st': State)
    requires InI64(at) && Configured(cfg) && Steady(st, End(run)) && ValidEnvelope(env)
    requires Enqueues(cfg, run, st, env, at, r, run', st')
    ensures var d, plain := End(run).disk, StoredLength(st.next, at, ExpiryInstant(cfg, at), EnvelopeLength(env));
            var twice := exists s :: s in d.pending && s in End(run).hist.admitted
                                     && SameEvent(End(run).hist.admitted[s].env, env);
            var batches, room, readable :=
              FitsBatches(cfg, st.next, env, at), FitsDirectory(cfg, d, plain), plain + 56 <= 393_216;
            && (r.Ok? && r.value.AlreadyPresent? <==> twice)
            && (r.Ok? && r.value.Stored? <==>
                  !twice && st.next < 0xFFFF_FFFF_FFFF_FFFF && batches && room && readable)
            && (r.Err? ==>
                  r.error == if st.next >= 0xFFFF_FFFF_FFFF_FFFF then InvalidConfig
                    else if !batches then BatchItemTooLarge else if !room then CapacityExceeded else BatchItemTooLarge)
  {
    PresentMeans(End(run), env);
    ExpiresThen(cfg, st.next, env, at);
    RoomMeans(cfg, st, End(run).disk, st.next, NewRecord(cfg, st.next, env, at));
  }

  lemma RoomMeans(cfg: Config, st: State, d: Disk, s: nat, q: StoredRecord)
    requires |st.entries| == |d.pending| && |st.gaps| == |d.gaps| && st.pendingBytes == Total(PendingSizes(d.pending))
    ensures var plain := StoredLength(s, q.admittedAt, q.expiresAt, EnvelopeLength(q.env));
            var batches, room := FitsBatches(cfg, s, q.env, q.admittedAt), FitsDirectory(cfg, d, plain);
            && (Room(cfg, st, s, q) <==> batches && room && plain + 56 <= 393_216)
            && (!Room(cfg, st, s, q) ==>
                Shortage(cfg, st, s, q) ==
                if !batches then BatchItemTooLarge else if !room then CapacityExceeded else BatchItemTooLarge)
  {
  }

  lemma PresentMeans(w: World, env: Envelope)
    ensures Present(w, env) <==>
            exists s :: s in w.disk.pending && s in w.hist.admitted && SameEvent(w.hist.admitted[s].env, env)
  {
    if s :| s in w.disk.pending && s in w.hist.admitted && SameEvent(w.hist.admitted[s].env, env) {
      assert EventPending(w, env, s);
    }
  }

  // ---------------------------------------------------------------------------
  // Version 2 acknowledgements
  // ---------------------------------------------------------------------------

  /** The identifiers sent are those of everything the batch delivers up to a number. */
  ghost predicate SendsUpTo(b: BatchV2, ack: AckV2, last: int) {
    && (forall id :: id in ack.recordIds <==> exists r :: r in b.records && r.spoolSeq <= last && r.recordId == id)
    && (forall id :: id in ack.gapIds <==> exists n :: n in b.gaps && n.spoolSeq <= last && n.noticeId == id)
  }

  /** The numbers delivered up to one. */
  ghost function UpTo(b: BatchV2, last: int): set<nat> { set s | s in Delivers(b) && s <= last }

  /** An acknowledgement is accepted exactly if it names the current batch and sends the identifiers of
      everything the batch delivers up to some number. */
  lemma AcceptedMeans(cfg: Config, v: map<nat, Item>, b: BatchV2, ack: AckV2)
    requires IsBatch(cfg, v, b) && GapsInPlace(v)
    ensures (exists accepted :: Acknowledges(cfg, v, ack, accepted)) <==>
            ack.batchId == b.batchId && exists last: int :: SendsUpTo(b, ack, last)
  {
    if accepted :| Acknowledges(cfg, v, ack, accepted) { var last := AcceptedGoes(cfg, v, b, ack, accepted); }
    if last: int :| ack.batchId == b.batchId && SendsUpTo(b, ack, last) { SentIsAccepted(cfg, v, b, ack, last); }
  }

  /** And then exactly these numbers go. */
  lemma AcceptedGoes(cfg: Config, v: map<nat, Item>, b: BatchV2, ack: AckV2, accepted: set<nat>) returns (last: int)
    requires IsBatch(cfg, v, b) && GapsInPlace(v) && Acknowledges(cfg, v, ack, accepted)
    ensures ack.batchId == b.batchId && SendsUpTo(b, ack, last) && accepted == UpTo(b, last)
  {
    var xs, k: nat :| BatchHolds(cfg, v, xs, k, b);
    FirstUndamaged(v, xs, k);
    var m := AcceptedFirst(cfg, v, ack, accepted, xs, k, b);
    last := FirstGoes(v, xs[..k], b, ack, m, accepted);
  }

  lemma FirstGoes(v: map<nat, Item>, ys: seq<nat>, b: BatchV2, ack: AckV2, m: nat, accepted: set<nat>)
    returns (last: int)
    requires (forall x :: x in ys ==> x in v && !v[x].Damaged?) && Increasing(ys) && GapsInPlace(v) && m <= |ys|
    requires b.records == Records(v, ys) && b.gaps == Gaps(v, ys)
    requires AcceptsFirst(Keys(v, ys), ack, m) && accepted == Members(ys[..m])
    ensures SendsUpTo(b, ack, last) && accepted == UpTo(b, last)
  {
    DeliversFirst(v, ys);
    assert Delivers(b) == Members(ys);
    last := if m == 0 then -1 else ys[m - 1];
    UpToIsFirst(v, ys, b, ack, m, last);
    FirstUpTo(ys, m, last);
  }

  lemma SentIsAccepted(cfg: Config, v: map<nat, Item>, b: BatchV2, ack: AckV2, last: int)
    requires IsBatch(cfg, v, b) && GapsInPlace(v) && ack.batchId == b.batchId && SendsUpTo(b, ack, last)
    ensures exists accepted :: Acknowledges(cfg, v, ack, accepted)
  {
    var xs, k: nat :| BatchHolds(cfg, v, xs, k, b);
    var ys := xs[..k];
    FirstUndamaged(v, xs, k);
    var m := CutAt(ys, last);
    UpToIsFirst(v, ys, b, ack, m, last);
    assert AcknowledgesFirst(cfg, v, ack, Members(ys[..m]), xs, k, b, m);
    assert Acknowledges(cfg, v, ack, Members(ys[..m]));
  }

  /** The accepted numbers are the first ones of the one batch. */
  lemma AcceptedFirst(cfg: Config, v: map<nat, Item>, ack: AckV2, accepted: set<nat>, xs: seq<nat>, k: nat, b: BatchV2)
    returns (m: nat)
    requires BatchHolds(cfg, v, xs, k, b) && Acknowledges(cfg, v, ack, accepted)
    ensures m <= k <= |xs| && ack.batchId == b.batchId && AcceptsFirst(Keys(v, xs[..k]), ack, m)
    ensures accepted == Members(xs[..k][..m])
  {
    var ys, j: nat, c, n: nat :| AcknowledgesFirst(cfg, v, ack, accepted, ys, j, c, n);
    SameBatch(cfg, v, xs, k, b, ys, j, c);
    ListsOnce(v.Keys, xs, ys);
    MostIsUnique(cfg, v, xs, k, j);
    m := n;
  }

  /** How many of the numbers lie up to a bound. */
  lemma {:induction false} CutAt(ys: seq<nat>, last: int) returns (m: nat)
    requires Increasing(ys)
    ensures m <= |ys| && forall i :: 0 <= i < |ys| ==> (i < m <==> ys[i] <= last)
  {
    if ys == [] || ys[|ys| - 1] <= last { return |ys|; }
    m := CutAt(ys[..|ys| - 1], last);
  }

  lemma FirstUpTo(ys: seq<nat>, m: nat, last: int)
    requires Increasing(ys) && m <= |ys| && last == if m == 0 then -1 else ys[m - 1]
    ensures Members(ys[..m]) == set s | s in Members(ys) && s <= last
  {
    forall s
      ensures s in ys[..m] <==> s in ys && s <= last
    {
      if s in ys && s <= last {
        var i :| 0 <= i < |ys| && ys[i] == s;
        assert i < m;
        assert ys[..m][i] == s;
      }
    }
  }

  /** Sending what the batch delivers up to a number is accepting its first items. */
  lemma UpToIsFirst(v: map<nat, Item>, ys: seq<nat>, b: BatchV2, ack: AckV2, m: nat, last: int)
    requires (forall x :: x in ys ==> x in v && !v[x].Damaged?) && Increasing(ys) && GapsInPlace(v) && m <= |ys|
    requires b.records == Records(v, ys) && b.gaps == Gaps(v, ys)
    requires forall i :: 0 <= i < |ys| ==> (i < m <==> ys[i] <= last)
    ensures AcceptsFirst(Keys(v, ys), ack, m) <==> SendsUpTo(b, ack, last)
  {
    forall id
      ensures id in IdsOf(Keys(v, ys)[..m], true) <==>
              exists r :: r in b.records && r.spoolSeq <= last && r.recordId == id
      ensures id in IdsOf(Keys(v, ys)[..m], false) <==>
              exists n :: n in b.gaps && n.spoolSeq <= last && n.noticeId == id
    {
      RecordSent(v, ys, b, m, last, id);
      GapSent(v, ys, b, m, last, id);
    }
    assert Members(ack.recordIds) == IdsOf(Keys(v, ys)[..m], true) <==>
           forall id :: id in ack.recordIds <==> id in IdsOf(Keys(v, ys)[..m], true);
    assert Members(ack.gapIds) == IdsOf(Keys(v, ys)[..m], false) <==>
           forall id :: id in ack.gapIds <==> id in IdsOf(Keys(v, ys)[..m], false);
  }

  lemma RecordSent(v: map<nat, Item>, ys: seq<nat>, b: BatchV2, m: nat, last: int, id: RecordId)
    requires (forall x :: x in ys ==> x in v && !v[x].Damaged?) && Increasing(ys) && GapsInPlace(v) && m <= |ys|
    requires b.records == Records(v, ys) && b.gaps == Gaps(v, ys)
    requires forall i :: 0 <= i < |ys| ==> (i < m <==> ys[i] <= last)
    ensures id in IdsOf(Keys(v, ys)[..m], true) <==>
            exists r :: r in b.records && r.spoolSeq <= last && r.recordId == id
  {
    var keys := Keys(v, ys);
    RecordsInOrder(v, ys);
    if id in IdsOf(keys[..m], true) {
      var i :| 0 <= i < m && keys[..m][i].isRecord && keys[..m][i].id == id;
      assert keys[i] == KeyOf(ys[i], v[ys[i]]) && ys[i] in ys;
      assert Delivered(ys[i], v[ys[i]].stored) in b.records;
    }
    if r :| r in b.records && r.spoolSeq <= last && r.recordId == id {
      KeyFound(v, ys, b, ItemKey(r.spoolSeq, true, r.recordId));
      var i :| 0 <= i < |keys| && keys[i] == ItemKey(r.spoolSeq, true, r.recordId);
      assert keys[i] == KeyOf(ys[i], v[ys[i]]);
      assert keys[..m][i] == keys[i];
    }
  }

  lemma GapSent(v: map<nat, Item>, ys: seq<nat>, b: BatchV2, m: nat, last: int, id: RecordId)
    requires (forall x :: x in ys ==> x in v && !v[x].Damaged?) && Increasing(ys) && GapsInPlace(v) && m <= |ys|
    requires b.records == Records(v, ys) && b.gaps == Gaps(v, ys)
    requires forall i :: 0 <= i < |ys| ==> (i < m <==> ys[i] <= last)
    ensures id in IdsOf(Keys(v, ys)[..m], false) <==>
            exists n :: n in b.gaps && n.spoolSeq <= last && n.noticeId == id
  {
    var keys := Keys(v, ys);
    GapsInOrder(v, ys);
    if id in IdsOf(keys[..m], false) {
      var i :| 0 <= i < m && !keys[..m][i].isRecord && keys[..m][i].id == id;
      assert keys[i] == KeyOf(ys[i], v[ys[i]]) && ys[i] in ys;
      assert v[ys[i]].notice in b.gaps;
    }
    if n :| n in b.gaps && n.spoolSeq <= last && n.noticeId == id {
      KeyFound(v, ys, b, ItemKey(n.spoolSeq, false, n.noticeId));
      var i :| 0 <= i < |keys| && keys[i] == ItemKey(n.spoolSeq, false, n.noticeId);
      assert keys[i] == KeyOf(ys[i], v[ys[i]]);
      assert keys[..m][i] == keys[i];
    }
  }

  /** A retained receipt answers exactly the acknowledgements that send its identifiers, in any order. */
  lemma ReplayIsReordering(cfg: Config, run: Run, st: State, ack: AckV2, r: Result<AckResultV2>, run': Run, st': State)
    requires Legal(cfg, run) && Steady(st, End(run)) && ack.batchId in st.receipts
    requires Distinct(ack.recordIds) && Distinct(ack.gapIds) && AnswersAgain(run, st, ack, r, run', st')
    ensures var prior := st.receipts[ack.batchId];
            && (r.Ok? <==>
                  prior.version == 2 && multiset(prior.stableIds) == multiset(ack.recordIds)
                  && multiset(prior.gapIds) == multiset(ack.gapIds))
            && (r.Ok? ==> r.value == AckResultV2(prior.stableIds, prior.gapIds))
            && (r.Err? ==> r.error == InvalidAcknowledgement)
  {
    var prior := st.receipts[ack.batchId];
    EndKeeps(cfg, run);
    assert ReceiptOnDisk(st, End(run).disk, ack.batchId);
    assert ReceiptShape(End(run).disk.receipts[prior.sequence]);
    SameIdsReorder(prior.stableIds, ack.recordIds);
    SameIdsReorder(prior.gapIds, ack.gapIds);
  }

  lemma SameIdsReorder(a: seq<RecordId>, b: seq<RecordId>)
    requires Distinct(a) && Distinct(b)
    ensures SameIds(a, b) <==> multiset(a) == multiset(b)
  {
    OnceEach(a);
    OnceEach(b);
    if multiset(a) == multiset(b) {
      assert |a| == |multiset(a)| && |b| == |multiset(b)|;
      forall x ensures x in a <==> x in b { assert x in a <==> x in multiset(a); }
    }
    if Members(a) == Members(b) {
      forall x ensures multiset(a)[x] == multiset(b)[x] { assert x in Members(a) <==> x in a; }
    }
  }

  lemma {:induction false} OnceEach<T>(xs: seq<T>)
    requires Distinct(xs)
    ensures forall x :: multiset(xs)[x] == if x in xs then 1 else 0
  {
    if xs != [] {
      var rest, last := xs[..|xs| - 1], xs[|xs| - 1];
      OnceEach(rest);
      assert xs == rest + [last];
      assert last !in rest;
    }
  }

  // ---------------------------------------------------------------------------
  // Version 1
  // ---------------------------------------------------------------------------

  /** The record is the one stored at the number, unchanged. */
  ghost predicate LegacyCarries(w: World, s: nat, r: RecordV1) {
    && s in w.disk.pending && s in w.hist.admitted && r.recordId == w.hist.admitted[s].recordId
    && r.receivedAt == w.hist.admitted[s].admittedAt && r.env == w.hist.admitted[s].env
  }

  /** Earlier by admission time, and by identifier among equals. */
  ghost predicate Sooner(rank: Rank, a: StoredRecord, b: StoredRecord) {
    a.admittedAt < b.admittedAt || (a.admittedAt == b.admittedAt && rank(a.recordId) < rank(b.recordId))
  }

  ghost function LegacyRecordsLength(rs: seq<RecordV1>): nat {
    if rs == [] then 0
    else
      var r := rs[|rs| - 1];
      LegacyRecordsLength(rs[..|rs| - 1]) + V1RecordLength(r.receivedAt, EnvelopeLength(r.env))
  }

  /** A pending record at none of the numbers. */
  ghost predicate LeftOut(w: World, ys: seq<nat>, s: nat) { s in w.disk.pending && s !in ys }

  /** The record comes after those at the numbers. */
  ghost predicate ComesAfter(rank: Rank, w: World, ys: seq<nat>, s: nat) {
    s in w.hist.admitted && forall y :: y in ys ==>
      y in w.hist.admitted && Sooner(rank, w.hist.admitted[y], w.hist.admitted[s])
  }

  /** The first record left out. */
  ghost predicate NextLeftOut(rank: Rank, w: World, ys: seq<nat>, s: nat) {
    && LeftOut(w, ys, s) && s in w.hist.admitted
    && forall t :: LeftOut(w, ys, t) && t != s && t in w.hist.admitted ==>
         Sooner(rank, w.hist.admitted[s], w.hist.admitted[t])
  }

  /** A version 1 batch at the numbers `ys`: each record as it was stored, sooner ones first and before
      everything left out, named in this order by the identifier. */
  ghost predicate LegacyDelivers(rank: Rank, w: World, b: BatchV1, ys: seq<nat>) {
    && |ys| == |b.records| && (forall i :: 0 <= i < |ys| ==> LegacyCarries(w, ys[i], b.records[i]))
    && (forall i, j :: 0 <= i < j < |ys| ==> Sooner(rank, w.hist.admitted[ys[i]], w.hist.admitted[ys[j]]))
    && (forall s :: LeftOut(w, ys, s) ==> ComesAfter(rank, w, ys, s))
    && b.batchId.BatchV1Digest? && |b.batchId.ids| == |ys|
    && (forall i :: 0 <= i < |ys| ==> b.batchId.ids[i] == b.records[i].recordId)
  }

  ghost predicate LegacyStillFits(cfg: Config, b: BatchV1, r: StoredRecord) {
    && |b.records| + 1 <= cfg.batchMaxRecords && |b.records| + 1 <= 256
    && LegacyRecordsLength(b.records) + V1RecordLength(r.admittedAt, EnvelopeLength(r.env)) <= cfg.batchMaxBytes
  }

  /** What a version 1 batch delivers, and that it stops only where the next record no longer fits. */
  lemma LegacyBatchCarries(cfg: Config, rank: Rank, w: World, b: BatchV1) returns (ys: seq<nat>)
    requires IsLegacyBatch(cfg, rank, w, b)
    ensures LegacyDelivers(rank, w, b, ys) && w.disk.gaps == map[]
    ensures forall s :: s in w.disk.pending ==> s !in Ledger(w.disk).counted
    ensures |b.records| <= cfg.batchMaxRecords && |b.records| <= 256
    ensures LegacyRecordsLength(b.records) <= cfg.batchMaxBytes
    ensures forall s :: NextLeftOut(rank, w, ys, s) ==> !LegacyStillFits(cfg, b, w.hist.admitted[s])
  {
    var xs, k: nat :| LegacyBatchHolds(cfg, rank, w, xs, k, b);
    ys := xs[..k];
    LegacyFirst(cfg, rank, w, xs, k, b);
    LegacyLengths(w.hist.admitted, ys);
    forall s | NextLeftOut(rank, w, ys, s)
      ensures !LegacyStillFits(cfg, b, w.hist.admitted[s])
    {
      NextByTime(rank, w, xs, k, s);
      LegacyOneMore(cfg, w.hist.admitted, xs, k, b);
    }
  }

  lemma LegacyFirst(cfg: Config, rank: Rank, w: World, xs: seq<nat>, k: nat, b: BatchV1)
    requires LegacyBatchHolds(cfg, rank, w, xs, k, b)
    ensures LegacyDelivers(rank, w, b, xs[..k])
  {
    var ys := xs[..k];
    FirstRecordAt(w.hist.admitted, ys);
    forall i | 0 <= i < |ys|
      ensures LegacyCarries(w, ys[i], b.records[i])
    {
      assert ys[i] in ys;
    }
    forall s | LeftOut(w, ys, s) ensures ComesAfter(rank, w, ys, s) { LeftOutIsLater(rank, w, xs, k, s); }
  }

  lemma LeftOutIsLater(rank: Rank, w: World, xs: seq<nat>, k: nat, s: nat)
    requires ListsByTime(rank, w.hist.admitted, w.disk.pending.Keys, xs) && k <= |xs| && LeftOut(w, xs[..k], s)
    ensures ComesAfter(rank, w, xs[..k], s)
  {
    assert s in xs;
    var j :| 0 <= j < |xs| && xs[j] == s;
    assert forall i :: 0 <= i < k ==> xs[..k][i] == xs[i];
    forall y | y in xs[..k]
      ensures y in w.hist.admitted && Sooner(rank, w.hist.admitted[y], w.hist.admitted[s])
    {
      var i :| 0 <= i < k && xs[..k][i] == y;
      assert xs[i] in xs;
    }
  }

  lemma {:induction false} LegacyLengths(admitted: map<nat, StoredRecord>, ys: seq<nat>)
    requires forall y :: y in ys ==> y in admitted
    ensures LegacyRecordsLength(FirstRecords(admitted, ys)) == LegacyBytes(admitted, ys)
  {
    if ys != [] {
      var rest := ys[..|ys| - 1];
      LegacyLengths(admitted, rest);
      assert FirstRecords(admitted, ys)[..|FirstRecords(admitted, ys)| - 1] == FirstRecords(admitted, rest);
    }
  }

  lemma NextByTime(rank: Rank, w: World, xs: seq<nat>, k: nat, s: nat)
    requires ListsByTime(rank, w.hist.admitted, w.disk.pending.Keys, xs) && k <= |xs|
    requires NextLeftOut(rank, w, xs[..k], s)
    ensures k < |xs| && xs[k] == s
  {
    ListedApart(rank, w.hist.admitted, w.disk.pending.Keys, xs);
    assert s in xs;
    var j :| 0 <= j < |xs| && xs[j] == s;
    assert j >= k;
    assert xs[k] in xs;
    assert LeftOut(w, xs[..k], xs[k]);
  }

  lemma LegacyOneMore(cfg: Config, admitted: map<nat, StoredRecord>, xs: seq<nat>, k: nat, b: BatchV1)
    requires k < |xs| && (forall x :: x in xs ==> x in admitted) && b.records == FirstRecords(admitted, xs[..k])
    requires !LegacyFits(cfg, admitted, xs[..k + 1])
    ensures xs[k] in admitted && !LegacyStillFits(cfg, b, admitted[xs[k]])
  {
    OneMoreFirst(admitted, xs, k);
    LegacyLengths(admitted, xs[..k]);
    FirstRecordAt(admitted, xs[..k]);
  }

  /** A version 1 acknowledgement is of the current batch exactly if it names its identifier and sends only
      record ids the batch delivers. */
  lemma LegacyAcceptedMeans(cfg: Config, rank: Rank, w: World, b: BatchV1, ack: AckV1)
    requires IsLegacyBatch(cfg, rank, w, b)
    ensures (exists c :: LegacyAcknowledges(cfg, rank, w, ack, c)) <==>
            && ack.batchId == b.batchId
            && forall id :: id in ack.recordIds ==> exists r :: r in b.records && r.recordId == id
  {
    SentIsDelivered(ack.recordIds, b);
    if c :| LegacyAcknowledges(cfg, rank, w, ack, c) { LegacyBatchIsUnique(cfg, rank, w, b, c); }
    if ack.batchId == b.batchId && Members(ack.recordIds) <= DeliveredIds(b) {
      assert LegacyAcknowledges(cfg, rank, w, ack, b);
    }
  }

  lemma SentIsDelivered(ids: seq<RecordId>, b: BatchV1)
    ensures Members(ids) <= DeliveredIds(b) <==>
            forall id :: id in ids ==> exists r :: r in b.records && r.recordId == id
  {
    if Members(ids) <= DeliveredIds(b) {
      forall id | id in ids
        ensures exists r :: r in b.records && r.recordId == id
      {
        assert id in Members(ids);
      }
    }
  }

  /** A retained version 1 receipt answers exactly the acknowledgements that send its record ids, in any
      order. */
  lemma LegacyReplayIsReordering(cfg: Config, run: Run, st: State, ack: AckV1, r: Result<AckResultV1>,
                                 run': Run, st': State)
    requires Legal(cfg, run) && Steady(st, End(run)) && ack.batchId in st.receipts
    requires Distinct(ack.recordIds) && LegacyAnswersAgain(run, st, ack, r, run', st')
    ensures var prior := st.receipts[ack.batchId];
            && (r.Ok? <==> multiset(prior.recordIds) == multiset(ack.recordIds))
            && (r.Ok? ==> r.value == AckResultV1(prior.recordIds)) && (r.Err? ==> r.error == InvalidAcknowledgement)
  {
    var prior := st.receipts[ack.batchId];
    EndKeeps(cfg, run);
    assert ReceiptOnDisk(st, End(run).disk, ack.batchId);
    assert ReceiptShape(End(run).disk.receipts[prior.sequence]);
    SameIdsReorder(prior.recordIds, ack.recordIds);
  }

  // ---------------------------------------------------------------------------
  // Gap storage and opening
  // ---------------------------------------------------------------------------

  /** After an expiry an expired record has its own gap file, unless that file does not fit beside the
      gap files there are. */
  lemma DeferredOnlyWhenFull(cfg: Config, run: Run, st: State, s: nat)
    requires Legal(cfg, run) && Steady(st, End(run)) && !End(run).hist.damaged && OnlyWhenFull(cfg, st)
    requires s in View(End(run).disk) && View(End(run).disk)[s].Gap?
    ensures var d := End(run).disk;
            s in d.gaps || Total(GapSizes(d.gaps)) + GapLength(View(d)[s].notice) + 56 > cfg.maxBytes
  {
    var w := End(run);
    if s !in w.disk.gaps {
      FateAt(cfg, run, s);
      assert HasEntry(st, w, s) && Lags(st, w.disk, s);
      assert Full(cfg, st, w.hist.admitted[s].recordId);
    }
  }

  /** When a directory opens: not behind an unfinished write; and if a stop left a pending file behind its
      own gap file, only if quarantine takes one more file of its size. */
  lemma OpensUnless(cfg: Config, d: Disk)
    ensures CanReopen(cfg, d) <==>
            !d.orphan
            && forall s :: s in d.pending && s in d.gaps ==>
                 d.quarantineFiles < cfg.maxRecords && d.quarantineBytes + FileSize(d.pending[s]) <= cfg.maxBytes
  {
    if CanReopen(cfg, d) { forall s | s in d.pending && s in d.gaps ensures ShadowFits(cfg, d, s) { } }
  }
}
