/** Version 1 delivery and acknowledgement. Record identifiers are compared through `rank`, an
    injective stand-in for the order of their digits. */
module Legacy {
  import opened Finite
  import opened Json
  import opened Wire
  import opened Limits
  import opened Durable
  import opened Invariant
  import opened Safety
  import opened Cache
  import opened Machine
  import opened Expiry
  import opened Batch
  import opened Delivery
  import opened Receipts
  import opened Acknowledge

  // ---------------------------------------------------------------------------
  // The version 1 batch
  // ---------------------------------------------------------------------------

  function Legacy(r: StoredRecord): RecordV1 { RecordV1(r.recordId, r.admittedAt, r.env) }

  /** The numbers ordered by admission time and identifier. */
  ghost predicate ListsByTime(rank: Rank, admitted: map<nat, StoredRecord>, s: set<nat>, xs: seq<nat>) {
    && (forall x :: x in xs <==> x in s) && (forall x :: x in xs ==> x in admitted)
    && forall i, j :: 0 <= i < j < |xs| ==>
         Before(admitted[xs[i]].admittedAt, rank(admitted[xs[i]].recordId),
                admitted[xs[j]].admittedAt, rank(admitted[xs[j]].recordId))
  }

  function FirstRecords(admitted: map<nat, StoredRecord>, xs: seq<nat>): seq<RecordV1>
    requires forall x :: x in xs ==> x in admitted
  {
    if xs == [] then [] else FirstRecords(admitted, xs[..|xs| - 1]) + [Legacy(admitted[xs[|xs| - 1]])]
  }

  ghost function LegacyLength(r: StoredRecord): nat { V1RecordLength(r.admittedAt, EnvelopeLength(r.env)) }

  ghost function LegacyBytes(admitted: map<nat, StoredRecord>, xs: seq<nat>): nat
    requires forall x :: x in xs ==> x in admitted
  {
    if xs == [] then 0
    else LegacyBytes(admitted, xs[..|xs| - 1]) + LegacyLength(admitted[xs[|xs| - 1]])
  }

  ghost predicate LegacyFits(cfg: Config, admitted: map<nat, StoredRecord>, xs: seq<nat>)
    requires forall x :: x in xs ==> x in admitted
  {
    |xs| <= cfg.batchMaxRecords && |xs| <= MAX_BATCH_ITEMS && LegacyBytes(admitted, xs) <= cfg.batchMaxBytes
  }

  function LegacyBatchId(records: seq<RecordV1>): BatchId {
    BatchV1Digest(seq(|records|, i requires 0 <= i < |records| => records[i].recordId))
  }

  ghost predicate LegacyBatchHolds(cfg: Config, rank: Rank, w: World, xs: seq<nat>, k: nat, b: BatchV1) {
    && ListsByTime(rank, w.hist.admitted, w.disk.pending.Keys, xs) && k <= |xs|
    && LegacyFits(cfg, w.hist.admitted, xs[..k]) && (k == |xs| || !LegacyFits(cfg, w.hist.admitted, xs[..k + 1]))
    && (forall i :: 0 <= i < k ==> w.disk.pending[xs[i]].contents == Intact(w.hist.admitted[xs[i]]))
    && b.records == FirstRecords(w.hist.admitted, xs[..k]) && b.batchId == LegacyBatchId(b.records)
  }

  /** The batch is exactly the longest fitting prefix of the pending records by admission time and
      identifier, and no gap or counted expiry is outstanding. */
  ghost predicate IsLegacyBatch(cfg: Config, rank: Rank, w: World, b: BatchV1) {
    && w.disk.gaps == map[] && w.disk.pending.Keys !! Ledger(w.disk).counted.Keys
    && exists xs, k :: LegacyBatchHolds(cfg, rank, w, xs, k, b)
  }

  /** There is one such order. */
  lemma ListsByTimeOnce(rank: Rank, admitted: map<nat, StoredRecord>, s: set<nat>, xs: seq<nat>, ys: seq<nat>)
    requires ListsByTime(rank, admitted, s, xs) && ListsByTime(rank, admitted, s, ys)
    ensures xs == ys
  {
    var a := Timed(rank, admitted, xs);
    var b := Timed(rank, admitted, ys);
    forall k
      ensures k in a <==> k in b
    {
      if k in a {
        var i :| 0 <= i < |a| && a[i] == k;
        assert xs[i] in ys;
        var j :| 0 <= j < |ys| && ys[j] == xs[i];
        assert b[j] == k;
      }
      if k in b {
        var i :| 0 <= i < |b| && b[i] == k;
        assert ys[i] in xs;
        var j :| 0 <= j < |xs| && xs[j] == ys[i];
        assert a[j] == k;
      }
    }
    StrictOrderIsUnique(a, b);
    forall i | 0 <= i < |xs| ensures xs[i] == ys[i] { assert a[i] == b[i]; }
  }

  ghost function Timed(rank: Rank, admitted: map<nat, StoredRecord>, xs: seq<nat>): seq<Keyed<nat>>
    requires forall x :: x in xs ==> x in admitted
  {
    seq(|xs|, i requires 0 <= i < |xs| => Keyed(admitted[xs[i]].admittedAt, rank(admitted[xs[i]].recordId), xs[i]))
  }

  lemma {:induction false} LegacyFitsShorter(cfg: Config, admitted: map<nat, StoredRecord>, xs: seq<nat>,
                                             k: nat, n: nat)
    requires (forall x :: x in xs ==> x in admitted) && n <= k <= |xs| && LegacyFits(cfg, admitted, xs[..k])
    ensures LegacyFits(cfg, admitted, xs[..n])
    decreases k
  {
    if n < k {
      assert xs[..k][..k - 1] == xs[..k - 1];
      LegacyFitsShorter(cfg, admitted, xs, k - 1, n);
    }
  }

  lemma LegacyMostOnce(cfg: Config, admitted: map<nat, StoredRecord>, xs: seq<nat>, j: nat, k: nat)
    requires (forall x :: x in xs ==> x in admitted) && j <= |xs| && k <= |xs|
    requires LegacyFits(cfg, admitted, xs[..j]) && LegacyFits(cfg, admitted, xs[..k])
    requires j == |xs| || !LegacyFits(cfg, admitted, xs[..j + 1])
    requires k == |xs| || !LegacyFits(cfg, admitted, xs[..k + 1])
    ensures j == k
  {
    if j < k { LegacyFitsShorter(cfg, admitted, xs, k, j + 1); }
    if k < j { LegacyFitsShorter(cfg, admitted, xs, j, k + 1); }
  }

  lemma LegacyBatchOnce(cfg: Config, rank: Rank, w: World, xs: seq<nat>, j: nat, a: BatchV1, ys: seq<nat>,
                        k: nat, b: BatchV1)
    requires LegacyBatchHolds(cfg, rank, w, xs, j, a) && LegacyBatchHolds(cfg, rank, w, ys, k, b)
    ensures a == b
  {
    ListsByTimeOnce(rank, w.hist.admitted, w.disk.pending.Keys, xs, ys);
    LegacyMostOnce(cfg, w.hist.admitted, xs, j, k);
  }

  /** A directory has one version 1 batch. */
  lemma LegacyBatchIsUnique(cfg: Config, rank: Rank, w: World, a: BatchV1, b: BatchV1)
    requires IsLegacyBatch(cfg, rank, w, a) && IsLegacyBatch(cfg, rank, w, b)
    ensures a == b
  {
    var xs, j :| LegacyBatchHolds(cfg, rank, w, xs, j, a);
    var ys, k :| LegacyBatchHolds(cfg, rank, w, ys, k, b);
    LegacyBatchOnce(cfg, rank, w, xs, j, a, ys, k, b);
  }

  // ---------------------------------------------------------------------------
  // Building it
  // ---------------------------------------------------------------------------

  function EntryKey(rank: Rank, e: Entry): Keyed<Entry> { Keyed(e.admittedAt, rank(e.recordId), e) }

  /** The entries by admission time and identifier. */
  method EntriesByTime(rank: Rank, st: State, ghost w: World) returns (es: seq<Entry>)
    requires EntriesAgree(st, w) && Injective(rank)
    ensures forall e :: e in es <==> IsEntry(st, e)
    ensures forall i, j :: 0 <= i < j < |es| ==>
            Before(es[i].admittedAt, rank(es[i].recordId), es[j].admittedAt, rank(es[j].recordId))
  {
    var keyed: seq<Keyed<Entry>> := [];
    var rest := st.entries.Keys;
    while rest != {}
      invariant rest <= st.entries.Keys
      invariant forall k :: k in keyed <==>
                  k == EntryKey(rank, k.value) && IsEntry(st, k.value) && k.value.recordId !in rest
      invariant DifferentKeys(keyed)
      decreases |rest|
    {
      var id :| id in rest;
      assert EntryOnDisk(st, w, id);
      forall i | 0 <= i < |keyed| ensures keyed[i].minor != rank(id) { assert keyed[i] in keyed; }
      keyed := keyed + [EntryKey(rank, st.entries[id])];
      rest := rest - {id};
    }
    SortStrictly(keyed);
    var sorted := Sort(keyed);
    assert forall i :: 0 <= i < |sorted| ==> sorted[i] in keyed;
    es := seq(|sorted|, i requires 0 <= i < |sorted| => sorted[i].value);
    forall e
      ensures e in es <==> IsEntry(st, e)
    {
      if IsEntry(st, e) {
        assert EntryKey(rank, e) in sorted;
        var i :| 0 <= i < |sorted| && sorted[i] == EntryKey(rank, e);
        assert es[i] == e;
      }
      if e in es {
        var i :| 0 <= i < |es| && es[i] == e;
        assert sorted[i] in keyed;
      }
    }
  }

  function EntryNumbers(es: seq<Entry>): seq<nat> { seq(|es|, i requires 0 <= i < |es| => es[i].spoolSeq) }

  lemma EntriesListPending(rank: Rank, st: State, w: World, es: seq<Entry>)
    requires EntriesAgree(st, w) && GapsAgree(st, w.disk) && (forall e :: e in es <==> IsEntry(st, e))
    requires forall i, j :: 0 <= i < j < |es| ==>
            Before(es[i].admittedAt, rank(es[i].recordId), es[j].admittedAt, rank(es[j].recordId))
    ensures ListsByTime(rank, w.hist.admitted, w.disk.pending.Keys, EntryNumbers(es))
  {
    var xs := EntryNumbers(es);
    forall i | 0 <= i < |es|
      ensures xs[i] in w.hist.admitted && xs[i] in w.disk.pending
      ensures w.hist.admitted[xs[i]].admittedAt == es[i].admittedAt && w.hist.admitted[xs[i]].recordId == es[i].recordId
    {
      assert es[i] in es;
      EntryFacts(st, w, es[i]);
    }
    forall s | s in w.disk.pending
      ensures s in xs
    {
      assert HasEntry(st, w, s);
      var e := st.entries[w.hist.admitted[s].recordId];
      assert IsEntry(st, e);
      var i :| 0 <= i < |es| && es[i] == e;
      assert xs[i] == s;
    }
  }

  /** The first `i` records have been collected. */
  ghost predicate LegacyCollected(w: World, xs: seq<nat>, i: nat, records: seq<RecordV1>, body: nat) {
    && i <= |xs| && (forall x :: x in xs ==> x in w.hist.admitted && x in w.disk.pending)
    && (forall j :: 0 <= j < i ==> w.disk.pending[xs[j]].contents == Intact(w.hist.admitted[xs[j]]))
    && records == FirstRecords(w.hist.admitted, xs[..i]) && body == LegacyBytes(w.hist.admitted, xs[..i])
    && |records| == i
  }

  predicate LegacyLimits(cfg: Config, n: nat, body: nat) {
    n <= cfg.batchMaxRecords && n <= MAX_BATCH_ITEMS && body <= cfg.batchMaxBytes
  }

  lemma OneMoreFirst(admitted: map<nat, StoredRecord>, xs: seq<nat>, i: nat)
    requires i < |xs| && forall x :: x in xs ==> x in admitted
    ensures FirstRecords(admitted, xs[..i + 1]) == FirstRecords(admitted, xs[..i]) + [Legacy(admitted[xs[i]])]
    ensures LegacyBytes(admitted, xs[..i + 1]) == LegacyBytes(admitted, xs[..i]) + LegacyLength(admitted[xs[i]])
  {
    assert xs[..i + 1][..i] == xs[..i];
  }

  lemma OneMoreLegacy(w: World, xs: seq<nat>, i: nat, records: seq<RecordV1>, body: nat)
    requires LegacyCollected(w, xs, i, records, body) && i < |xs|
    requires w.disk.pending[xs[i]].contents == Intact(w.hist.admitted[xs[i]])
    ensures var r := w.hist.admitted[xs[i]];
            LegacyCollected(w, xs, i + 1, records + [Legacy(r)], body + LegacyLength(r))
  {
    OneMoreFirst(w.hist.admitted, xs, i);
  }

  /** No further record fits. */
  ghost predicate LegacyFull(cfg: Config, w: World, xs: seq<nat>, i: nat, body: nat) {
    i < |xs| && xs[i] in w.hist.admitted && !LegacyLimits(cfg, i + 1, body + LegacyLength(w.hist.admitted[xs[i]]))
  }

  /** The size checks of the version 1 loop: adds the record or ends the batch. */
  method AddLegacy(cfg: Config, r: StoredRecord, records: seq<RecordV1>, body: nat)
    returns (stop: bool, records': seq<RecordV1>, body': nat)
    requires Configured(cfg) && LegacyLength(r) <= cfg.batchMaxBytes && LegacyLimits(cfg, |records| + 1, body)
    requires (records == [] ==> body == 0)
    ensures LegacyLimits(cfg, |records'|, body') && (records' == [] ==> body' == 0)
    ensures stop <==> !LegacyLimits(cfg, |records| + 1, body + LegacyLength(r))
    ensures records' == if stop then records else records + [Legacy(r)]
    ensures body' == if stop then body else body + LegacyLength(r)
  {
    var envelope := Measure(ToValue(r.env));
    var bytes := V1RecordLength(r.admittedAt, envelope);
    if records != [] && SaturatingAddU64(body, bytes) > cfg.batchMaxBytes { return true, records, body; }
    if bytes > cfg.batchMaxBytes { assert false; }
    stop, records', body' := false, records + [Legacy(r)], SaturatingAddU64(body, bytes);
  }

  /** The entries from `i` on are still there. */
  ghost predicate StillEntries(st: State, es: seq<Entry>, i: nat) {
    forall j :: i <= j < |es| ==> IsEntry(st, es[j])
  }

  /** Reads one entry for version 1; a damaged one is quarantined. */
  method ReadOrQuarantine(store: Store, st: State, es: seq<Entry>,
                          i: nat) returns (r: Result<Option<StoredRecord>>, st': State)
    requires store.Valid() && Loose(st, store.W()) && i < |es| && StillEntries(st, es, i)
    requires forall j :: i < j < |es| ==> es[j].recordId != es[i].recordId
    modifies store
    ensures store.Valid() && Loose(st', store.W()) && Kept(old(store.run), store.run) && SameReceipts(st, st')
    ensures r.Err? || r.value.None? ==> store.W().hist.damaged
    ensures r.Ok? ==> StillEntries(st', es, i + 1)
    ensures r.Ok? && r.value.None? ==> st'.gaps != map[]
    ensures r.Ok? && r.value.Some? ==>
              var s := es[i].spoolSeq;
              && st' == st && store.disk == old(store.disk) && s in store.disk.pending && s in store.W().hist.admitted
              && store.disk.pending[s].contents == Intact(r.value.value) && r.value.value == store.W().hist.admitted[s]
              && LegacyLength(r.value.value) <= store.cfg.batchMaxBytes
  {
    var e := es[i];
    KeptSame(store.run);
    ReadEntryIsExact(store.cfg, store.run, st, e);
    FateAt(store.cfg, store.run, e.spoolSeq);
    var stored := ReadEntry(store.disk, e);
    if stored.Ok? {
      LegacyRecordFits(store.cfg, store.run, e.spoolSeq);
      OthersStay(st, st, es, i);
      return Ok(Some(stored.value)), st;
    }
    var done;
    done, st' := QuarantineEntry(store, st, e);
    if done.Ok? { OthersStay(st, st', es, i); }
    r := if done.Ok? then Ok(None) else Err(done.error);
  }

  lemma LegacyRecordFits(cfg: Config, run: Run, s: nat)
    requires Legal(cfg, run) && s in End(run).hist.admitted
    ensures LegacyLength(End(run).hist.admitted[s]) <= cfg.batchMaxBytes
  {
    AdmittedIsAdmissible(cfg, run, |run.steps|, s);
  }

  lemma NoneLegacy(w: World, xs: seq<nat>)
    requires forall x :: x in xs ==> x in w.hist.admitted && x in w.disk.pending
    ensures LegacyCollected(w, xs, 0, [], 0)
  {
    assert xs[..0] == [];
  }

  lemma OthersStay(st: State, st': State, es: seq<Entry>, i: nat)
    requires i < |es| && StillEntries(st, es, i) && (forall j :: i < j < |es| ==> es[j].recordId != es[i].recordId)
    requires st'.entries == st.entries || st'.entries == st.entries - {es[i].recordId}
    ensures StillEntries(st', es, i + 1)
  {
    forall j | i + 1 <= j < |es| ensures IsEntry(st', es[j]) { assert IsEntry(st, es[j]); }
  }

  /** Between two rounds of the version 1 loop. */
  ghost predicate LegacyLoop(cfg: Config, st0: State, w0: World, st: State, w: World, es: seq<Entry>, i: nat,
                             records: seq<RecordV1>, body: nat, quarantined: bool) {
    && i <= |es| && StillEntries(st, es, i) && LegacyLimits(cfg, |records|, body) && (records == [] ==> body == 0)
    && (if quarantined then w.hist.damaged && st.gaps != map[]
        else
          && st == st0 && w.disk == w0.disk && w.hist == w0.hist
          && LegacyCollected(w0, EntryNumbers(es), i, records, body))
  }

  lemma LegacyStart(cfg: Config, st: State, w: World, es: seq<Entry>)
    requires EntriesAgree(st, w) && GapsAgree(st, w.disk) && StillEntries(st, es, 0)
    ensures LegacyLoop(cfg, st, w, st, w, es, 0, [], 0, false)
  {
    NumbersPending(st, w, es);
    NoneLegacy(w, EntryNumbers(es));
  }

  /** Reads the next entry and adds it, ends the batch or notes the damage. */
  method LegacyTake(store: Store, st: State, es: seq<Entry>, i: nat, records: seq<RecordV1>, body: nat,
                    quarantined: bool, ghost st0: State, ghost w0: World)
    returns (r: Result<bool>, st': State, records': seq<RecordV1>, body': nat, quarantined': bool)
    requires store.Valid() && Loose(st, store.W()) && i < |es|
    requires LegacyLoop(store.cfg, st0, w0, st, store.W(), es, i, records, body, quarantined)
    requires |records| < store.cfg.batchMaxRecords && |records| < MAX_BATCH_ITEMS
    requires forall j :: i < j < |es| ==> es[j].recordId != es[i].recordId
    modifies store
    ensures store.Valid() && Loose(st', store.W()) && Kept(old(store.run), store.run) && SameReceipts(st, st')
    ensures r.Err? ==> store.W().hist.damaged
    ensures r.Ok? ==>
              LegacyLoop(store.cfg, st0, w0, st', store.W(), es, if r.value then i else i + 1, records', body',
                         quarantined')
    ensures r.Ok? && r.value && !quarantined' ==> LegacyFull(store.cfg, w0, EntryNumbers(es), i, body')
  {
    records', body', quarantined' := records, body, quarantined;
    var stored;
    stored, st' := ReadOrQuarantine(store, st, es, i);
    if stored.Err? { return Err(stored.error), st', records, body, quarantined; }
    if stored.value.None? { return Ok(false), st', records, body, true; }
    if !quarantined { ReadIsNext(store.cfg, w0, store.W(), es, i, records, body, stored.value.value); }
    var stop;
    stop, records', body' := AddLegacy(store.cfg, stored.value.value, records, body);
    r := Ok(stop);
  }

  /** One round: ends the batch if it is full, otherwise takes the next entry. */
  method LegacyRound(store: Store, st: State, es: seq<Entry>, i: nat, records: seq<RecordV1>, body: nat,
                     quarantined: bool, ghost st0: State, ghost w0: World)
    returns (r: Result<bool>, st': State, records': seq<RecordV1>, body': nat, quarantined': bool)
    requires store.Valid() && Loose(st, store.W()) && i < |es|
    requires LegacyLoop(store.cfg, st0, w0, st, store.W(), es, i, records, body, quarantined)
    requires forall j :: i < j < |es| ==> es[j].recordId != es[i].recordId
    modifies store
    ensures store.Valid() && Loose(st', store.W()) && Kept(old(store.run), store.run) && SameReceipts(st, st')
    ensures r.Err? ==> store.W().hist.damaged
    ensures r.Ok? ==>
              LegacyLoop(store.cfg, st0, w0, st', store.W(), es, if r.value then i else i + 1, records', body',
                         quarantined')
    ensures r.Ok? && r.value && !quarantined' ==> LegacyFull(store.cfg, w0, EntryNumbers(es), i, body')
  {
    records', body', quarantined' := records, body, quarantined;
    KeptSame(store.run);
    if |records| >= store.cfg.batchMaxRecords || |records| >= MAX_BATCH_ITEMS {
      return Ok(true), st, records, body, quarantined;
    }
    r, st', records', body', quarantined' := LegacyTake(store, st, es, i, records, body, quarantined, st0, w0);
  }

  /** The loop of `build_batch`: the first records that fit, unless damage was met. */
  method CollectLegacy(store: Store, st: State, es: seq<Entry>)
    returns (r: Result<bool>, st': State, records: seq<RecordV1>, ghost k: nat, ghost body: nat)
    requires store.Valid() && Loose(st, store.W()) && StillEntries(st, es, 0)
    requires forall i, j :: 0 <= i < j < |es| ==> es[i].recordId != es[j].recordId
    modifies store
    ensures store.Valid() && Loose(st', store.W()) && Kept(old(store.run), store.run) && SameReceipts(st, st')
    ensures r.Err? ==> store.W().hist.damaged
    ensures r.Ok? ==> LegacyLoop(store.cfg, st, old(store.W()), st', store.W(), es, k, records, body, r.value)
    ensures r.Ok? && !r.value ==> k == |es| || LegacyFull(store.cfg, old(store.W()), EntryNumbers(es), k, body)
  {
    ghost var w := store.W();
    KeptSame(store.run);
    LegacyStart(store.cfg, st, w, es);
    st', records := st, [];
    var bytes, quarantined, i, stop := 0, false, 0, false;
    while i < |es| && !stop
      invariant store.Valid() && Loose(st', store.W()) && Kept(old(store.run), store.run) && SameReceipts(st, st')
      invariant LegacyLoop(store.cfg, st, w, st', store.W(), es, i, records, bytes, quarantined)
      invariant !quarantined && stop ==> LegacyFull(store.cfg, w, EntryNumbers(es), i, bytes)
      decreases |es| - i, !stop
    {
      ghost var mid := store.run;
      var round;
      round, st', records, bytes, quarantined := LegacyRound(store, st', es, i, records, bytes, quarantined, st, w);
      KeptTwice(old(store.run), mid, store.run);
      if round.Err? { return Err(round.error), st', [], 0, 0; }
      stop := round.value;
      if !stop { i := i + 1; }
    }
    r, k, body := Ok(quarantined), i, bytes;
  }

  lemma ReadIsNext(cfg: Config, w: World, w': World, es: seq<Entry>, i: nat, records: seq<RecordV1>, body: nat,
                   r: StoredRecord)
    requires LegacyCollected(w, EntryNumbers(es), i, records, body) && i < |es| && w'.disk == w.disk
    requires w'.hist == w.hist
    requires es[i].spoolSeq in w'.disk.pending && es[i].spoolSeq in w'.hist.admitted
    requires w'.disk.pending[es[i].spoolSeq].contents == Intact(r) && w'.hist.admitted[es[i].spoolSeq] == r
    ensures LegacyFull(cfg, w, EntryNumbers(es), i, body) <==>
            !LegacyLimits(cfg, |records| + 1, body + LegacyLength(r))
    ensures LegacyCollected(w, EntryNumbers(es), i + 1, records + [Legacy(r)], body + LegacyLength(r))
  {
    OneMoreLegacy(w, EntryNumbers(es), i, records, body);
  }

  lemma NumbersPending(st: State, w: World, es: seq<Entry>)
    requires EntriesAgree(st, w) && GapsAgree(st, w.disk) && StillEntries(st, es, 0)
    ensures forall x :: x in EntryNumbers(es) ==> x in w.hist.admitted && x in w.disk.pending
  {
    forall x | x in EntryNumbers(es)
      ensures x in w.hist.admitted && x in w.disk.pending
    {
      var i :| 0 <= i < |es| && EntryNumbers(es)[i] == x;
      EntryFacts(st, w, es[i]);
    }
  }

  lemma IdsApart(rank: Rank, st: State, es: seq<Entry>)
    requires forall e :: e in es <==> IsEntry(st, e)
    requires forall i, j :: 0 <= i < j < |es| ==>
            Before(es[i].admittedAt, rank(es[i].recordId), es[j].admittedAt, rank(es[j].recordId))
    ensures StillEntries(st, es, 0) && forall i, j :: 0 <= i < j < |es| ==> es[i].recordId != es[j].recordId
  {
    forall i | 0 <= i < |es| ensures IsEntry(st, es[i]) { assert es[i] in es; }
    forall i, j | 0 <= i < j < |es|
      ensures es[i].recordId != es[j].recordId
    {
      assert IsEntry(st, es[i]) && IsEntry(st, es[j]);
    }
  }

  lemma CollectedIsLegacyBatch(cfg: Config, rank: Rank, w: World, xs: seq<nat>, k: nat, records: seq<RecordV1>,
                               body: nat)
    requires ListsByTime(rank, w.hist.admitted, w.disk.pending.Keys, xs)
    requires LegacyCollected(w, xs, k, records, body) && LegacyLimits(cfg, k, body)
    requires (k == |xs| || LegacyFull(cfg, w, xs, k, body))
    ensures LegacyBatchHolds(cfg, rank, w, xs, k, BatchV1(LegacyBatchId(records), records))
  {
    if k < |xs| { OneMoreFirst(w.hist.admitted, xs, k); }
  }

  /** Every item of the queue is a record: no gap, written or counted, and no damage. */
  ghost predicate OnlyRecords(v: map<nat, Item>) { forall s :: s in v ==> v[s].Record? }

  /** The state has neither gaps nor counted expiries exactly when the queue holds only records. */
  lemma NoGapsInQueue(cfg: Config, run: Run, st: State)
    requires Legal(cfg, run) && Steady(st, End(run))
    ensures st.gaps == map[] && st.counted == map[] ==>
              End(run).disk.gaps == map[] && End(run).disk.pending.Keys !! Ledger(End(run).disk).counted.Keys
    ensures !End(run).hist.damaged ==> (st.gaps == map[] && st.counted == map[] <==> OnlyRecords(View(End(run).disk)))
  {
    NoGapsOnDisk(st, End(run));
    if !End(run).hist.damaged {
      forall s | s in View(End(run).disk)
        ensures View(End(run).disk)[s].Record? <==> s !in End(run).disk.gaps && s !in st.counted
      {
        FateAt(cfg, run, s);
        RecordUnless(st, End(run), s);
      }
      SteadyKeys(st, End(run));
      RecordsOnly(st, End(run));
    }
  }

  lemma RecordUnless(st: State, w: World, s: nat)
    requires Synced(st, w) && Fate(w, s) && !w.hist.damaged && s in View(w.disk)
    ensures View(w.disk)[s].Record? <==> s !in w.disk.gaps && s !in st.counted
  {
  }

  lemma RecordsOnly(st: State, w: World)
    requires View(w.disk).Keys == Files(w.disk) && st.counted.Keys <= w.disk.pending.Keys && |st.gaps| == |w.disk.gaps|
    requires forall s :: s in View(w.disk) ==> (View(w.disk)[s].Record? <==> s !in w.disk.gaps && s !in st.counted)
    ensures st.gaps == map[] && st.counted == map[] <==> OnlyRecords(View(w.disk))
  {
    if OnlyRecords(View(w.disk)) {
      assert forall s :: s in w.disk.gaps ==> s in View(w.disk);
      assert forall s :: s in st.counted ==> s in View(w.disk);
      assert w.disk.gaps == map[] && st.counted == map[];
    }
  }

  lemma NoGapsOnDisk(st: State, w: World)
    requires GapsAgree(st, w.disk) && Lagging(st, w)
    ensures st.gaps == map[] && st.counted == map[] ==>
              w.disk.gaps == map[] && w.disk.pending.Keys !! Ledger(w.disk).counted.Keys
  {
    assert |st.gaps| == |w.disk.gaps|;
    if st.counted == map[] {
      forall s | s in w.disk.pending ensures s !in Ledger(w.disk).counted { assert Lags(st, w.disk, s); }
    }
  }

  /** `build_batch`: an Ok result is the version 1 batch and nothing changed; undamaged it is Ok exactly
      when the queue holds only records. */
  method BuildLegacyBatch(store: Store, st: State, rank: Rank) returns (r: Result<BatchV1>, st': State)
    requires store.Valid() && Steady(st, store.W()) && Injective(rank)
    modifies store
    ensures store.Valid() && Steady(st', store.W()) && Kept(old(store.run), store.run) && SameReceipts(st, st')
    ensures r.Ok? ==> IsLegacyBatch(store.cfg, rank, store.W(), r.value) && st' == st && store.disk == old(store.disk)
    ensures !store.W().hist.damaged ==>
              (r.Ok? <==> OnlyRecords(View(store.disk))) && st' == st && store.disk == old(store.disk)
    ensures !store.W().hist.damaged && r.Err? ==> r.error.ProtocolUpgradeRequired?
  {
    ghost var w := store.W();
    var es := EntriesByTime(rank, st, w);
    EntriesListPending(rank, st, w, es);
    IdsApart(rank, st, es);
    ghost var k, body;
    var done, records;
    done, st', records, k, body := CollectLegacy(store, st, es);
    SteadyUnlessSynced(st, w, st', store.W(), done.Ok? && !done.value);
    if done.Err? { return Err(done.error), st'; }
    NoGapsInQueue(store.cfg, store.run, st');
    if st'.gaps != map[] || st'.counted != map[] { return Err(ProtocolUpgradeRequired), st'; }
    CollectedIsLegacyBatch(store.cfg, rank, w, EntryNumbers(es), k, records, body);
    SameLegacyBatch(store.cfg, rank, w, store.W(), EntryNumbers(es), k, BatchV1(LegacyBatchId(records), records));
    r := Ok(BatchV1(LegacyBatchId(records), records));
  }

  lemma SameLegacyBatch(cfg: Config, rank: Rank, w: World, w': World, xs: seq<nat>, k: nat, b: BatchV1)
    requires LegacyBatchHolds(cfg, rank, w, xs, k, b) && w'.disk == w.disk && w'.hist == w.hist
    requires w.disk.gaps == map[] && w.disk.pending.Keys !! Ledger(w.disk).counted.Keys
    ensures IsLegacyBatch(cfg, rank, w', b)
  {
    assert LegacyBatchHolds(cfg, rank, w', xs, k, b);
  }

  // ---------------------------------------------------------------------------
  // Acknowledging
  // ---------------------------------------------------------------------------

  predicate LegacyWellFormed(ack: AckV1) { ack.version == 1 && ValidDigest(ack.batchId) && Distinct(ack.recordIds) }

  function DeliveredIds(b: BatchV1): set<RecordId> { set r | r in b.records :: r.recordId }

  /** The pending occurrences an acknowledgement names. */
  ghost function NamedBy(w: World, ids: seq<RecordId>): set<nat> {
    set s | s in w.disk.pending && s in w.hist.admitted && w.hist.admitted[s].recordId in ids
  }

  /** The acknowledgement names the current version 1 batch and only records in it. */
  ghost predicate LegacyAcknowledges(cfg: Config, rank: Rank, w: World, ack: AckV1, b: BatchV1) {
    IsLegacyBatch(cfg, rank, w, b) && b.batchId == ack.batchId && Members(ack.recordIds) <= DeliveredIds(b)
  }

  /** Admissions for different records, each the entry of its record. */
  ghost predicate FromEntries(st: State, admissions: seq<Admission>) {
    && (forall a :: a in admissions ==> a.legacyId in st.entries && a == AdmissionFor(st.entries[a.legacyId]))
    && (forall i, j :: 0 <= i < j < |admissions| ==> admissions[i].legacyId != admissions[j].legacyId)
  }

  /** `receipt_admissions_v1` */
  method LegacyAdmissions(st: State, delivered: BatchV1, ack: AckV1) returns (r: Result<seq<Admission>>)
    requires forall i, j :: 0 <= i < j < |delivered.records| ==>
            delivered.records[i].recordId != delivered.records[j].recordId
    requires forall id :: id in st.entries ==> st.entries[id].recordId == id
    ensures r.Ok? ==> FromEntries(st, r.value) && LegacyIds(r.value) == DeliveredIds(delivered) * Members(ack.recordIds)
    ensures DeliveredIds(delivered) <= st.entries.Keys ==> r.Ok?
  {
    var accepted := Members(ack.recordIds);
    var admissions: seq<Admission> := [];
    for i := 0 to |delivered.records|
      invariant FromEntries(st, admissions)
      invariant forall a :: a in admissions ==>
              a.legacyId in accepted && exists j :: 0 <= j < i && delivered.records[j].recordId == a.legacyId
      invariant forall j :: 0 <= j < i && delivered.records[j].recordId in accepted ==>
              delivered.records[j].recordId in LegacyIds(admissions)
    {
      var id := delivered.records[i].recordId;
      assert delivered.records[i] in delivered.records;
      if id in accepted {
        if id !in st.entries { return Err(InvalidAcknowledgement); }
        ghost var before := admissions;
        admissions := admissions + [AdmissionFor(st.entries[id])];
        OneMoreLegacyId(before, AdmissionFor(st.entries[id]));
      }
    }
    r := Ok(admissions);
  }

  lemma OneMoreLegacyId(admissions: seq<Admission>, a: Admission)
    ensures LegacyIds(admissions + [a]) == LegacyIds(admissions) + {a.legacyId}
  {
    assert a in admissions + [a];
    forall x | x in admissions ensures x in admissions + [a] { }
  }

  lemma {:induction false} LegacyIdCount(admissions: seq<Admission>)
    requires forall i, j :: 0 <= i < j < |admissions| ==> admissions[i].legacyId != admissions[j].legacyId
    ensures |LegacyIds(admissions)| == |admissions| && Distinct(admissions)
  {
    if admissions != [] {
      var rest, a := admissions[..|admissions| - 1], admissions[|admissions| - 1];
      LegacyIdCount(rest);
      OneMoreLegacyId(rest, a);
      assert admissions == rest + [a];
      assert a.legacyId !in LegacyIds(rest);
    }
  }

  function LegacyReceipt(ack: AckV1, sequence: nat, admissions: seq<Admission>): Receipt {
    Receipt(1, sequence, ack.batchId, ack.recordIds, [], [], admissions)
  }

  lemma LegacyReceiptIsShaped(st: State, w: World, ack: AckV1, b: BatchV1, sequence: nat, admissions: seq<Admission>)
    requires EntriesAgree(st, w) && FromEntries(st, admissions) && LegacyWellFormed(ack) && sequence < U64_MAX
    requires LegacyIds(admissions) == Members(ack.recordIds) && Members(ack.recordIds) <= DeliveredIds(b)
    requires |b.records| <= MAX_BATCH_ITEMS && (forall s :: s in w.disk.pending ==> 1 <= s)
    ensures ReceiptShape(LegacyReceipt(ack, sequence, admissions))
  {
    DistinctSize(ack.recordIds);
    LegacyIdCount(admissions);
    DeliveredCount(b);
    SubsetSize(Members(ack.recordIds), DeliveredIds(b));
    forall i | 0 <= i < |admissions|
      ensures admissions[i].spoolSeq > 0
    {
      assert admissions[i] in admissions;
      assert EntryOnDisk(st, w, admissions[i].legacyId);
    }
  }

  lemma DeliveredCount(b: BatchV1)
    ensures |DeliveredIds(b)| <= |b.records|
  {
    IdsAtMost(b.records);
  }

  lemma {:induction false} IdsAtMost(records: seq<RecordV1>)
    ensures |set r | r in records :: r.recordId| <= |records|
  {
    if records != [] {
      var rest, last := records[..|records| - 1], records[|records| - 1];
      IdsAtMost(rest);
      assert records == rest + [last];
      assert (set r | r in records :: r.recordId) == (set r | r in rest :: r.recordId) + {last.recordId};
    }
  }

  /** The occurrences of a version 1 batch. */
  ghost predicate Occurrences(w: World, b: BatchV1, ys: seq<nat>) {
    && |ys| == |b.records| <= MAX_BATCH_ITEMS
    && (forall i :: 0 <= i < |ys| ==> IsOccurrence(w, ys[i], b.records[i]))
    && (forall i, j :: 0 <= i < j < |ys| ==> ys[i] != ys[j])
  }

  ghost predicate IsOccurrence(w: World, s: nat, r: RecordV1) {
    && s in w.disk.pending && s in w.hist.admitted
    && w.disk.pending[s].contents == Intact(w.hist.admitted[s]) && r == Legacy(w.hist.admitted[s])
  }

  lemma LegacyOccurrences(cfg: Config, rank: Rank, w: World, xs: seq<nat>, k: nat, b: BatchV1)
    requires LegacyBatchHolds(cfg, rank, w, xs, k, b)
    ensures Occurrences(w, b, xs[..k])
  {
    var ys := xs[..k];
    FirstRecordAt(w.hist.admitted, ys);
    ListedApart(rank, w.hist.admitted, w.disk.pending.Keys, xs);
    forall i | 0 <= i < |ys|
      ensures IsOccurrence(w, ys[i], b.records[i])
    {
      assert xs[i] in xs;
    }
  }

  lemma ListedApart(rank: Rank, admitted: map<nat, StoredRecord>, s: set<nat>, xs: seq<nat>)
    requires ListsByTime(rank, admitted, s, xs)
    ensures forall i, j :: 0 <= i < j < |xs| ==> xs[i] != xs[j]
  {
    forall i, j | 0 <= i < j < |xs|
      ensures xs[i] != xs[j]
    {
      assert Before(admitted[xs[i]].admittedAt, rank(admitted[xs[i]].recordId),
                    admitted[xs[j]].admittedAt, rank(admitted[xs[j]].recordId));
    }
  }

  lemma DeliveredOccurrences(cfg: Config, rank: Rank, w: World, b: BatchV1) returns (ys: seq<nat>)
    requires IsLegacyBatch(cfg, rank, w, b)
    ensures Occurrences(w, b, ys)
  {
    var xs, k :| LegacyBatchHolds(cfg, rank, w, xs, k, b);
    LegacyOccurrences(cfg, rank, w, xs, k, b);
    ys := xs[..k];
  }

  /** Every record of a version 1 batch is live, and its entry is the occurrence delivered. */
  lemma DeliveredIsLive(cfg: Config, rank: Rank, st: State, w: World, b: BatchV1, id: RecordId)
    requires Steady(st, w) && IsLegacyBatch(cfg, rank, w, b) && id in DeliveredIds(b)
    ensures id in st.entries
    ensures var s := st.entries[id].spoolSeq;
            && s in View(w.disk) && View(w.disk)[s].Record?
            && AdmissionFor(st.entries[id]) == AdmissionOf(s, View(w.disk)[s].stored)
  {
    var ys := DeliveredOccurrences(cfg, rank, w, b);
    var r :| r in b.records && r.recordId == id;
    var i :| 0 <= i < |b.records| && b.records[i] == r;
    assert IsOccurrence(w, ys[i], b.records[i]);
    OccurrenceIsLive(st, w, ys[i], r);
  }

  lemma OccurrenceIsLive(st: State, w: World, s: nat, r: RecordV1)
    requires EntriesAgree(st, w) && AllSettled(w) && IsOccurrence(w, s, r)
    requires w.disk.gaps == map[] && w.disk.pending.Keys !! Ledger(w.disk).counted.Keys
    ensures r.recordId in st.entries && st.entries[r.recordId].spoolSeq == s
    ensures s in View(w.disk) && View(w.disk)[s].Record?
    ensures AdmissionFor(st.entries[r.recordId]) == AdmissionOf(s, View(w.disk)[s].stored)
  {
    assert HasEntry(st, w, s) && Settled(w, s);
  }

  lemma {:induction false} FirstRecordAt(admitted: map<nat, StoredRecord>, xs: seq<nat>)
    requires forall x :: x in xs ==> x in admitted
    ensures |FirstRecords(admitted, xs)| == |xs|
    ensures forall i :: 0 <= i < |xs| ==> FirstRecords(admitted, xs)[i] == Legacy(admitted[xs[i]])
  {
    if xs != [] { FirstRecordAt(admitted, xs[..|xs| - 1]); }
  }

  lemma LegacyBatchShape(cfg: Config, rank: Rank, st: State, w: World, b: BatchV1)
    requires EntriesAgree(st, w) && IsLegacyBatch(cfg, rank, w, b)
    ensures |b.records| <= MAX_BATCH_ITEMS
    ensures forall i, j :: 0 <= i < j < |b.records| ==> b.records[i].recordId != b.records[j].recordId
  {
    var ys := DeliveredOccurrences(cfg, rank, w, b);
    forall i, j | 0 <= i < j < |b.records|
      ensures b.records[i].recordId != b.records[j].recordId
    {
      assert IsOccurrence(w, ys[i], b.records[i]) && IsOccurrence(w, ys[j], b.records[j]);
      assert HasEntry(st, w, ys[i]) && HasEntry(st, w, ys[j]);
    }
  }

  /** The receipt of a version 1 acknowledgement may be written and accepts exactly the occurrences it
      names. */
  lemma MayAcceptLegacy(cfg: Config, run: Run, rank: Rank, st: State, ack: AckV1, b: BatchV1,
                        admissions: seq<Admission>, sequence: nat)
    requires Legal(cfg, run) && Steady(st, End(run)) && LegacyAcknowledges(cfg, rank, End(run), ack, b)
    requires LegacyWellFormed(ack)
    requires FromEntries(st, admissions) && LegacyIds(admissions) == Members(ack.recordIds)
    requires ack.batchId !in st.receipts && st.nextReceipt <= sequence < U64_MAX && !st.v1Pruned
    ensures var r := LegacyReceipt(ack, sequence, admissions);
            && MayWriteReceipt(End(run), r) && ReceiptSeqs(r) == NamedBy(End(run), ack.recordIds)
            && forall a :: a in r.admissions ==> a.spoolSeq <= U64_MAX
  {
    var w, r := End(run), LegacyReceipt(ack, sequence, admissions);
    LegacyBatchShape(cfg, rank, st, w, b);
    forall s | s in w.disk.pending ensures 1 <= s { PendingPositive(cfg, run, s); }
    LegacyReceiptIsShaped(st, w, ack, b, sequence, admissions);
    NewReceipt(st, w.disk, r);
    forall a | a in admissions
      ensures a.spoolSeq in View(w.disk) && View(w.disk)[a.spoolSeq].Record?
      ensures a == AdmissionOf(a.spoolSeq, View(w.disk)[a.spoolSeq].stored)
      ensures a.spoolSeq <= U64_MAX
    {
      assert a.legacyId in LegacyIds(admissions);
      DeliveredIsLive(cfg, rank, st, w, b, a.legacyId);
      assert EntryOnDisk(st, w, a.legacyId);
      NumberIsU64(cfg, run, a.spoolSeq);
    }
    NamedAreAccepted(st, w, ack, r);
  }

  lemma PendingPositive(cfg: Config, run: Run, s: nat)
    requires Legal(cfg, run) && s in End(run).disk.pending
    ensures 1 <= s
  {
    FateAt(cfg, run, s);
  }

  lemma NamedAreAccepted(st: State, w: World, ack: AckV1, r: Receipt)
    requires EntriesAgree(st, w) && FromEntries(st, r.admissions)
    requires LegacyIds(r.admissions) == Members(ack.recordIds) && r.gapIds == []
    ensures ReceiptSeqs(r) == NamedBy(w, ack.recordIds)
  {
    forall s
      ensures s in ReceiptSeqs(r) <==> s in NamedBy(w, ack.recordIds)
    {
      if s in ReceiptSeqs(r) {
        var a :| a in r.admissions && a.spoolSeq == s;
        assert EntryOnDisk(st, w, a.legacyId);
        assert a.legacyId in LegacyIds(r.admissions);
      }
      if s in NamedBy(w, ack.recordIds) {
        assert HasEntry(st, w, s);
        assert w.hist.admitted[s].recordId in LegacyIds(r.admissions);
        var a :| a in r.admissions && a.legacyId == w.hist.admitted[s].recordId;
      }
    }
  }

  /** The receipt for a version 1 acknowledgement, if it names records of the current batch only. */
  method ExamineLegacy(store: Store, st: State, delivered: BatchV1, ack: AckV1,
                       ghost rank: Rank) returns (r: Result<Receipt>)
    requires store.Valid() && Steady(st, store.W()) && IsLegacyBatch(store.cfg, rank, store.W(), delivered)
    requires LegacyWellFormed(ack) && ack.batchId !in st.receipts && !st.v1Pruned
    ensures r.Ok? ==>
              && LegacyAcknowledges(store.cfg, rank, store.W(), ack, delivered)
              && MayWriteReceipt(store.W(), r.value) && ReceiptSeqs(r.value) == NamedBy(store.W(), ack.recordIds)
              && st.nextReceipt < U64_MAX && r.value == LegacyReceipt(ack, st.nextReceipt, r.value.admissions)
    ensures r.Err? && st.nextReceipt < U64_MAX ==>
              r.error.InvalidAcknowledgement? && !LegacyAcknowledges(store.cfg, rank, store.W(), ack, delivered)
  {
    var ids := DeliveredIds(delivered);
    if delivered.batchId != ack.batchId || exists i :: 0 <= i < |ack.recordIds| && ack.recordIds[i] !in ids {
      return Err(InvalidAcknowledgement);
    }
    assert LegacyAcknowledges(store.cfg, rank, store.W(), ack, delivered);
    LegacyBatchShape(store.cfg, rank, st, store.W(), delivered);
    forall id | id in ids ensures id in st.entries { DeliveredIsLive(store.cfg, rank, st, store.W(), delivered, id); }
    forall id | id in st.entries ensures st.entries[id].recordId == id { assert EntryOnDisk(st, store.W(), id); }
    var admissions := LegacyAdmissions(st, delivered, ack);
    if admissions.Err? { assert false; }
    assert DeliveredIds(delivered) * Members(ack.recordIds) == Members(ack.recordIds);
    if st.nextReceipt >= U64_MAX { return Err(InvalidConfig); }
    var receipt := LegacyReceipt(ack, st.nextReceipt, admissions.value);
    MayAcceptLegacy(store.cfg, store.run, rank, st, ack, delivered, admissions.value, st.nextReceipt);
    ReceiptIsReadable(receipt);
    if ReceiptLength(receipt) + ENCRYPTION_OVERHEAD > MAX_ENCRYPTED_RECEIPT_BYTES { assert false; }
    r := Ok(receipt);
  }

  // ---------------------------------------------------------------------------
  // The operation
  // ---------------------------------------------------------------------------

  /** A batch id with a retained receipt: the same record ids get the same answer, others are refused,
      and no entry, gap or item of the queue changes. */
  ghost predicate LegacyAnswersAgain(run: Run, st: State, ack: AckV1, r: Result<AckResultV1>, run': Run, st': State)
    requires ack.batchId in st.receipts
  {
    var prior := st.receipts[ack.batchId];
    && (if SameIds(prior.recordIds, ack.recordIds) then r == Ok(AckResultV1(prior.recordIds))
        else r == Err(InvalidAcknowledgement))
    && Unmoved(run, run') && st'.entries == st.entries && st'.gaps == st.gaps && SameReceipts(st, st')
  }

  /** The history gains the accepted numbers and the version 1 batch, and nothing else. */
  ghost predicate LegacyRecorded(h: History, h': History, accepted: set<nat>, b: BatchId) {
    h' == h.(acked := h.acked + accepted, v1Batches := h.v1Batches + {b}, v1Used := true)
  }

  /** The newest receipt holds the record ids sent, and no other receipt is new. */
  ghost predicate LegacyReceived(st: State, st': State, ack: AckV1) {
    && Newest(st'.receipts, ack.batchId) && st'.receipts[ack.batchId].recordIds == ack.recordIds
    && st.nextReceipt < U64_MAX && st'.nextReceipt == st.nextReceipt + 1
    && OnlyNew(st.receipts, st'.receipts, ack.batchId)
    && (|st.receipts| < MAX_ACK_RECEIPTS ==> st'.v1Pruned == st.v1Pruned)
  }

  /** A new version 1 acknowledgement: accepted exactly when the history was never pruned, everything
      pending is a record, and it names records of the current batch only; then the queue loses exactly
      the occurrences named. */
  ghost predicate LegacyAnswersNew(cfg: Config, rank: Rank, run: Run, st: State, ack: AckV1,
                                   r: Result<AckResultV1>, run': Run, st': State) {
    && (r.Ok? ==>
          && !st.v1Pruned && (OnlyRecords(View(End(run).disk)) || End(run).hist.damaged)
          && (exists b :: LegacyAcknowledges(cfg, rank, End(run), ack, b))
          && Loses(run, run', NamedBy(End(run), ack.recordIds)) && r.value == AckResultV1(ack.recordIds)
          && LegacyRecorded(End(run).hist, End(run').hist, NamedBy(End(run), ack.recordIds), ack.batchId)
          && LegacyReceived(st, st', ack))
    && (r.Err? ==> Kept(run, run') && st' == st)
    && (r.Err? && st.nextReceipt < U64_MAX ==>
          if st.v1Pruned then r.error.V1AcknowledgementHistoryPruned?
          else if !OnlyRecords(View(End(run).disk)) && !End(run).hist.damaged then r.error.ProtocolUpgradeRequired?
          else r.error.InvalidAcknowledgement? && forall b :: !LegacyAcknowledges(cfg, rank, End(run), ack, b))
  }

  method ReplayLegacy(store: Store, st: State, ack: AckV1) returns (r: Result<AckResultV1>, st': State)
    requires store.Valid() && Steady(st, store.W()) && ack.batchId in st.receipts
    modifies store
    ensures store.Valid() && Steady(st', store.W()) && LegacyAnswersAgain(old(store.run), st, ack, r, store.run, st')
  {
    var prior := st.receipts[ack.batchId];
    UnmovedSame(store.run);
    if !SameIds(prior.recordIds, ack.recordIds) { return Err(InvalidAcknowledgement), st; }
    st' := Recomplete(store, st, ack.batchId);
    r := Ok(AckResultV1(prior.recordIds));
  }

  /** What happens once the version 1 batch is known. */
  method AcceptLegacy(store: Store, st: State, delivered: BatchV1, ack: AckV1,
                      rank: Rank) returns (r: Result<AckResultV1>, st': State)
    requires store.Valid() && Steady(st, store.W()) && IsLegacyBatch(store.cfg, rank, store.W(), delivered)
    requires LegacyWellFormed(ack) && ack.batchId !in st.receipts && !st.v1Pruned
    requires OnlyRecords(View(store.disk)) || store.W().hist.damaged
    modifies store
    ensures store.Valid() && Steady(st', store.W()) && Continues(old(store.run), store.run)
    ensures LegacyAnswersNew(store.cfg, rank, old(store.run), st, ack, r, store.run, st')
  {
    var receipt := ExamineLegacy(store, st, delivered, ack, rank);
    if receipt.Err? {
      KeptSame(store.run);
      if st.nextReceipt < U64_MAX { NoneAcknowledged(store.cfg, rank, store.W(), ack, delivered); }
      return Err(receipt.error), st;
    }
    assert LegacyAcknowledges(store.cfg, rank, store.W(), ack, delivered);
    st' := StoreLegacyAnswer(store, st, ack, receipt.value);
    r := Ok(AckResultV1(ack.recordIds));
  }

  /** Stores the receipt of a version 1 acknowledgement. */
  method StoreLegacyAnswer(store: Store, st: State, ack: AckV1, receipt: Receipt) returns (st': State)
    requires store.Valid() && Steady(st, store.W()) && MayWriteReceipt(store.W(), receipt)
    requires ack.batchId !in st.receipts
    requires receipt == LegacyReceipt(ack, st.nextReceipt, receipt.admissions) && st.nextReceipt < U64_MAX
    modifies store
    ensures store.Valid() && Steady(st', store.W()) && Continues(old(store.run), store.run)
    ensures LegacyRecorded(old(store.W().hist), store.W().hist, ReceiptSeqs(receipt), ack.batchId)
    ensures LegacyReceived(st, st', ack) && Loses(old(store.run), store.run, ReceiptSeqs(receipt))
  {
    var next := st.(nextReceipt := st.nextReceipt + 1);
    NextReceipt(st, store.W(), next);
    st' := StoreReceipt(store, next, receipt);
  }

  /** A new version 1 acknowledgement in a directory that may hold damaged files: `mid` and `stm` are
      what looking up the current batch left. If there is a batch then nothing has changed yet and the
      answer is exact; with damage the lookup itself may fail. */
  ghost predicate LegacyAnswersAfter(cfg: Config, rank: Rank, run: Run, st: State, mid: Run, stm: State, ack: AckV1,
                                     r: Result<AckResultV1>, run': Run, st': State) {
    && Kept(run, mid)
    && (|| (End(mid) == End(run) && stm == st && LegacyAnswersNew(cfg, rank, mid, st, ack, r, run', st'))
        || (End(run).hist.damaged && r.Err? && run' == mid && st' == stm))
  }

  method AcceptNewLegacy(store: Store, st: State, ack: AckV1, rank: Rank)
    returns (r: Result<AckResultV1>, st': State, ghost mid: Run, ghost stm: State)
    requires store.Valid() && Steady(st, store.W()) && LegacyWellFormed(ack) && ack.batchId !in st.receipts
    requires Injective(rank)
    modifies store
    ensures store.Valid() && Steady(st', store.W()) && Continues(old(store.run), store.run)
    ensures !old(store.W().hist.damaged) ==>
              LegacyAnswersNew(store.cfg, rank, old(store.run), st, ack, r, store.run, st')
    ensures LegacyAnswersAfter(store.cfg, rank, old(store.run), st, mid, stm, ack, r, store.run, st')
    ensures st.v1Pruned ==> r.Err? && store.run == old(store.run) && st' == st
  {
    ghost var w := store.W();
    mid, stm := store.run, st;
    KeptSame(store.run);
    if st.v1Pruned {
      LegacyRefused(store.cfg, rank, store.run, store.run, st, ack, V1AcknowledgementHistoryPruned);
      return Err(V1AcknowledgementHistoryPruned), st, mid, stm;
    }
    var delivered;
    delivered, st' := BuildLegacyBatch(store, st, rank);
    mid, stm := store.run, st';
    SameWorld(w, store.W());
    if delivered.Err? {
      if !w.hist.damaged {
        LegacyRefused(store.cfg, rank, mid, mid, st, ack, delivered.error);
        LegacyRefused(store.cfg, rank, old(store.run), mid, st, ack, delivered.error);
      }
      return Err(delivered.error), st', mid, stm;
    }
    r, st' := AcceptLegacy(store, st, delivered.value, ack, rank);
    if !w.hist.damaged { KeepsThenAnswersLegacy(store.cfg, rank, old(store.run), mid, st, ack, r, store.run, st'); }
  }

  /** Refused before the identifiers are looked at. */
  lemma LegacyRefused(cfg: Config, rank: Rank, run: Run, mid: Run, st: State, ack: AckV1, e: Error)
    requires Kept(run, mid) || mid == run
    requires if st.v1Pruned then e.V1AcknowledgementHistoryPruned?
             else !End(run).hist.damaged && !OnlyRecords(View(End(run).disk)) && e.ProtocolUpgradeRequired?
    ensures LegacyAnswersNew(cfg, rank, run, st, ack, Err(e), mid, st)
  {
    KeptSame(run);
  }

  lemma KeepsThenAnswersLegacy(cfg: Config, rank: Rank, a: Run, b: Run, st: State, ack: AckV1, r: Result<AckResultV1>,
                               c: Run, st': State)
    requires Kept(a, b) && End(b) == End(a) && !End(a).hist.damaged && Continues(b, c)
    requires LegacyAnswersNew(cfg, rank, b, st, ack, r, c, st')
    ensures LegacyAnswersNew(cfg, rank, a, st, ack, r, c, st')
  {
    if r.Ok? { KeepsThenLoses(a, b, c, NamedBy(End(a), ack.recordIds)); } else { KeptTwice(a, b, c); }
  }

  lemma NoneAcknowledged(cfg: Config, rank: Rank, w: World, ack: AckV1, delivered: BatchV1)
    requires IsLegacyBatch(cfg, rank, w, delivered) && !LegacyAcknowledges(cfg, rank, w, ack, delivered)
    ensures forall b :: !LegacyAcknowledges(cfg, rank, w, ack, b)
  {
    forall b
      ensures !LegacyAcknowledges(cfg, rank, w, ack, b)
    {
      if IsLegacyBatch(cfg, rank, w, b) { LegacyBatchIsUnique(cfg, rank, w, b, delivered); }
    }
  }

  lemma SameWorld(w: World, w': World)
    ensures w'.disk == w.disk && w'.hist == w.hist ==> w' == w
  {
  }

  /** A version 1 batch once acknowledged still has its receipt, or the history is marked as pruned. */
  lemma RememberedBatch(cfg: Config, run: Run, st: State, b: BatchId)
    requires Legal(cfg, run) && Steady(st, End(run)) && b in End(run).hist.v1Batches && !st.v1Pruned
    ensures b in st.receipts
  {
    EndKeeps(cfg, run);
    var d := End(run).disk;
    assert HasV1Receipt(d.receipts, b);
    var n :| n in d.receipts && d.receipts[n].batchId == b && d.receipts[n].version == 1;
    assert HasReceipt(st, d, n);
  }

  // ---------------------------------------------------------------------------
  // What a version 1 acknowledgement leaves behind
  // ---------------------------------------------------------------------------

  /** The current batch can always be acknowledged without accepting anything. */
  lemma LegacyNothingAcknowledged(cfg: Config, rank: Rank, w: World, b: BatchV1)
    requires IsLegacyBatch(cfg, rank, w, b)
    ensures LegacyAcknowledges(cfg, rank, w, AckV1(1, b.batchId, []), b) && NamedBy(w, []) == {}
  {
    NoMembers<RecordId>([]);
  }

  /** Every pending file holds the admitted record. */
  ghost predicate AllIntact(w: World) {
    forall s :: s in w.disk.pending ==> s in w.hist.admitted && w.disk.pending[s].contents == Intact(w.hist.admitted[s])
  }

  lemma LegacyBatchCarriesOver(cfg: Config, rank: Rank, w: World, w': World, xs: seq<nat>, k: nat, b: BatchV1)
    requires LegacyBatchHolds(cfg, rank, w, xs, k, b) && AllIntact(w')
    requires w'.hist.admitted == w.hist.admitted && w'.disk.pending.Keys == w.disk.pending.Keys
    ensures LegacyBatchHolds(cfg, rank, w', xs, k, b)
  {
    forall i | 0 <= i < k
      ensures w'.disk.pending[xs[i]].contents == Intact(w'.hist.admitted[xs[i]])
    {
      assert xs[i] in xs;
    }
  }

  lemma SameBatchIds(a: BatchV1, b: BatchV1, id: RecordId)
    requires LegacyBatchId(a.records) == LegacyBatchId(b.records) && id in DeliveredIds(a)
    ensures exists i :: 0 <= i < |b.records| && b.records[i].recordId == id
  {
    var r :| r in a.records && r.recordId == id;
    var i :| 0 <= i < |a.records| && a.records[i] == r;
    assert LegacyBatchId(a.records).ids[i] == id && LegacyBatchId(b.records).ids[i] == id;
  }

  /** After an accepted acknowledgement the next version 1 batch has a new identifier, unless the
      acknowledgement named nothing. */
  lemma LegacyBatchMovesOn(cfg: Config, rank: Rank, w: World, ack: AckV1, b: BatchV1, w': World, next: BatchV1)
    requires LegacyAcknowledges(cfg, rank, w, ack, b) && IsLegacyBatch(cfg, rank, w', next) && AllIntact(w')
    requires w'.hist.admitted == w.hist.admitted
    requires w'.disk.pending.Keys == w.disk.pending.Keys - NamedBy(w, ack.recordIds)
    ensures next.batchId == ack.batchId <==> ack.recordIds == []
  {
    var xs, k: nat :| LegacyBatchHolds(cfg, rank, w, xs, k, b);
    var ys, j: nat :| LegacyBatchHolds(cfg, rank, w', ys, j, next);
    if ack.recordIds == [] {
      assert NamedBy(w, ack.recordIds) == {};
      LegacyBatchCarriesOver(cfg, rank, w, w', xs, k, b);
      LegacyBatchOnce(cfg, rank, w', xs, k, b, ys, j, next);
    } else {
      assert ack.recordIds[0] in Members(ack.recordIds);
      if LegacyBatchId(b.records) == LegacyBatchId(next.records) {
        SameBatchIds(b, next, ack.recordIds[0]);
        NamedIsGone(cfg, rank, w, w', next, ack);
      }
    }
  }

  lemma NamedIsGone(cfg: Config, rank: Rank, w: World, w': World, next: BatchV1, ack: AckV1)
    requires IsLegacyBatch(cfg, rank, w', next) && ack.recordIds != []
    requires w'.hist.admitted == w.hist.admitted
    requires w'.disk.pending.Keys == w.disk.pending.Keys - NamedBy(w, ack.recordIds)
    ensures forall i :: 0 <= i < |next.records| ==> next.records[i].recordId != ack.recordIds[0]
  {
    var zs := DeliveredOccurrences(cfg, rank, w', next);
    forall i | 0 <= i < |next.records|
      ensures next.records[i].recordId != ack.recordIds[0]
    {
      assert IsOccurrence(w', zs[i], next.records[i]);
    }
  }
}
