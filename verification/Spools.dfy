/** The spool: the state in memory over a directory, and its public operations. A process that stops
    drops the `Spool` and leaves the `Store`; opening the store again continues its run. */
module Spools {
  import opened Finite
  import opened Wire
  import opened Limits
  import opened Durable
  import opened Invariant
  import opened Safety
  import opened Cache
  import opened Machine
  import opened Expiry
  import opened Batch
  import opened Delivery
  import opened Receipts
  import opened Admit
  import opened Acknowledge
  import opened Legacy
  import opened Recovery

  class Spool {
    const store: Store
    const rank: Rank
    var state: State

    ghost predicate Valid()
      reads this, store
    {
      store.Valid() && Steady(state, store.W()) && Injective(rank)
    }

    constructor (store: Store, rank: Rank, state: State)
      requires store.Valid() && Steady(state, store.W()) && Injective(rank)
      ensures Valid() && this.store == store && this.rank == rank && this.state == state
    {
      this.store := store;
      this.rank := rank;
      this.state := state;
    }

    /** `enqueue` */
    method Enqueue(env: Envelope, admittedAt: int) returns (r: Result<Outcome>)
      requires Valid() && InI64(admittedAt)
      modifies this, store
      ensures Valid() && Enqueues(store.cfg, old(store.run), old(state), env, admittedAt, r, store.run, state)
    {
      var st;
      r, st := Admit.Enqueue(store, state, env, admittedAt);
      state := st;
    }

    /** `next_batch_v2`: undamaged, the batch of the queue in which everything due has become a gap; it
        is empty only if nothing is pending. */
    method NextBatchV2(now: int) returns (r: Result<BatchV2>)
      requires Valid()
      modifies this, store
      ensures Valid() && Continues(old(store.run), store.run)
      ensures r.Ok? ==> IsBatch(store.cfg, View(store.disk), r.value)
      ensures r.Ok? ==> (r.value.records == [] && r.value.gaps == [] <==> View(store.disk) == map[])
      ensures !store.W().hist.damaged ==>
                r.Ok? && Expires(old(store.run), store.run, now) && OnlyWhenFull(store.cfg, state)
    {
      var expired, st := Expiry.ExpireDue(store, state, now);
      ghost var mid := store.run;
      state := st;
      if expired.Err? { return Err(expired.error); }
      r, st := BuildBatchV2(store, st);
      state := st;
      if !store.W().hist.damaged { ExpiresThenKeeps(old(store.run), mid, store.run, now); }
      if r.Ok? { EmptyMeansNothing(store.cfg, store.run, r.value); }
    }

    /** `next_batch`: undamaged, the version 1 batch exactly when everything left is a record. */
    method NextBatch(now: int) returns (r: Result<BatchV1>)
      requires Valid()
      modifies this, store
      ensures Valid() && Continues(old(store.run), store.run)
      ensures r.Ok? ==> IsLegacyBatch(store.cfg, rank, store.W(), r.value)
      ensures !store.W().hist.damaged ==>
                (r.Ok? <==> OnlyRecords(View(store.disk))) && Expires(old(store.run), store.run, now)
      ensures !store.W().hist.damaged && r.Err? ==> r.error.ProtocolUpgradeRequired?
    {
      var expired, st := Expiry.ExpireDue(store, state, now);
      ghost var mid := store.run;
      state := st;
      if expired.Err? { return Err(expired.error); }
      if state.gaps != map[] || state.counted != map[] {
        NoGapsInQueue(store.cfg, store.run, state);
        return Err(ProtocolUpgradeRequired);
      }
      r, st := BuildLegacyBatch(store, st, rank);
      state := st;
      if !store.W().hist.damaged { ExpiresThenKeeps(old(store.run), mid, store.run, now); }
    }

    /** `acknowledge_v2` */
    method AcknowledgeV2(ack: AckV2)
      returns (r: Result<AckResultV2>, ghost accepted: set<nat>, ghost mid: Run, ghost stm: State)
      requires Valid()
      modifies this, store
      ensures Valid() && Continues(old(store.run), store.run)
      ensures !WellFormed(ack) ==>
                r == Err(InvalidAcknowledgement) && store.run == old(store.run) && state == old(state)
      ensures WellFormed(ack) && ack.batchId in old(state).receipts ==>
                AnswersAgain(old(store.run), old(state), ack, r, store.run, state)
      ensures WellFormed(ack) && ack.batchId !in old(state).receipts && !store.W().hist.damaged ==>
                AnswersNew(store.cfg, old(store.run), old(state), ack, r, accepted, store.run, state)
      ensures WellFormed(ack) && ack.batchId !in old(state).receipts ==>
                AnswersAfter(store.cfg, old(store.run), mid, stm, ack, r, accepted, store.run, state)
      ensures ack.version != 2 || !Distinct(ack.recordIds) || !Distinct(ack.gapIds) ==> r == Err(InvalidAcknowledgement)
      ensures (&& ack.version == 2 && Distinct(ack.recordIds) && Distinct(ack.gapIds) && !store.W().hist.damaged
               && ack.batchId !in old(state).receipts && old(state).nextReceipt < U64_MAX
               && (exists s :: Acknowledges(store.cfg, old(View(store.disk)), ack, s))) ==>
                r.Ok?
      ensures (&& ack.version == 2 && Distinct(ack.recordIds) && Distinct(ack.gapIds) && ValidDigest(ack.batchId)
               && ack.batchId in old(state).receipts && Remembers(old(state).receipts[ack.batchId], ack)) ==>
                r.Ok?
    {
      accepted, mid, stm := {}, store.run, state;
      if !WellFormed(ack) { return Err(InvalidAcknowledgement), accepted, mid, stm; }
      var st;
      if ack.batchId in state.receipts {
        r, st := Replay(store, state, ack);
      } else {
        r, st, accepted, mid, stm := AcceptNew(store, state, ack);
      }
      state := st;
    }

    /** `acknowledge`. Whatever its ids, an acknowledgement of a batch that was ever acknowledged by
        version 1 changes no item of the queue: it is answered by its receipt or refused because the
        history was pruned, so it never removes a later occurrence of the same record. */
    method Acknowledge(ack: AckV1) returns (r: Result<AckResultV1>, ghost mid: Run, ghost stm: State)
      requires Valid()
      modifies this, store
      ensures Valid() && Continues(old(store.run), store.run)
      ensures !LegacyWellFormed(ack) ==>
                r == Err(InvalidAcknowledgement) && store.run == old(store.run) && state == old(state)
      ensures LegacyWellFormed(ack) && ack.batchId in old(state).receipts ==>
                LegacyAnswersAgain(old(store.run), old(state), ack, r, store.run, state)
      ensures LegacyWellFormed(ack) && ack.batchId !in old(state).receipts && !old(store.W().hist.damaged) ==>
                LegacyAnswersNew(store.cfg, rank, old(store.run), old(state), ack, r, store.run, state)
      ensures LegacyWellFormed(ack) && ack.batchId !in old(state).receipts ==>
                LegacyAnswersAfter(store.cfg, rank, old(store.run), old(state), mid, stm, ack, r, store.run, state)
      ensures ack.batchId in old(store.W().hist.v1Batches) ==> Unmoved(old(store.run), store.run)
      ensures ack.version != 1 || !Distinct(ack.recordIds) ==> r == Err(InvalidAcknowledgement)
      ensures (&& ack.version == 1 && Distinct(ack.recordIds) && !old(store.W().hist.damaged) && !old(state).v1Pruned
               && ack.batchId !in old(state).receipts && old(state).nextReceipt < U64_MAX
               && OnlyRecords(old(View(store.disk)))
               && (exists b :: LegacyAcknowledges(store.cfg, rank, old(store.W()), ack, b))) ==>
                r.Ok?
      ensures (&& ack.version == 1 && Distinct(ack.recordIds) && ValidDigest(ack.batchId)
               && ack.batchId in old(state).receipts
               && old(state).receipts[ack.batchId].recordIds == ack.recordIds) ==>
                r.Ok?
    {
      mid, stm := store.run, state;
      UnmovedSame(store.run);
      if !LegacyWellFormed(ack) { return Err(InvalidAcknowledgement), mid, stm; }
      if ack.batchId in store.W().hist.v1Batches && !state.v1Pruned {
        RememberedBatch(store.cfg, store.run, state, ack.batchId);
      }
      var st;
      if ack.batchId in state.receipts {
        r, st := ReplayLegacy(store, state, ack);
      } else {
        r, st, mid, stm := AcceptNewLegacy(store, state, ack, rank);
      }
      state := st;
    }

    /** An alteration of a pending file from outside, while the spool is open: memory and directory still
        agree afterwards, so every operation above may follow. */
    method AlteredOutside(s: nat, size: nat)
      requires Valid() && s in store.disk.pending
      modifies store
      ensures Valid() && Continues(old(store.run), store.run) && store.W().hist.damaged
      ensures store.disk == ApplyDisk(old(store.disk), Damage(s, size))
    {
      DamageKeepsSteady(state, store.W(), s, size);
      store.Perform(Damage(s, size));
    }

    /** `expire_due` */
    method ExpireDue(now: int) returns (r: Result<nat>)
      requires Valid()
      modifies this, store
      ensures Valid() && Continues(old(store.run), store.run)
      ensures !store.W().hist.damaged ==>
                r == Ok(|DueNow(old(View(store.disk)), now)|) && Expires(old(store.run), store.run, now)
      ensures r.Ok? ==> OnlyWhenFull(store.cfg, state)
    {
      var st;
      r, st := Expiry.ExpireDue(store, state, now);
      state := st;
    }
  }

  lemma DamageKeepsSteady(st: State, w: World, s: nat, size: nat)
    requires Steady(st, w) && s in w.disk.pending
    ensures Steady(st, Apply(w, Damage(s, size)))
  {
    var w' := Apply(w, Damage(s, size));
    DamageKeepsSizes(w.disk.pending, s, size);
    forall t ensures HasEntry(st, w', t) { assert HasEntry(st, w, t); }
    forall id ensures EntryOnDisk(st, w', id) { assert EntryOnDisk(st, w, id); }
    forall id ensures Indexed(st, id) { assert Indexed(st, id); }
    GapsUntouched(st, st, w.disk, w'.disk);
    ReceiptsUntouched(st, st, w.disk, w'.disk);
    forall t ensures Settled(w', t) && Lags(st, w'.disk, t) { assert Settled(w, t) && Lags(st, w.disk, t); }
  }

  /** `open`: a directory that was never altered from outside opens if and only if `CanReopen` holds.
      The queue afterwards is the one the last stop left, with the records due by now turned into
      gaps, and any stop during opening leaves one of these two. A refusal changes no item. */
  method Open(store: Store, rank: Rank, now: int) returns (r: Result<Spool>)
    requires store.Valid() && !store.W().hist.damaged && Injective(rank)
    modifies store
    ensures store.Valid() && Continues(old(store.run), store.run)
    ensures r.Ok? <==> CanReopen(store.cfg, old(store.disk))
    ensures r.Ok? ==>
              fresh(r.value) && r.value.Valid() && r.value.store == store && Expires(old(store.run), store.run, now)
    ensures r.Ok? ==>
              && OnlyWhenFull(store.cfg, r.value.state) && |r.value.state.receipts| <= 1_024
              && store.disk.established
    ensures r.Err? ==> r.error == if old(store.disk).orphan then CorruptRecord else CapacityExceeded
    ensures r.Err? ==> Kept(old(store.run), store.run)
  {
    var done, st := Recover(store, now);
    if done.Err? { return Err(done.error); }
    var spool := new Spool(store, rank, st);
    r := Ok(spool);
  }

  // ---------------------------------------------------------------------------
  // Stops
  // ---------------------------------------------------------------------------

  /** What a stop after `i` durable steps leaves. */
  ghost function Cut(run: Run, i: nat): Run
    requires i <= |run.steps|
  {
    Trace(run.worlds[..i + 1], run.steps[..i])
  }

  /** A stop leaves a legal run, from which the directory can be reopened again. */
  lemma CutIsLegal(cfg: Config, run: Run, i: nat)
    requires Legal(cfg, run) && i <= |run.steps|
    ensures Legal(cfg, Cut(run, i)) && End(Cut(run, i)) == run.worlds[i]
  {
    var cut := Cut(run, i);
    forall j | 0 <= j < |cut.steps| ensures Allowed(cfg, cut, j) { assert Allowed(cfg, run, j); }
    forall j | 0 <= j < |cut.steps| ensures Admits(cfg, cut.steps[j]) { assert Admits(cfg, run.steps[j]); }
  }

  /** One attempt to reopen: the run of the whole attempt, where it stopped and its clock. */
  datatype Attempt = Attempt(run: Run, stop: nat, now: int)

  /** Attempts to reopen, one after the other, each stopped anywhere; the clock never goes back. */
  ghost predicate Attempts(start: Run, attempts: seq<Attempt>)
    decreases |attempts|
  {
    attempts != [] ==>
      var a := attempts[0];
      && Continues(start, a.run) && |start.steps| <= a.stop <= |a.run.steps|
      && (Expires(start, a.run, a.now) || Kept(start, a.run)) && !End(start).hist.damaged
      && (|attempts| > 1 ==> a.now <= attempts[1].now)
      && Attempts(Cut(a.run, a.stop), attempts[1..])
  }

  /** Where the attempts leave the run. */
  ghost function Left(start: Run, attempts: seq<Attempt>): Run
    requires Attempts(start, attempts)
    decreases |attempts|
  {
    if attempts == [] then start else Left(Cut(attempts[0].run, attempts[0].stop), attempts[1..])
  }

  /** Expiring twice is expiring once, at the later time. */
  lemma ExpireLater(v: map<nat, Item>, t: int, u: int)
    requires t <= u
    ensures var w := Expire(v, DueNow(v, t)); Expire(w, DueNow(w, u)) == Expire(v, DueNow(v, u))
  {
  }

  /** A queue that expired up to some time not after `now`, or not at all. */
  ghost predicate Aged(v: map<nat, Item>, w: map<nat, Item>, now: int) {
    w == v || exists t :: t <= now && w == Expire(v, DueNow(v, t))
  }

  lemma AgedExpires(v: map<nat, Item>, w: map<nat, Item>, now: int)
    requires Aged(v, w, now)
    ensures Expire(w, DueNow(w, now)) == Expire(v, DueNow(v, now)) && Aged(v, Expire(w, DueNow(w, now)), now)
  {
    if w != v {
      var t :| t <= now && w == Expire(v, DueNow(v, t));
      ExpireLater(v, t, now);
    }
  }

  /** One stopped attempt leaves the queue it found or that queue expired. */
  lemma AttemptAges(v: map<nat, Item>, start: Run, a: Attempt)
    requires Aged(v, View(End(start).disk), a.now) && |start.steps| <= a.stop <= |a.run.steps|
    requires !End(start).hist.damaged
    requires Expires(start, a.run, a.now) || Kept(start, a.run)
    ensures Aged(v, View(End(Cut(a.run, a.stop)).disk), a.now)
  {
    var w := View(End(start).disk);
    AgedExpires(v, w, a.now);
    assert ViewAt(a.run, a.stop) == View(End(Cut(a.run, a.stop)).disk);
    if Expires(start, a.run, a.now) {
      assert ViewAt(a.run, a.stop) in {w, Expire(w, DueNow(w, a.now))};
    } else {
      assert ViewAt(a.run, a.stop) in {w};
    }
  }

  lemma AgedLater(v: map<nat, Item>, w: map<nat, Item>, t: int, u: int)
    requires Aged(v, w, t) && t <= u
    ensures Aged(v, w, u)
  {
  }

  /** Any number of stopped attempts leave the queue as it was or expired at one of their times. */
  lemma {:induction false} AttemptsAge(v: map<nat, Item>, start: Run, attempts: seq<Attempt>, now: int)
    requires Attempts(start, attempts)
    requires Aged(v, View(End(start).disk), if attempts == [] then now else attempts[0].now)
    requires attempts != [] ==> attempts[|attempts| - 1].now <= now
    ensures Aged(v, View(End(Left(start, attempts)).disk), now)
    decreases |attempts|
  {
    if attempts != [] {
      var a := attempts[0];
      AttemptAges(v, start, a);
      AgedLater(v, View(End(Cut(a.run, a.stop)).disk), a.now, if |attempts| > 1 then attempts[1].now else now);
      AttemptsAge(v, Cut(a.run, a.stop), attempts[1..], now);
    }
  }

  /** Where a stop inside an operation and any number of stopped attempts to reopen leave the run, when
      the operation takes the queue from `v` to `v'` and an opening at `now` finally runs through. */
  ghost predicate StoppedAndReopened(before: Run, after: Run, i: nat, attempts: seq<Attempt>, reopened: Run, now: int) {
    && |before.steps| <= i <= |after.steps| && Attempts(Cut(after, i), attempts)
    && (attempts != [] ==> attempts[|attempts| - 1].now <= now)
    && Expires(Left(Cut(after, i), attempts), reopened, now)
  }

  /** Crash refinement, for an operation that takes the queue from `v` to `v'` in one step. */
  lemma CrashRefinement(before: Run, after: Run, i: nat, attempts: seq<Attempt>, reopened: Run, now: int,
                        v: map<nat, Item>, v': map<nat, Item>)
    requires Visits(after, |before.steps|, {v, v'}) && StoppedAndReopened(before, after, i, attempts, reopened, now)
    ensures View(End(reopened).disk) in {Expire(v, DueNow(v, now)), Expire(v', DueNow(v', now))}
  {
    assert ViewAt(after, i) in {v, v'} && ViewAt(after, i) == View(End(Cut(after, i)).disk);
    var found := View(End(Cut(after, i)).disk);
    AttemptsAge(found, Cut(after, i), attempts, now);
    AgedExpires(found, View(End(Left(Cut(after, i), attempts)).disk), now);
  }

  /** A stop anywhere inside `enqueue`, any number of stopped attempts to reopen, and an opening: the
      queue is the one without or the one with the record, expired as of the opening. */
  lemma EnqueueRefines(cfg: Config, run: Run, st: State, env: Envelope, admittedAt: int, r: Result<Outcome>,
                       run': Run, st': State,
                       i: nat, attempts: seq<Attempt>, reopened: Run, now: int)
    requires InI64(admittedAt) && Configured(cfg) && !End(run).hist.damaged
    requires Enqueues(cfg, run, st, env, admittedAt, r, run', st')
    requires StoppedAndReopened(run, run', i, attempts, reopened, now)
    ensures var v := View(End(run).disk);
            var more := v[st.next := Record(NewRecord(cfg, st.next, env, admittedAt))];
            var v' := if r.Ok? && r.value.Stored? then more else v;
            View(End(reopened).disk) in {Expire(v, DueNow(v, now)), Expire(v', DueNow(v', now))}
  {
    var v := View(End(run).disk);
    if r.Ok? && r.value.Stored? {
      CrashRefinement(run, run', i, attempts, reopened, now, v,
                      v[st.next := Record(NewRecord(cfg, st.next, env, admittedAt))]);
    } else {
      CrashRefinement(run, run', i, attempts, reopened, now, v, v);
    }
  }

  /** The same for a new `acknowledge_v2`: all of what it accepts is gone, or nothing. */
  lemma AcknowledgeRefines(cfg: Config, run: Run, st: State, ack: AckV2, r: Result<AckResultV2>,
                           accepted: set<nat>, run': Run, st': State,
                           i: nat, attempts: seq<Attempt>, reopened: Run, now: int)
    requires AnswersNew(cfg, run, st, ack, r, accepted, run', st') && !End(run).hist.damaged
    requires StoppedAndReopened(run, run', i, attempts, reopened, now)
    ensures var v := View(End(run).disk);
            var v' := if r.Ok? then v - accepted else v;
            View(End(reopened).disk) in {Expire(v, DueNow(v, now)), Expire(v', DueNow(v', now))}
  {
    var v := View(End(run).disk);
    CrashRefinement(run, run', i, attempts, reopened, now, v, if r.Ok? then v - accepted else v);
  }

  /** The same for a new `acknowledge`. */
  lemma LegacyAcknowledgeRefines(cfg: Config, rank: Rank, run: Run, st: State, ack: AckV1,
                                 r: Result<AckResultV1>, run': Run, st': State,
                                 i: nat, attempts: seq<Attempt>, reopened: Run, now: int)
    requires LegacyAnswersNew(cfg, rank, run, st, ack, r, run', st') && !End(run).hist.damaged
    requires StoppedAndReopened(run, run', i, attempts, reopened, now)
    ensures var v := View(End(run).disk);
            var v' := if r.Ok? then v - NamedBy(End(run), ack.recordIds) else v;
            View(End(reopened).disk) in {Expire(v, DueNow(v, now)), Expire(v', DueNow(v', now))}
  {
    var v := View(End(run).disk);
    CrashRefinement(run, run', i, attempts, reopened, now, v,
                    if r.Ok? then v - NamedBy(End(run), ack.recordIds) else v);
  }

  /** The same for replays and everything else that leaves the queue alone. */
  lemma HousekeepingRefines(run: Run, run': Run, i: nat, attempts: seq<Attempt>, reopened: Run, now: int)
    requires Kept(run, run') && !End(run).hist.damaged && StoppedAndReopened(run, run', i, attempts, reopened, now)
    ensures var v := View(End(run).disk); View(End(reopened).disk) == Expire(v, DueNow(v, now))
  {
    var v := View(End(run).disk);
    assert {v, v} == {v};
    CrashRefinement(run, run', i, attempts, reopened, now, v, v);
  }

  /** The same for `expire_due`, `next_batch_v2` and opening itself: with a clock that does not go back
      the result does not depend on the stops at all. */
  lemma ExpiryRefines(run: Run, run': Run, t: int, i: nat, attempts: seq<Attempt>, reopened: Run, now: int)
    requires Expires(run, run', t) && StoppedAndReopened(run, run', i, attempts, reopened, now) && t <= now
    ensures var v := View(End(run).disk); View(End(reopened).disk) == Expire(v, DueNow(v, now))
  {
    var v := View(End(run).disk);
    CrashRefinement(run, run', i, attempts, reopened, now, v, Expire(v, DueNow(v, t)));
    ExpireLater(v, t, now);
  }

  /** A stop inside a write leaves the queue as it was; the orphan it leaves makes every later opening
      refuse, whatever steps come between. */
  lemma OrphanRefused(cfg: Config, run: Run)
    requires Legal(cfg, run)
    ensures Legal(cfg, Extend(run, Orphan)) && View(End(Extend(run, Orphan)).disk) == View(End(run).disk)
    ensures End(Extend(run, Orphan)).disk.orphan
  {
    LegalStep(cfg, run, Orphan);
    EndKeeps(cfg, run);
    HousekeepingKeepsView(cfg, End(run), Orphan);
  }

  lemma {:induction false} OrphanStays(cfg: Config, run: Run, i: nat, j: nat)
    requires Legal(cfg, run) && i <= j <= |run.steps| && run.worlds[i].disk.orphan
    ensures run.worlds[j].disk.orphan && !CanReopen(cfg, run.worlds[j].disk)
    decreases j - i
  {
    if i < j {
      OrphanStays(cfg, run, i, j - 1);
      assert Allowed(cfg, run, j - 1);
    }
  }

  /** A receipt that was on disk is what any later state, reopened or not, answers its batch with, as
      long as it was not pruned. */
  lemma ReceiptStays(cfg: Config, run: Run, i: nat, n: nat, st: State)
    requires Legal(cfg, run) && Steady(st, End(run)) && i <= |run.steps| && n in run.worlds[i].disk.receipts
    requires Unpruned(run, i, n)
    ensures var r := run.worlds[i].disk.receipts[n]; r.batchId in st.receipts && st.receipts[r.batchId] == r
  {
    ReceiptRetained(cfg, run, i, |run.steps|, n);
    assert HasReceipt(st, End(run).disk, n);
  }

  /** The receipt was not pruned since, or fewer than 1024 others were written since. */
  ghost predicate Retained(run: Run, i: nat, n: nat)
    requires i <= |run.steps|
  {
    Unpruned(run, i, n) || Written(run, i, |run.steps|) < 1_024
  }

  lemma NewestRetained(cfg: Config, before: Run, st: State, b: BatchId, run: Run, st': State)
    requires Steady(st, End(before)) && Newest(st.receipts, b) && Continues(before, run)
    requires Legal(cfg, run) && Steady(st', End(run)) && Retained(run, |before.steps|, st.receipts[b].sequence)
    ensures b in st'.receipts && st'.receipts[b] == st.receipts[b]
  {
    var i, n := |before.steps|, st.receipts[b].sequence;
    assert run.worlds[i] == End(before);
    assert ReceiptOnDisk(st, End(before).disk, b);
    forall m | m in End(before).disk.receipts ensures m <= n { assert HasReceipt(st, End(before).disk, m); }
    assert Newer(run.worlds[i].disk, n) == {};
    if !Unpruned(run, i, n) { NewestUnpruned(cfg, run, i, n); }
    ReceiptStays(cfg, run, i, n, st');
  }

  /** Exact replay. Whatever happened since, stops and reopenings included, sending an accepted version 2
      acknowledgement again gives the identical result and changes no entry, gap or item of the queue,
      unless its receipt was pruned, for which 1024 others must have been written. */
  lemma ExactReplay(cfg: Config, run: Run, st: State, ack: AckV2, r: Result<AckResultV2>, accepted: set<nat>,
                    run': Run, st': State, later: Run, stl: State,
                    r2: Result<AckResultV2>, accepted2: set<nat>, run2: Run, st2: State)
    requires AnswersNew(cfg, run, st, ack, r, accepted, run', st') && r.Ok? && Steady(st', End(run'))
    requires Continues(run', later) && Legal(cfg, later) && Steady(stl, End(later))
    requires Retained(later, |run'.steps|, st'.receipts[ack.batchId].sequence)
    requires Answers(cfg, later, stl, ack, r2, accepted2, run2, st2)
    ensures r2 == r && Unmoved(later, run2)
    ensures st2.entries == stl.entries && st2.gaps == stl.gaps && SameReceipts(stl, st2)
  {
    NewestRetained(cfg, run', st', ack.batchId, later, stl);
  }

  /** The same for version 1. */
  lemma LegacyExactReplay(cfg: Config, rank: Rank, run: Run, st: State, ack: AckV1, r: Result<AckResultV1>,
                          run': Run, st': State, later: Run, stl: State,
                          r2: Result<AckResultV1>, run2: Run, st2: State)
    requires LegacyAnswersNew(cfg, rank, run, st, ack, r, run', st') && r.Ok? && Steady(st', End(run'))
    requires Continues(run', later) && Legal(cfg, later) && Steady(stl, End(later))
    requires Retained(later, |run'.steps|, st'.receipts[ack.batchId].sequence)
    requires LegacyAnswers(cfg, rank, later, stl, ack, r2, run2, st2)
    ensures r2 == r && Unmoved(later, run2)
    ensures st2.entries == stl.entries && st2.gaps == stl.gaps && SameReceipts(stl, st2)
  {
    NewestRetained(cfg, run', st', ack.batchId, later, stl);
  }

  /** An acknowledgement whose receipt became durable at step `i` gets its answer when it is sent again,
      also if the process stopped before answering the first time. */
  lemma LostAnswer(cfg: Config, run: Run, i: nat, st: State, ack: AckV2,
                   r: Result<AckResultV2>, accepted: set<nat>, run': Run, st': State)
    requires Legal(cfg, run) && Steady(st, End(run)) && i < |run.steps| && run.steps[i].WriteReceipt?
    requires run.steps[i].receipt.batchId == ack.batchId && Remembers(run.steps[i].receipt, ack)
    requires Unpruned(run, i + 1, run.steps[i].receipt.sequence)
    requires Answers(cfg, run, st, ack, r, accepted, run', st')
    ensures r == Ok(AckResultV2(ack.recordIds, ack.gapIds)) && Unmoved(run, run')
  {
    var receipt := run.steps[i].receipt;
    ReceiptWritten(cfg, run, i);
    ReceiptStays(cfg, run, i + 1, receipt.sequence, st);
    RememberedReplays(receipt, ack);
    AnsweredAgain(run, st, ack, receipt, r, run', st');
  }

  lemma ReceiptWritten(cfg: Config, run: Run, i: nat)
    requires Legal(cfg, run) && i < |run.steps| && run.steps[i].WriteReceipt?
    ensures var r := run.steps[i].receipt;
            r.sequence in run.worlds[i + 1].disk.receipts && run.worlds[i + 1].disk.receipts[r.sequence] == r
  {
    assert Allowed(cfg, run, i);
  }

  lemma RememberedReplays(prior: Receipt, ack: AckV2)
    requires Remembers(prior, ack)
    ensures Replays(prior, ack)
  {
  }

  lemma AnsweredAgain(run: Run, st: State, ack: AckV2, prior: Receipt, r: Result<AckResultV2>, run': Run, st': State)
    requires ack.batchId in st.receipts && st.receipts[ack.batchId] == prior && Replays(prior, ack)
    requires AnswersAgain(run, st, ack, r, run', st')
    ensures r == Ok(AckResultV2(prior.stableIds, prior.gapIds)) && Unmoved(run, run')
  {
  }

  // ---------------------------------------------------------------------------
  // What agreement means
  // ---------------------------------------------------------------------------

  /** Index agreement. Between operations on an unaltered directory the stable index is the inverse of
      the entries, the byte totals are the sums over the files, every entry and gap has a number of its
      own below the next one, and only pending numbers are counted. */
  lemma IndexAgreement(cfg: Config, run: Run, st: State, a: RecordId, b: RecordId)
    requires Legal(cfg, run) && Steady(st, End(run)) && !End(run).hist.damaged
    ensures a in st.entries ==>
              && st.entries[a].stableId in st.stableIndex && st.stableIndex[st.entries[a].stableId] == a
              && 1 <= st.entries[a].spoolSeq < st.next
    ensures a in st.stableIndex ==> st.stableIndex[a] in st.entries && st.entries[st.stableIndex[a]].stableId == a
    ensures a in st.entries && b in st.entries && a != b ==> st.entries[a].spoolSeq != st.entries[b].spoolSeq
    ensures a in st.gaps && b in st.gaps && a != b ==> st.gaps[a].spoolSeq != st.gaps[b].spoolSeq
    ensures a in st.entries && b in st.gaps ==> st.entries[a].spoolSeq != st.gaps[b].spoolSeq
    ensures b in st.gaps ==> 1 <= st.gaps[b].spoolSeq < st.next
    ensures st.pendingBytes == Total(PendingSizes(End(run).disk.pending))
    ensures st.gapBytes == Total(GapSizes(End(run).disk.gaps))
    ensures st.counted.Keys <= End(run).disk.pending.Keys && st.expiredRecords == |End(run).hist.expired|
  {
    var w := End(run);
    assert Indexed(st, a) && EntryOnDisk(st, w, a) && EntryOnDisk(st, w, b);
    assert GapOnDisk(st, w.disk, a) && GapOnDisk(st, w.disk, b);
    if a in st.entries { FateAt(cfg, run, st.entries[a].spoolSeq); }
    if b in st.gaps { FateAt(cfg, run, st.gaps[b].spoolSeq); }
    ExactlyOnceExpiry(cfg, run, |run.steps|);
  }

  /** Housekeeping leaves the batch and its identifier as they were, and so does a reopening or an expiry
      at which nothing is due. */
  lemma BatchSurvives(cfg: Config, before: Run, after: Run, now: int, a: BatchV2, b: BatchV2)
    requires !End(before).hist.damaged
    requires Kept(before, after) || (Expires(before, after, now) && DueNow(View(End(before).disk), now) == {})
    requires IsBatch(cfg, View(End(before).disk), a) && IsBatch(cfg, View(End(after).disk), b)
    ensures a == b
  {
    var v := View(End(before).disk);
    assert Expire(v, {}) == v;
    BatchIsUnique(cfg, v, a, b);
  }

  /** A deferred gap is the physical one. Writing the gap file of a counted expiry leaves the item, the
      batch and what every acknowledgement accepts as they were; before and after it, accepting the gap
      removes the same occurrence, by its pending file before and by its gap file after. */
  lemma DeferredIsPhysical(cfg: Config, run: Run, s: nat, n: GapNotice, ack: AckV2, accepted: set<nat>, r: Receipt)
    requires Legal(cfg, run) && !End(run).hist.damaged && MayWriteGap(cfg, End(run), s, n) && n.reason.RetentionExpired?
    ensures var d, d' := End(run).disk, Apply(End(run), WriteGap(s, n)).disk;
            && s in View(d) && View(d)[s] == Gap(n) && View(d') == View(d)
            && (Acknowledges(cfg, View(d), ack, accepted) <==> Acknowledges(cfg, View(d'), ack, accepted))
            && (AcceptsLive(d, r) <==> AcceptsLive(d', r))
            && (AcceptsLive(d, r) && n.noticeId in r.gapIds ==> s in ReceiptSeqs(r) && s in d.pending && s in d'.gaps)
  {
    FateAt(cfg, run, s);
    KeepsView(cfg, run, WriteGap(s, n));
    ItemOf(End(run), s);
  }

  // ---------------------------------------------------------------------------
  // The acknowledgement that accepts nothing
  // ---------------------------------------------------------------------------

  /** What `acknowledge_v2` answers, by its contract. */
  ghost predicate Answers(cfg: Config, run: Run, st: State, ack: AckV2, r: Result<AckResultV2>,
                          accepted: set<nat>, run': Run, st': State) {
    if ack.batchId in st.receipts then AnswersAgain(run, st, ack, r, run', st')
        else AnswersNew(cfg, run, st, ack, r, accepted, run', st')
  }

  /** What `acknowledge` answers, by its contract. */
  ghost predicate LegacyAnswers(cfg: Config, rank: Rank, run: Run, st: State, ack: AckV1, r: Result<AckResultV1>,
                                run': Run, st': State) {
    if ack.batchId in st.receipts then LegacyAnswersAgain(run, st, ack, r, run', st')
        else LegacyAnswersNew(cfg, rank, run, st, ack, r, run', st')
  }

  /** No receipt of the past names a batch that starts after an item still in the queue. */
  lemma NoReceiptAhead(cfg: Config, run: Run, st: State, s: nat, b: BatchId)
    requires Legal(cfg, run) && Steady(st, End(run)) && s in View(End(run).disk)
    requires b.BatchV2Digest? && b.items != [] && s < b.items[0].spoolSeq
    ensures b !in st.receipts
  {
    Conservation(cfg, run, |run.steps|, s);
    FateAt(cfg, run, s);
    if b in st.receipts {
      assert ReceiptOnDisk(st, End(run).disk, b);
      ReceiptsNameFirst(cfg, run, |run.steps|, st.receipts[b].sequence);
    }
  }

  /** After an accepted acknowledgement, one that accepts something of the then current batch is accepted
      if and only if the first one named an identifier. Otherwise it is refused, since the empty receipt
      answers for the batch. */
  lemma RestIsAccepted(cfg: Config, run: Run, st: State, ack: AckV2, r: Result<AckResultV2>,
                       accepted: set<nat>, run': Run, st': State,
                       more: AckV2, others: set<nat>, r2: Result<AckResultV2>, accepted2: set<nat>,
                       run2: Run, st2: State)
    requires Legal(cfg, run) && Steady(st, End(run))
    requires ack.batchId !in st.receipts && r.Ok? && AnswersNew(cfg, run, st, ack, r, accepted, run', st')
    requires Acknowledges(cfg, View(End(run').disk), more, others) && !NamesNothing(more)
    requires Answers(cfg, run', st', more, r2, accepted2, run2, st2)
    ensures r2.Ok? <==> !NamesNothing(ack) && st'.nextReceipt < U64_MAX
  {
    if NamesNothing(ack) {
      StillCurrent(cfg, View(End(run).disk), ack, accepted, more, others);
      EmptyReceiptRefuses(st'.receipts[ack.batchId], ack, more);
    } else {
      NotAnsweredYet(cfg, run, st, ack, accepted, st'.receipts, more, others);
    }
  }

  /** And it stays refused as long as the receipt is retained: after an acknowledgement that named nothing,
      every acknowledgement with the same batch identifier that names something is refused. */
  lemma StaysRefused(cfg: Config, run: Run, st: State, ack: AckV2, r: Result<AckResultV2>, accepted: set<nat>,
                     run': Run, st': State, later: Run, stl: State,
                     more: AckV2, r2: Result<AckResultV2>, accepted2: set<nat>, run2: Run, st2: State)
    requires AnswersNew(cfg, run, st, ack, r, accepted, run', st') && r.Ok? && Steady(st', End(run'))
    requires Continues(run', later) && Legal(cfg, later) && Steady(stl, End(later))
    requires Retained(later, |run'.steps|, st'.receipts[ack.batchId].sequence)
    requires NamesNothing(ack) && more.batchId == ack.batchId && !NamesNothing(more)
    requires Answers(cfg, later, stl, more, r2, accepted2, run2, st2)
    ensures r2 == Err(InvalidAcknowledgement) && Unmoved(later, run2)
  {
    NewestRetained(cfg, run', st', ack.batchId, later, stl);
    EmptyReceiptRefuses(stl.receipts[ack.batchId], ack, more);
  }

  /** The next batch has no receipt yet if something was accepted. */
  lemma NotAnsweredYet(cfg: Config, run: Run, st: State, ack: AckV2, accepted: set<nat>,
                       receipts: map<BatchId, Receipt>, more: AckV2, others: set<nat>)
    requires Legal(cfg, run) && Steady(st, End(run)) && OnlyNew(st.receipts, receipts, ack.batchId)
    requires Acknowledges(cfg, View(End(run).disk), ack, accepted) && !NamesNothing(ack)
    requires Acknowledges(cfg, View(End(run).disk) - accepted, more, others) && !NamesNothing(more)
    ensures more.batchId !in receipts
  {
    var first := NextStartsLater(cfg, View(End(run).disk), ack, accepted, more, others);
    NoReceiptAhead(cfg, run, st, first, more.batchId);
  }

  lemma StillCurrent(cfg: Config, v: map<nat, Item>, ack: AckV2, accepted: set<nat>, more: AckV2, others: set<nat>)
    requires Acknowledges(cfg, v, ack, accepted) && NamesNothing(ack) && Acknowledges(cfg, v - accepted, more, others)
    ensures more.batchId == ack.batchId
  {
    var ys, j: nat, c, n: nat :| AcknowledgesFirst(cfg, v - accepted, more, others, ys, j, c, n);
    assert IsBatch(cfg, v - accepted, c);
    BatchMovesOn(cfg, v, ack, accepted, c);
  }

  /** Version 1 has the same defect: after an accepted acknowledgement that named nothing the batch keeps
      its identifier, and every acknowledgement of it that names a record is refused. One that named a
      record leaves a batch with another identifier. */
  lemma LegacyRestIsRefused(cfg: Config, rank: Rank, run: Run, st: State, ack: AckV1, r: Result<AckResultV1>,
                            run': Run, st': State,
                            next: BatchV1, more: AckV1, r2: Result<AckResultV1>, run2: Run, st2: State)
    requires Legal(cfg, run) && Legal(cfg, run') && Steady(st, End(run)) && Steady(st', End(run'))
    requires !End(run').hist.damaged
    requires LegacyAnswersNew(cfg, rank, run, st, ack, r, run', st') && r.Ok?
    requires IsLegacyBatch(cfg, rank, End(run'), next) && more.batchId == next.batchId && more.recordIds != []
    ensures more.batchId == ack.batchId <==> ack.recordIds == []
    ensures ack.recordIds == [] && LegacyAnswersAgain(run', st', more, r2, run2, st2) ==>
              r2 == Err(InvalidAcknowledgement)
  {
    var b :| LegacyAcknowledges(cfg, rank, End(run), ack, b);
    LegacyPendingAfter(cfg, rank, run, st, run', st', b, next, NamedBy(End(run), ack.recordIds));
    IntactPending(cfg, run');
    LegacyBatchMovesOn(cfg, rank, End(run), ack, b, End(run'), next);
  }

  /** A version 1 batch identifier has a receipt exactly if version 1 acknowledged it, while the history is
      not pruned. */
  lemma ReceiptMeansAcknowledged(cfg: Config, run: Run, st: State, b: BatchId)
    requires Legal(cfg, run) && Steady(st, End(run)) && b.BatchV1Digest? && !st.v1Pruned
    ensures b in st.receipts <==> b in End(run).hist.v1Batches
  {
    if b in End(run).hist.v1Batches { RememberedBatch(cfg, run, st, b); }
    if b in st.receipts {
      assert ReceiptOnDisk(st, End(run).disk, b);
      ReceiptIsRemembered(cfg, run, |run.steps|, st.receipts[b].sequence);
    }
  }

  /** An acknowledgement that names records of the current batch names items of the queue. */
  lemma NamedIsInQueue(cfg: Config, rank: Rank, st: State, w: World, ack: AckV1, b: BatchV1) returns (s: nat)
    requires Steady(st, w) && LegacyAcknowledges(cfg, rank, w, ack, b) && ack.recordIds != []
    ensures s in NamedBy(w, ack.recordIds) && s in View(w.disk)
  {
    assert ack.recordIds[0] in Members(ack.recordIds);
    DeliveredIsLive(cfg, rank, st, w, b, ack.recordIds[0]);
    s := st.entries[ack.recordIds[0]].spoolSeq;
    assert EntryOnDisk(st, w, ack.recordIds[0]);
  }

  /** When a version 1 acknowledgement that names records of the current batch removes them: exactly if
      version 1 never acknowledged the batch identifier before and the history was never pruned. Otherwise
      it removes nothing, even where it is answered by Ok. */
  lemma LegacyTakesEffect(cfg: Config, rank: Rank, run: Run, st: State, ack: AckV1, b: BatchV1,
                          r: Result<AckResultV1>, run': Run, st': State)
    requires Legal(cfg, run) && Steady(st, End(run)) && !End(run).hist.damaged
    requires LegacyAcknowledges(cfg, rank, End(run), ack, b) && ack.recordIds != []
    requires LegacyAnswers(cfg, rank, run, st, ack, r, run', st')
    ensures var v, fit := View(End(run).disk), !st.v1Pruned && st.nextReceipt < U64_MAX;
            && (View(End(run').disk) == v - NamedBy(End(run), ack.recordIds) <==> fit && ack.batchId !in st.receipts)
            && (View(End(run').disk) != v <==> fit && ack.batchId !in st.receipts)
            && (View(End(run').disk) != v <==> fit && ack.batchId !in End(run).hist.v1Batches)
            && (View(End(run').disk) != v ==> forall s :: s in View(End(run').disk) <==>
                                                s in v && v[s].Record? && v[s].stored.recordId !in ack.recordIds)
  {
    var s := NamedIsInQueue(cfg, rank, st, End(run), ack, b);
    BatchHoldsRecords(cfg, run, rank, st, b);
    if !st.v1Pruned { ReceiptMeansAcknowledged(cfg, run, st, ack.batchId); }
    if ack.batchId !in st.receipts { NewIsAccepted(cfg, rank, run, st, ack, b, r, run', st'); }
    Loss(View(End(run).disk), NamedBy(End(run), ack.recordIds), s);
    NamedAre(cfg, run, st, ack.recordIds);
  }

  /** Naming record ids names the items with these identifiers. */
  lemma NamedAre(cfg: Config, run: Run, st: State, ids: seq<RecordId>)
    requires Legal(cfg, run) && Steady(st, End(run)) && !End(run).hist.damaged && OnlyRecords(View(End(run).disk))
    ensures forall s :: s in View(End(run).disk) ==>
              (s in NamedBy(End(run), ids) <==> View(End(run).disk)[s].stored.recordId in ids)
  {
    SteadyKeys(st, End(run));
    forall s | s in View(End(run).disk)
      ensures s in NamedBy(End(run), ids) <==> View(End(run).disk)[s].stored.recordId in ids
    {
      FateAt(cfg, run, s);
    }
  }

  lemma Loss(v: map<nat, Item>, named: set<nat>, s: nat)
    requires s in named && s in v
    ensures v - named != v
  {
    assert s !in v - named;
  }

  /** A new acknowledgement of the current batch is accepted unless the history was pruned. */
  lemma NewIsAccepted(cfg: Config, rank: Rank, run: Run, st: State, ack: AckV1, b: BatchV1,
                      r: Result<AckResultV1>, run': Run, st': State)
    requires LegacyAcknowledges(cfg, rank, End(run), ack, b) && OnlyRecords(View(End(run).disk))
    requires LegacyAnswersNew(cfg, rank, run, st, ack, r, run', st') && !End(run).hist.damaged
    ensures r.Ok? <==> !st.v1Pruned && st.nextReceipt < U64_MAX
    ensures View(End(run').disk) ==
            if r.Ok? then View(End(run).disk) - NamedBy(End(run), ack.recordIds) else View(End(run).disk)
  {
  }

  lemma BatchHoldsRecords(cfg: Config, run: Run, rank: Rank, st: State, b: BatchV1)
    requires Legal(cfg, run) && Steady(st, End(run)) && !End(run).hist.damaged
    requires IsLegacyBatch(cfg, rank, End(run), b)
    ensures OnlyRecords(View(End(run).disk)) && b.batchId.BatchV1Digest?
  {
    var xs, k: nat :| LegacyBatchHolds(cfg, rank, End(run), xs, k, b);
    IntactPending(cfg, run);
    RecordsAlone(End(run).disk);
  }

  lemma RecordsAlone(d: Disk)
    requires d.gaps == map[] && d.pending.Keys !! Ledger(d).counted.Keys
    requires forall s :: s in d.pending ==> d.pending[s].contents.Intact?
    ensures OnlyRecords(View(d))
  {
  }

  /** A version 1 acknowledgement that named nothing blocks its batch as long as its receipt is retained. */
  lemma LegacyStaysRefused(cfg: Config, rank: Rank, run: Run, st: State, ack: AckV1, r: Result<AckResultV1>,
                           run': Run, st': State, later: Run, stl: State,
                           more: AckV1, r2: Result<AckResultV1>, run2: Run, st2: State)
    requires LegacyAnswersNew(cfg, rank, run, st, ack, r, run', st') && r.Ok? && Steady(st', End(run'))
    requires Continues(run', later) && Legal(cfg, later) && Steady(stl, End(later))
    requires Retained(later, |run'.steps|, st'.receipts[ack.batchId].sequence)
    requires ack.recordIds == [] && more.batchId == ack.batchId && more.recordIds != []
    requires LegacyAnswers(cfg, rank, later, stl, more, r2, run2, st2)
    ensures r2 == Err(InvalidAcknowledgement) && Unmoved(later, run2)
  {
    NewestRetained(cfg, run', st', ack.batchId, later, stl);
  }

  lemma IntactPending(cfg: Config, run: Run)
    requires Legal(cfg, run) && !End(run).hist.damaged
    ensures AllIntact(End(run))
  {
    var w := End(run);
    forall s | s in w.disk.pending
      ensures s in w.hist.admitted && w.disk.pending[s].contents == Intact(w.hist.admitted[s])
    {
      FateAt(cfg, run, s);
    }
  }

  /** Without gaps the queue holds exactly the pending numbers. */
  lemma LegacyPendingAfter(cfg: Config, rank: Rank, run: Run, st: State, run': Run, st': State, b: BatchV1,
                           next: BatchV1, named: set<nat>)
    requires Steady(st, End(run)) && Steady(st', End(run')) && Loses(run, run', named)
    requires IsLegacyBatch(cfg, rank, End(run), b) && IsLegacyBatch(cfg, rank, End(run'), next)
    ensures End(run').disk.pending.Keys == End(run).disk.pending.Keys - named
  {
    SteadyKeys(st, End(run));
    SteadyKeys(st', End(run'));
    KeysWithout(View(End(run).disk), named);
    OnlyPending(End(run).disk);
    OnlyPending(End(run').disk);
  }

  lemma KeysWithout<V>(m: map<nat, V>, s: set<nat>)
    ensures (m - s).Keys == m.Keys - s
  {
  }

  lemma OnlyPending(d: Disk)
    requires d.gaps == map[]
    ensures Files(d) == d.pending.Keys
  {
  }
}
