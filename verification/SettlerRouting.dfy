/** The settler's polls and the settlement tables: a poll that reads the intents table is a run of
    settlement steps, so what holds of those steps holds of the jobs that polls queue. */
module SettlerRouting {
  import opened JsMap
  import opened Netting
  import opened Settlement
  import opened SettlementProofs
  import opened SettlementPaths
  import Settler

  /** Both hold the same batches, and jobs for the same matches. */
  ghost predicate Agrees(t: Tables, db: Settler.Db) {
    && Settler.DistinctBatches(db.batches)
    && (forall k | 0 <= k < |db.batches| ::
          db.batches[k].batchId in t.mpc.batches && t.mpc.batches[db.batches[k].batchId] == db.batches[k].matches)
    && (forall k, i | 0 <= k < |db.batches| && 0 <= i < |db.batches[k].matches| :: SameJob(t, db, k, i))
  }

  ghost predicate SameJob(t: Tables, db: Settler.Db, k: nat, i: nat)
    requires k < |db.batches|
  {
    var id := db.batches[k].batchId; MatchRef(id, i) in t.mpc.jobs <==> Has(db.jobs, Settler.IdempotencyKey(id, i))
  }

  /** The answers for a batch are those of the intents table. */
  ghost predicate Reads(a: Settler.Answers, t: Tables, b: Settler.BatchRow) {
    forall i | 0 <= i < |b.matches| ::
      && (a(b.batchId, i).routedA <==> b.matches[i].intentA in t.rfq.intents)
      && (a(b.batchId, i).routedB <==> b.matches[i].intentB in t.rfq.intents)
  }

  ghost predicate ReadsAll(a: Settler.Answers, t: Tables, db: Settler.Db) {
    forall k | 0 <= k < |db.batches| :: Reads(a, t, db.batches[k])
  }

  ghost predicate BothRowless(t: Tables, r: MatchRef)
    requires IsMatch(t.mpc, r)
  {
    MatchAt(t.mpc, r).intentA !in t.rfq.intents && MatchAt(t.mpc, r).intentB !in t.rfq.intents
  }

  ghost function WithJobs(t: Tables, jobs: map<MatchRef, MatchResult>): Tables {
    t.(mpc := t.mpc.(jobs := jobs))
  }

  /** Taking up a match, looking up its sides and queueing its job unless a lookup finds a row. */
  lemma {:induction false} MatchRun(R: Reach, t: Tables, r: MatchRef) returns (u: Tables)
    requires Reaches(R) && t.memory.settler.Idle? && IsMatch(t.mpc, r)
    ensures R(t, u)
    ensures u == WithJobs(t, if BothRowless(t, r) then EnqueueJob(t.mpc, r).jobs else t.mpc.jobs)
  {
    var t1 := Next(t, TakeUpStep(r));
    var t2 := Next(t1, LookUpStep(false));
    if MatchAt(t.mpc, r).intentA in t.rfq.intents {
      u := t2;
      assert u == t;
    } else {
      u := SecondLook(R, t, t2, r);
    }
    First(R, t1, LookUpStep(false), t2, u);
    First(R, t, TakeUpStep(r), t1, u);
  }

  lemma {:induction false} SecondLook(R: Reach, t: Tables, t2: Tables, r: MatchRef) returns (u: Tables)
    requires Reaches(R) && t.memory.settler.Idle? && IsMatch(t.mpc, r)
    requires MatchAt(t.mpc, r).intentA !in t.rfq.intents
    requires t2 == t.(memory := t.memory.(settler := Looking(r, true, false)))
    ensures R(t2, u)
    ensures u == WithJobs(t, if BothRowless(t, r) then EnqueueJob(t.mpc, r).jobs else t.mpc.jobs)
  {
    var t3 := Next(t2, LookUpStep(true));
    if MatchAt(t.mpc, r).intentB in t.rfq.intents {
      u := t3;
      assert u == t;
    } else {
      u := Next(t3, EnqueueStep);
      First(R, t3, EnqueueStep, u, u);
    }
    First(R, t2, LookUpStep(true), t3, u);
  }

  /** A job for the match was there, or the match is one of the first n of the batch with no row. */
  ghost predicate QueuedBy(t: Tables, b: Settler.BatchRow, n: nat, r: MatchRef) {
    || r in t.mpc.jobs
    || (r.batchId == b.batchId && r.i < n && IsMatch(t.mpc, r) && BothRowless(t, r))
  }

  lemma {:induction false} MatchesRun(R: Reach, t: Tables, b: Settler.BatchRow, n: nat) returns (u: Tables)
    requires Reaches(R) && t.memory.settler.Idle? && n <= |b.matches|
    requires b.batchId in t.mpc.batches && t.mpc.batches[b.batchId] == b.matches
    ensures R(t, u) && u == WithJobs(t, u.mpc.jobs) && forall r :: r in u.mpc.jobs <==> QueuedBy(t, b, n, r)
  {
    if n == 0 {
      u := t;
    } else {
      var v := MatchesRun(R, t, b, n - 1);
      var last := MatchRef(b.batchId, n - 1);
      u := MatchRun(R, v, last);
      assert BothRowless(v, last) <==> BothRowless(t, last);
      forall r ensures r in u.mpc.jobs <==> QueuedBy(t, b, n, r) {
        assert r in u.mpc.jobs <==> r in v.mpc.jobs || (r == last && BothRowless(t, last));
        assert r in v.mpc.jobs <==> QueuedBy(t, b, n - 1, r);
      }
    }
  }

  /** One batch of a poll is a run. */
  lemma {:induction false} BatchRun(
    R: Reach, t: Tables, a: Settler.Answers, db: Settler.Db, slot: nat, dies: Option<nat>) returns (u: Tables)
    requires Reaches(R) && t.memory.settler.Idle? && Agrees(t, db) && ReadsAll(a, t, db) && slot < |db.batches|
    ensures R(t, u) && u == WithJobs(t, u.mpc.jobs) && Agrees(u, Settler.QueueBatch(a, db, slot, dies))
  {
    var b, db' := db.batches[slot], Settler.QueueBatch(a, db, slot, dies);
    var n := Settler.Upto(b, dies);
    Settler.QueueBatchAfter(a, db, slot, dies);
    u := MatchesRun(R, t, b, n);
    forall k, i | 0 <= k < |db'.batches| && 0 <= i < |db'.batches[k].matches| ensures SameJob(u, db', k, i) {
      assert SameJob(t, db, k, i);
      if k == slot { OwnSame(t, u, a, db, slot, dies, i); } else { OtherSame(t, u, a, db, slot, dies, k, i); }
    }
  }

  lemma {:induction false} OwnSame(
    t: Tables, u: Tables, a: Settler.Answers, db: Settler.Db, slot: nat, dies: Option<nat>, i: nat)
    requires Agrees(t, db) && slot < |db.batches| && i < |db.batches[slot].matches| && Reads(a, t, db.batches[slot])
    requires SameJob(t, db, slot, i)
    requires var b := db.batches[slot];
             forall r :: r in u.mpc.jobs <==> QueuedBy(t, b, Settler.Upto(b, dies), r)
    ensures SameJob(u, Settler.QueueBatch(a, db, slot, dies), slot, i)
  {
    var b, db' := db.batches[slot], Settler.QueueBatch(a, db, slot, dies);
    var r, key := MatchRef(b.batchId, i), Settler.IdempotencyKey(b.batchId, i);
    Settler.OwnJobAfter(a, db, slot, dies, i);
    Settler.QueueBatchAfter(a, db, slot, dies);
    Settler.FindHas(db.jobs, key);
    Settler.FindHas(db'.jobs, key);
    assert r in u.mpc.jobs <==> QueuedBy(t, b, Settler.Upto(b, dies), r);
  }

  lemma {:induction false} OtherSame(
    t: Tables, u: Tables, a: Settler.Answers, db: Settler.Db, slot: nat, dies: Option<nat>, k: nat, i: nat)
    requires Agrees(t, db) && slot < |db.batches| && k < |db.batches| && k != slot && i < |db.batches[k].matches|
    requires SameJob(t, db, k, i)
    requires var b := db.batches[slot];
             forall r :: r in u.mpc.jobs <==> QueuedBy(t, b, Settler.Upto(b, dies), r)
    ensures SameJob(u, Settler.QueueBatch(a, db, slot, dies), k, i)
  {
    var id, db' := db.batches[k].batchId, Settler.QueueBatch(a, db, slot, dies);
    var key := Settler.IdempotencyKey(id, i);
    Settler.OtherJobAfter(a, db, slot, dies, k, i);
    Settler.QueueBatchAfter(a, db, slot, dies);
    Settler.FindHas(db.jobs, key);
    Settler.FindHas(db'.jobs, key);
    assert id != db.batches[slot].batchId;
    assert MatchRef(id, i) in u.mpc.jobs <==> MatchRef(id, i) in t.mpc.jobs;
  }

  lemma {:induction false} SlotsRun(
    R: Reach, t: Tables, a: Settler.Answers, db: Settler.Db, slots: seq<nat>, death: Option<Settler.Death>)
    returns (u: Tables)
    requires Reaches(R) && t.memory.settler.Idle? && Agrees(t, db) && ReadsAll(a, t, db) && Settler.GoodSlots(db, slots)
    ensures R(t, u) && u == WithJobs(t, u.mpc.jobs) && Agrees(u, Settler.PollSlots(a, db, slots, death))
    decreases |slots|
  {
    if slots == [] {
      u := t;
    } else if Settler.DiesNow(death) {
      u := BatchRun(R, t, a, db, slots[0], Some(death.value.matches));
    } else {
      var v := BatchRun(R, t, a, db, slots[0], None);
      var db1 := Settler.QueueBatch(a, db, slots[0], None);
      Settler.PollRest(a, db, slots, death);
      Settler.QueueBatchAfter(a, db, slots[0], None);
      forall k | 0 <= k < |db1.batches| ensures Reads(a, v, db1.batches[k]) { assert Reads(a, t, db.batches[k]); }
      u := SlotsRun(R, v, a, db1, slots[1..], Settler.Later(death));
      assert R(v, u);
    }
  }

  /** A poll that reads the intents table, wherever it dies, is a run of settlement steps that keeps both
      guards, changes nothing but the jobs, and queues the same ones. */
  lemma {:induction false} PollIsARun(t: Tables, a: Settler.Answers, db: Settler.Db, death: Option<Settler.Death>)
    returns (u: Tables)
    requires t.memory.settler.Idle? && Agrees(t, db) && ReadsAll(a, t, db)
    ensures Leads(t, u) && u == WithJobs(t, u.mpc.jobs) && Agrees(u, Settler.Poll(a, db, death))
  {
    ghost var R := (t, u) => Leads(t, u);
    GuardedRunsReach();
    var slots := Settler.PendingSlots(db.batches, 0, Settler.POLL_LIMIT);
    Settler.PendingSlotsDistinct(db.batches, 0, Settler.POLL_LIMIT);
    assert forall j, l | 0 <= j < l < |slots| :: slots[j] < slots[l];
    u := SlotsRun(R, t, a, db, slots, death);
  }

  lemma {:induction false} GuardedLeads(steps: seq<Step>)
    requires Guarded(steps)
    ensures Leads(EMPTY, Reached(EMPTY, steps))
  {
    assert GuardedFrom(EMPTY, steps);
  }

  lemma {:induction false} LeadsExcludes(u: Tables, id: string)
    requires Leads(EMPTY, u)
    ensures !SettledTwice(u, id)
  {
    var steps :| GuardedFrom(EMPTY, steps) && Reached(EMPTY, steps) == u;
    assert Guarded(steps);
    PathsExcludeEachOther(steps, id);
  }

  /** With both guards kept, no side of a match that a poll has queued is ever settled by the RFQ
      lifecycle, before the poll or after it. */
  lemma {:induction false} QueuedIsNeverSettled(
    steps: seq<Step>, a: Settler.Answers, db: Settler.Db, death: Option<Settler.Death>, k: nat, i: nat)
    returns (u: Tables)
    requires var t := Reached(EMPTY, steps);
             Guarded(steps) && t.memory.settler.Idle? && Agrees(t, db) && ReadsAll(a, t, db)
    requires k < |db.batches| && i < |db.batches[k].matches|
    requires Has(Settler.Poll(a, db, death).jobs, Settler.IdempotencyKey(db.batches[k].batchId, i))
    ensures Leads(Reached(EMPTY, steps), u) && Agrees(u, Settler.Poll(a, db, death))
    ensures forall v, id | Leads(u, v) && Names(db.batches[k].matches[i], id) :: !HasSettlement(v.rfq, id)
  {
    var t := Reached(EMPTY, steps);
    u := PollIsARun(t, a, db, death);
    GuardedLeads(steps);
    Chain(EMPTY, t, u);
    Settler.PollStatusExact(a, db, death, k);
    var r := MatchRef(db.batches[k].batchId, i);
    assert SameJob(u, Settler.Poll(a, db, death), k, i);
    forall v, id | Leads(u, v) && Names(db.batches[k].matches[i], id) ensures !HasSettlement(v.rfq, id) {
      QueuedHasJob(u, r, id);
      LeadsOn(u, v);
      JobStays(u, v, id);
      Chain(EMPTY, u, v);
      LeadsExcludes(v, id);
    }
  }

  lemma {:induction false} QueuedHasJob(u: Tables, r: MatchRef, id: string)
    requires Leads(EMPTY, u) && r in u.mpc.jobs && IsMatch(u.mpc, r) && Names(MatchAt(u.mpc, r), id)
    ensures HasJob(u.mpc, id)
  {
    assert Grounded(EMPTY);
    LeadsOn(EMPTY, u);
  }
}
