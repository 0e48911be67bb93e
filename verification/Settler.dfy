/** The settler: polls signed batches that are still pending and queues one settlement job per match
    that does not belong to the RFQ lifecycle. A poll may die anywhere before a status update. */
module Settler {
  import opened JsMap
  import opened Netting
  import Decimal

  datatype SettlementStatus = Pending | Queued | RfqRouted

  datatype BatchRow = BatchRow(batchId: string, sessionId: string, matches: seq<MatchResult>, status: SettlementStatus)

  datatype Note = Note(nullifier: string, recipientCommitment: string)

  datatype Job = Job(
    batchId: string, sessionId: string, matchIndex: nat, match_: MatchResult, noteA: Option<Note>, noteB: Option<Note>)

  /** What the settler reads when it comes to a match: whether its sides have an RFQ intent row, and
      their notes. */
  datatype Look = Look(routedA: bool, routedB: bool, noteA: Option<Note>, noteB: Option<Note>)

  /** What a poll reads for match i of a batch; other polls may read something else. */
  type Answers = (string, nat) -> Look

  /** Batches in order of creation, and jobs by idempotency key. */
  datatype Db = Db(batches: seq<BatchRow>, jobs: OrderedMap<string, Job>)

  const POLL_LIMIT := 50

  function IdempotencyKey(batchId: string, i: nat): string {
    "mpc_settle:" + batchId + ":" + Decimal.ToString(i)
  }

  /** A match with an RFQ-routed side is skipped. */
  predicate Queues(a: Answers, b: BatchRow, i: nat) {
    !a(b.batchId, i).routedA && !a(b.batchId, i).routedB
  }

  function JobFor(a: Answers, b: BatchRow, i: nat): Job
    requires i < |b.matches|
  {
    Job(b.batchId, b.sessionId, i, b.matches[i], a(b.batchId, i).noteA, a(b.batchId, i).noteB)
  }

  /** A job already queued under the key is left alone. */
  function Enqueue(jobs: OrderedMap<string, Job>, key: string, job: Job): OrderedMap<string, Job> {
    if Has(jobs, key) then jobs else jobs + [(key, job)]
  }

  /** The jobs after the first n matches of a batch. */
  function QueueMatches(a: Answers, b: BatchRow, n: nat, jobs: OrderedMap<string, Job>): OrderedMap<string, Job>
    requires n <= |b.matches|
  {
    if n == 0 then jobs
    else
      var done := QueueMatches(a, b, n - 1, jobs);
      if Queues(a, b, n - 1) then Enqueue(done, IdempotencyKey(b.batchId, n - 1), JobFor(a, b, n - 1)) else done
  }

  function NewStatus(a: Answers, b: BatchRow): SettlementStatus {
    if exists i | 0 <= i < |b.matches| :: Queues(a, b, i) then Queued else RfqRouted
  }

  /** One batch of a poll; `dies` tells after how many matches the poll dies, if it does. */
  function QueueBatch(a: Answers, db: Db, slot: nat, dies: Option<nat>): Db
    requires slot < |db.batches|
  {
    var b := db.batches[slot];
    match dies
    case Some(n) => db.(jobs := QueueMatches(a, b, if n < |b.matches| then n else |b.matches|, db.jobs))
    case None => Db(db.batches[slot := b.(status := NewStatus(a, b))], QueueMatches(a, b, |b.matches|, db.jobs))
  }

  /** The oldest pending batches, at most `limit`. */
  function PendingSlots(batches: seq<BatchRow>, from: nat, limit: nat): (slots: seq<nat>)
    requires from <= |batches|
    ensures |slots| <= limit
    ensures forall i | 0 <= i < |slots| :: from <= slots[i] < |batches| && batches[slots[i]].status == Pending
    decreases |batches| - from
  {
    if from == |batches| || limit == 0 then []
    else if batches[from].status == Pending then [from] + PendingSlots(batches, from + 1, limit - 1)
    else PendingSlots(batches, from + 1, limit)
  }

  /** Where a poll dies: at which of its batches, and after how many of that batch's matches. */
  datatype Death = Death(batch: nat, matches: nat)

  function PollSlots(a: Answers, db: Db, slots: seq<nat>, death: Option<Death>): Db
    requires forall i | 0 <= i < |slots| :: slots[i] < |db.batches|
    decreases |slots|
  {
    if slots == [] then db
    else if death.Some? && death.value.batch == 0 then QueueBatch(a, db, slots[0], Some(death.value.matches))
    else
      PollSlots(a, QueueBatch(a, db, slots[0], None), slots[1..],
                if death.Some? then Some(Death(death.value.batch - 1, death.value.matches)) else None)
  }

  function Poll(a: Answers, db: Db, death: Option<Death>): Db {
    PollSlots(a, db, PendingSlots(db.batches, 0, POLL_LIMIT), death)
  }

  /** A newly signed batch arrives pending, under a batch id not used before. */
  function Persist(db: Db, b: BatchRow): Db {
    db.(batches := db.batches + [b.(status := Pending)])
  }

  // ---------- the loops ----------

  class SettlerTables {
    var batches: seq<BatchRow>
    var jobs: OrderedMap<string, Job>

    ghost function View(): Db
      reads this
    {
      Db(batches, jobs)
    }

    method QueueSettlementJobs(a: Answers, slot: nat, dies: Option<nat>)
      requires slot < |batches|
      modifies this
      ensures View() == QueueBatch(a, old(View()), slot, dies)
    {
      var b := batches[slot];
      var queued, skipped := 0, 0;
      for i := 0 to |b.matches|
        invariant jobs == QueueMatches(a, b, i, old(jobs)) && batches == old(batches)
        invariant queued + skipped == i
        invariant queued > 0 <==> exists j | 0 <= j < i :: Queues(a, b, j)
        invariant dies.Some? ==> i <= dies.value
      {
        if dies.Some? && i == dies.value { return; }
        if Queues(a, b, i) {
          jobs := Enqueue(jobs, IdempotencyKey(b.batchId, i), JobFor(a, b, i));
          queued := queued + 1;
        } else {
          skipped := skipped + 1;
        }
      }
      if dies.Some? { return; }
      batches := batches[slot := b.(status := if queued > 0 then Queued else RfqRouted)];
    }

    method SettleOnce(a: Answers, death: Option<Death>) returns (count: nat)
      modifies this
      ensures View() == Poll(a, old(View()), death)
      ensures count == |PendingSlots(old(batches), 0, POLL_LIMIT)|
    {
      var rows := PendingSlots(batches, 0, POLL_LIMIT);
      var left := death;
      count := |rows|;
      assert rows[0..] == rows;
      for k := 0 to |rows|
        invariant |batches| == |old(batches)|
        invariant forall i | 0 <= i < |rows| :: rows[i] < |batches|
        invariant Poll(a, old(View()), death) == PollSlots(a, View(), rows[k..], left)
      {
        assert rows[k..][0] == rows[k] && rows[k..][1..] == rows[k + 1..];
        if left.Some? && left.value.batch == 0 {
          QueueSettlementJobs(a, rows[k], Some(left.value.matches));
          return;
        }
        QueueSettlementJobs(a, rows[k], None);
        left := if left.Some? then Some(Death(left.value.batch - 1, left.value.matches)) else None;
      }
    }
  }

  // ---------- keys ----------

  /** How many digits a text ends with. */
  ghost function TrailingDigits(s: string): nat {
    if s == "" || !Decimal.IsDigit(s[|s| - 1]) then 0 else 1 + TrailingDigits(s[..|s| - 1])
  }

  lemma {:induction false} TrailingAfterColon(a: string, d: string)
    requires Decimal.AllDigits(d)
    ensures TrailingDigits(a + ":" + d) == |d|
  {
    var s := a + ":" + d;
    if d == "" {
      assert s[|s| - 1] == ':';
    } else {
      assert s[|s| - 1] == d[|d| - 1] && s[..|s| - 1] == a + ":" + d[..|d| - 1];
      TrailingAfterColon(a, d[..|d| - 1]);
    }
  }

  /** The digits after the last colon can be told from what comes before. */
  lemma {:induction false} ColonSplit(a: string, d: string, b: string, e: string)
    requires Decimal.AllDigits(d) && Decimal.AllDigits(e) && a + ":" + d == b + ":" + e
    ensures a == b && d == e
  {
    TrailingAfterColon(a, d);
    TrailingAfterColon(b, e);
    var s := a + ":" + d;
    assert |a| == |b| && a == s[..|a|] && b == s[..|b|];
    assert d == s[|a| + 1..] && e == s[|b| + 1..];
  }

  lemma {:induction false} SamePrefix(p: string, s: string, t: string)
    requires p + s == p + t
    ensures s == t
  {
    assert s == (p + s)[|p|..] && t == (p + t)[|p|..];
  }

  /** Different matches have different idempotency keys, whatever the batch ids contain. */
  lemma {:induction false} KeyInjective(a: string, m: nat, b: string, n: nat)
    requires IdempotencyKey(a, m) == IdempotencyKey(b, n)
    ensures a == b && m == n
  {
    var d, e := Decimal.ToString(m), Decimal.ToString(n);
    assert IdempotencyKey(a, m) == "mpc_settle:" + (a + ":" + d);
    assert IdempotencyKey(b, n) == "mpc_settle:" + (b + ":" + e);
    SamePrefix("mpc_settle:", a + ":" + d, b + ":" + e);
    Decimal.DigitsValue(m);
    Decimal.DigitsValue(n);
    ColonSplit(a, d, b, e);
    Decimal.ToStringInjective(m, n);
  }

  // ---------- exactly once ----------

  /** A job under the key of match i is the one some poll made that found no side RFQ-routed. */
  ghost predicate MatchOk(polls: seq<Answers>, jobs: OrderedMap<string, Job>, b: BatchRow, i: nat)
    requires i < |b.matches|
  {
    var job := Find(jobs, IdempotencyKey(b.batchId, i));
    job.Some? ==> exists p :: 0 <= p < |polls| && Queues(polls[p], b, i) && job.value == JobFor(polls[p], b, i)
  }

  /** The poll finished the batch: it left a job for every match it found not RFQ-routed, and the
      status says whether there was one. */
  ghost predicate FinishedBy(a: Answers, jobs: OrderedMap<string, Job>, b: BatchRow) {
    && b.status == NewStatus(a, b)
    && forall i | 0 <= i < |b.matches| && Queues(a, b, i) :: Has(jobs, IdempotencyKey(b.batchId, i))
  }

  ghost predicate BatchOk(polls: seq<Answers>, jobs: OrderedMap<string, Job>, b: BatchRow) {
    && (forall i | 0 <= i < |b.matches| :: MatchOk(polls, jobs, b, i))
    && (b.status != Pending ==> exists p :: 0 <= p < |polls| && FinishedBy(polls[p], jobs, b))
  }

  /** The key belongs to a match of some batch. */
  ghost predicate Accounted(batches: seq<BatchRow>, key: string) {
    exists k, i :: 0 <= k < |batches| && KeyOf(batches[k], i, key)
  }

  ghost predicate KeyOf(b: BatchRow, i: nat, key: string) {
    i < |b.matches| && key == IdempotencyKey(b.batchId, i)
  }

  ghost predicate DistinctBatches(batches: seq<BatchRow>) {
    forall k, l | 0 <= k < l < |batches| :: batches[k].batchId != batches[l].batchId
  }

  ghost predicate KeysOk(db: Db) {
    (forall j | 0 <= j < |db.jobs| :: Accounted(db.batches, db.jobs[j].0)) && Unique(db.jobs)
  }

  ghost predicate ExactlyOnce(polls: seq<Answers>, db: Db) {
    && DistinctBatches(db.batches) && KeysOk(db)
    && forall k | 0 <= k < |db.batches| :: BatchOk(polls, db.jobs, db.batches[k])
  }

  lemma {:induction false} EnqueueFind(jobs: OrderedMap<string, Job>, key: string, job: Job, other: string)
    ensures Find(Enqueue(jobs, key, job), other)
         == if other == key && !Has(jobs, key) then Some(job) else Find(jobs, other)
  {
    PutFind(jobs, key, job, other);
    assert !Has(jobs, key) ==> Enqueue(jobs, key, job) == Put(jobs, key, job);
  }

  lemma {:induction false} FindHas(jobs: OrderedMap<string, Job>, key: string)
    ensures Find(jobs, key).Some? <==> Has(jobs, key)
  {
  }

  /** What queuing the first n matches of a batch leaves under the key of its match i. */
  lemma {:induction false} QueueOwn(a: Answers, b: BatchRow, n: nat, jobs: OrderedMap<string, Job>, i: nat)
    requires n <= |b.matches| && i < |b.matches|
    ensures var key := IdempotencyKey(b.batchId, i);
            Find(QueueMatches(a, b, n, jobs), key)
              == if !Has(jobs, key) && i < n && Queues(a, b, i) then Some(JobFor(a, b, i)) else Find(jobs, key)
  {
    if n > 0 {
      QueueOwn(a, b, n - 1, jobs, i);
      var done, key := QueueMatches(a, b, n - 1, jobs), IdempotencyKey(b.batchId, i);
      EnqueueFind(done, IdempotencyKey(b.batchId, n - 1), JobFor(a, b, n - 1), key);
      FindHas(done, key);
      FindHas(jobs, key);
      if i != n - 1 && key == IdempotencyKey(b.batchId, n - 1) {
        KeyInjective(b.batchId, i, b.batchId, n - 1);
      }
    }
  }

  /** Other keys are left alone. */
  lemma {:induction false} QueueOther(a: Answers, b: BatchRow, n: nat, jobs: OrderedMap<string, Job>, key: string)
    requires n <= |b.matches| && forall i: nat | i < n :: key != IdempotencyKey(b.batchId, i)
    ensures Find(QueueMatches(a, b, n, jobs), key) == Find(jobs, key)
  {
    if n > 0 {
      QueueOther(a, b, n - 1, jobs, key);
      EnqueueFind(QueueMatches(a, b, n - 1, jobs), IdempotencyKey(b.batchId, n - 1), JobFor(a, b, n - 1), key);
    }
  }

  /** A job, once queued, is never changed. */
  lemma {:induction false} QueueKeepsJobs(a: Answers, b: BatchRow, n: nat, jobs: OrderedMap<string, Job>, key: string)
    requires n <= |b.matches| && Has(jobs, key)
    ensures Find(QueueMatches(a, b, n, jobs), key) == Find(jobs, key)
  {
    if n > 0 {
      QueueKeepsJobs(a, b, n - 1, jobs, key);
      var done := QueueMatches(a, b, n - 1, jobs);
      FindHas(jobs, key);
      FindHas(done, key);
      EnqueueFind(done, IdempotencyKey(b.batchId, n - 1), JobFor(a, b, n - 1), key);
    }
  }

  lemma {:induction false} QueueMatchesKeys(
    a: Answers, b: BatchRow, n: nat, jobs: OrderedMap<string, Job>, batches: seq<BatchRow>, slot: nat)
    requires n <= |b.matches| && slot < |batches|
    requires batches[slot].batchId == b.batchId && |batches[slot].matches| == |b.matches|
    requires KeysOk(Db(batches, jobs))
    ensures KeysOk(Db(batches, QueueMatches(a, b, n, jobs)))
  {
    if n > 0 {
      QueueMatchesKeys(a, b, n - 1, jobs, batches, slot);
      assert KeyOf(batches[slot], n - 1, IdempotencyKey(b.batchId, n - 1));
    }
  }

  lemma {:induction false} OwnMatch(
    polls: seq<Answers>, p: nat, jobs: OrderedMap<string, Job>, b: BatchRow, b': BatchRow, n: nat, i: nat)
    requires p < |polls| && n <= |b.matches| && i < |b.matches| && MatchOk(polls, jobs, b, i)
    requires b' == b.(status := b'.status)
    ensures MatchOk(polls, QueueMatches(polls[p], b, n, jobs), b', i)
    ensures i < n && Queues(polls[p], b, i) ==> Has(QueueMatches(polls[p], b, n, jobs), IdempotencyKey(b.batchId, i))
  {
    var key, jobs' := IdempotencyKey(b.batchId, i), QueueMatches(polls[p], b, n, jobs);
    QueueOwn(polls[p], b, n, jobs, i);
    FindHas(jobs, key);
    FindHas(jobs', key);
    if Has(jobs, key) {
      var q :| 0 <= q < |polls| && Queues(polls[q], b, i) && Find(jobs, key).value == JobFor(polls[q], b, i);
      assert Queues(polls[q], b', i) && JobFor(polls[q], b', i) == JobFor(polls[q], b, i);
    } else if Has(jobs', key) {
      assert Queues(polls[p], b', i) && JobFor(polls[p], b', i) == JobFor(polls[p], b, i);
    }
  }

  lemma {:induction false} OtherMatch(
    polls: seq<Answers>, a: Answers, jobs: OrderedMap<string, Job>, b: BatchRow, n: nat, c: BatchRow, i: nat)
    requires n <= |b.matches| && b.batchId != c.batchId && i < |c.matches|
    ensures Find(QueueMatches(a, b, n, jobs), IdempotencyKey(c.batchId, i)) == Find(jobs, IdempotencyKey(c.batchId, i))
  {
    var key := IdempotencyKey(c.batchId, i);
    forall j: nat | j < n ensures key != IdempotencyKey(b.batchId, j) {
      if key == IdempotencyKey(b.batchId, j) { KeyInjective(c.batchId, i, b.batchId, j); }
    }
    QueueOther(a, b, n, jobs, key);
  }

  lemma {:induction false} OtherBatch(
    polls: seq<Answers>, a: Answers, jobs: OrderedMap<string, Job>, b: BatchRow, n: nat, c: BatchRow)
    requires n <= |b.matches| && b.batchId != c.batchId && BatchOk(polls, jobs, c)
    ensures BatchOk(polls, QueueMatches(a, b, n, jobs), c)
  {
    var jobs' := QueueMatches(a, b, n, jobs);
    forall i | 0 <= i < |c.matches|
      ensures MatchOk(polls, jobs', c, i)
      ensures Has(jobs', IdempotencyKey(c.batchId, i)) <==> Has(jobs, IdempotencyKey(c.batchId, i))
    {
      OtherMatch(polls, a, jobs, b, n, c, i);
      FindHas(jobs, IdempotencyKey(c.batchId, i));
      FindHas(jobs', IdempotencyKey(c.batchId, i));
      assert MatchOk(polls, jobs, c, i);
    }
    if c.status != Pending {
      var p :| 0 <= p < |polls| && FinishedBy(polls[p], jobs, c);
      assert FinishedBy(polls[p], jobs', c);
    }
  }

  lemma {:induction false} OwnBatch(polls: seq<Answers>, p: nat, db: Db, slot: nat, dies: Option<nat>)
    requires p < |polls| && slot < |db.batches| && db.batches[slot].status == Pending
    requires BatchOk(polls, db.jobs, db.batches[slot])
    ensures var db' := QueueBatch(polls[p], db, slot, dies); BatchOk(polls, db'.jobs, db'.batches[slot])
  {
    var a, b, db' := polls[p], db.batches[slot], QueueBatch(polls[p], db, slot, dies);
    var n := if dies.Some? && dies.value < |b.matches| then dies.value else |b.matches|;
    assert db'.jobs == QueueMatches(a, b, n, db.jobs);
    forall i | 0 <= i < |b.matches|
      ensures MatchOk(polls, db'.jobs, db'.batches[slot], i)
      ensures i < n && Queues(a, b, i) ==> Has(db'.jobs, IdempotencyKey(b.batchId, i))
    {
      assert MatchOk(polls, db.jobs, b, i);
      OwnMatch(polls, p, db.jobs, b, db'.batches[slot], n, i);
    }
    if dies.None? {
      StatusIgnored(a, b, NewStatus(a, b));
      assert FinishedBy(a, db'.jobs, db'.batches[slot]);
    }
  }

  lemma {:induction false} StatusIgnored(a: Answers, b: BatchRow, status: SettlementStatus)
    ensures NewStatus(a, b.(status := status)) == NewStatus(a, b)
    ensures forall i :: Queues(a, b.(status := status), i) == Queues(a, b, i)
  {
    var c := b.(status := status);
    if i :| 0 <= i < |b.matches| && Queues(a, b, i) { assert Queues(a, c, i); }
    if i :| 0 <= i < |c.matches| && Queues(a, c, i) { assert Queues(a, b, i); }
  }

  lemma {:induction false} SlotKeepsKeys(a: Answers, db: Db, slot: nat, dies: Option<nat>)
    requires DistinctBatches(db.batches) && KeysOk(db) && slot < |db.batches|
    ensures var db' := QueueBatch(a, db, slot, dies); DistinctBatches(db'.batches) && KeysOk(db')
  {
    var b, db' := db.batches[slot], QueueBatch(a, db, slot, dies);
    assert forall k | 0 <= k < |db.batches| ::
        db'.batches[k].batchId == db.batches[k].batchId && db'.batches[k].matches == db.batches[k].matches;
    forall j | 0 <= j < |db.jobs| ensures Accounted(db'.batches, db.jobs[j].0) {
      var k, i :| 0 <= k < |db.batches| && KeyOf(db.batches[k], i, db.jobs[j].0);
      assert KeyOf(db'.batches[k], i, db.jobs[j].0);
    }
    var n := if dies.Some? && dies.value < |b.matches| then dies.value else |b.matches|;
    QueueMatchesKeys(a, b, n, db.jobs, db'.batches, slot);
  }

  /** Whether it dies or finishes, handling a pending batch keeps the promise. */
  lemma {:induction false} QueueBatchKeeps(polls: seq<Answers>, p: nat, db: Db, slot: nat, dies: Option<nat>)
    requires p < |polls| && ExactlyOnce(polls, db) && slot < |db.batches| && db.batches[slot].status == Pending
    ensures ExactlyOnce(polls, QueueBatch(polls[p], db, slot, dies))
  {
    var b, db' := db.batches[slot], QueueBatch(polls[p], db, slot, dies);
    SlotKeepsKeys(polls[p], db, slot, dies);
    OwnBatch(polls, p, db, slot, dies);
    forall k | 0 <= k < |db'.batches| && k != slot ensures BatchOk(polls, db'.jobs, db'.batches[k]) {
      OtherBatch(polls, polls[p], db.jobs, b,
                 if dies.Some? && dies.value < |b.matches| then dies.value else |b.matches|, db.batches[k]);
    }
  }

  lemma {:induction false} PollSlotsKeeps(polls: seq<Answers>, p: nat, db: Db, slots: seq<nat>, death: Option<Death>)
    requires p < |polls| && ExactlyOnce(polls, db)
    requires forall i | 0 <= i < |slots| :: slots[i] < |db.batches| && db.batches[slots[i]].status == Pending
    requires forall i, j | 0 <= i < j < |slots| :: slots[i] != slots[j]
    ensures ExactlyOnce(polls, PollSlots(polls[p], db, slots, death))
    decreases |slots|
  {
    if slots != [] {
      if death.Some? && death.value.batch == 0 {
        QueueBatchKeeps(polls, p, db, slots[0], Some(death.value.matches));
      } else {
        QueueBatchKeeps(polls, p, db, slots[0], None);
        var rest := slots[1..];
        forall i | 0 <= i < |rest| ensures rest[i] != slots[0] { assert rest[i] == slots[i + 1]; }
        PollSlotsKeeps(polls, p, QueueBatch(polls[p], db, slots[0], None), rest,
                       if death.Some? then Some(Death(death.value.batch - 1, death.value.matches)) else None);
      }
    }
  }

  lemma {:induction false} PendingSlotsDistinct(batches: seq<BatchRow>, from: nat, limit: nat)
    requires from <= |batches|
    ensures forall i, j | 0 <= i < j < |PendingSlots(batches, from, limit)| ::
              PendingSlots(batches, from, limit)[i] < PendingSlots(batches, from, limit)[j]
    decreases |batches| - from
  {
    if from < |batches| && limit > 0 {
      var limit' := if batches[from].status == Pending then limit - 1 else limit;
      PendingSlotsDistinct(batches, from + 1, limit');
      var s, rest := PendingSlots(batches, from, limit), PendingSlots(batches, from + 1, limit');
      forall i, j | 0 <= i < j < |s| ensures s[i] < s[j] {
        if batches[from].status == Pending {
          assert s == [from] + rest && s[j] == rest[j - 1] && rest[j - 1] > from;
          assert i > 0 ==> s[i] == rest[i - 1];
        }
      }
    }
  }

  /** Every poll, dying anywhere or not, keeps the promise. */
  lemma {:induction false} PollKeeps(polls: seq<Answers>, p: nat, db: Db, death: Option<Death>)
    requires p < |polls| && ExactlyOnce(polls, db)
    ensures ExactlyOnce(polls, Poll(polls[p], db, death))
  {
    PendingSlotsDistinct(db.batches, 0, POLL_LIMIT);
    var slots := PendingSlots(db.batches, 0, POLL_LIMIT);
    assert forall i, j | 0 <= i < j < |slots| :: slots[i] < slots[j];
    PollSlotsKeeps(polls, p, db, slots, death);
  }

  lemma {:induction false} NewBatchHasNoJobs(db: Db, b: BatchRow, i: nat)
    requires KeysOk(db) && forall k | 0 <= k < |db.batches| :: db.batches[k].batchId != b.batchId
    ensures !Has(db.jobs, IdempotencyKey(b.batchId, i))
  {
    var key := IdempotencyKey(b.batchId, i);
    var at := Index(db.jobs, key);
    if at < |db.jobs| {
      var k, j :| 0 <= k < |db.batches| && KeyOf(db.batches[k], j, db.jobs[at].0);
      KeyInjective(db.batches[k].batchId, j, b.batchId, i);
    }
  }

  lemma {:induction false} PersistKeeps(polls: seq<Answers>, db: Db, b: BatchRow)
    requires ExactlyOnce(polls, db) && forall k | 0 <= k < |db.batches| :: db.batches[k].batchId != b.batchId
    ensures ExactlyOnce(polls, Persist(db, b))
  {
    var c, db' := b.(status := Pending), Persist(db, b);
    forall i | 0 <= i < |c.matches| ensures MatchOk(polls, db.jobs, c, i) {
      NewBatchHasNoJobs(db, c, i);
      FindHas(db.jobs, IdempotencyKey(c.batchId, i));
    }
    forall j | 0 <= j < |db'.jobs| ensures Accounted(db'.batches, db'.jobs[j].0) {
      var k, i :| 0 <= k < |db.batches| && KeyOf(db.batches[k], i, db.jobs[j].0);
      assert KeyOf(db'.batches[k], i, db'.jobs[j].0);
    }
  }

  // ---------- runs ----------

  /** A batch arrives, or a poll reads its own answers and may die. */
  datatype Step = Arrive(batch: BatchRow) | PollStep(answers: Answers, death: Option<Death>)

  ghost function Next(db: Db, step: Step): Db {
    match step
    case Arrive(b) =>
      if exists k | 0 <= k < |db.batches| :: db.batches[k].batchId == b.batchId then db else Persist(db, b)
    case PollStep(a, death) => Poll(a, db, death)
  }

  ghost function Reached(steps: seq<Step>): Db {
    if steps == [] then Db([], []) else Next(Reached(steps[..|steps| - 1]), steps[|steps| - 1])
  }

  /** What the polls of a run read. */
  ghost function Polls(steps: seq<Step>): seq<Answers> {
    if steps == [] then []
    else
      var n := |steps| - 1;
      if steps[n].PollStep? then Polls(steps[..n]) + [steps[n].answers] else Polls(steps[..n])
  }

  lemma {:induction false} MorePolls(polls: seq<Answers>, a: Answers, db: Db)
    requires ExactlyOnce(polls, db)
    ensures ExactlyOnce(polls + [a], db)
  {
    forall k | 0 <= k < |db.batches| ensures BatchOk(polls + [a], db.jobs, db.batches[k]) {
      BatchMorePolls(polls, a, db.jobs, db.batches[k]);
    }
  }

  lemma {:induction false} BatchMorePolls(polls: seq<Answers>, a: Answers, jobs: OrderedMap<string, Job>, b: BatchRow)
    requires BatchOk(polls, jobs, b)
    ensures BatchOk(polls + [a], jobs, b)
  {
    var more := polls + [a];
    forall i | 0 <= i < |b.matches| ensures MatchOk(more, jobs, b, i) {
      assert MatchOk(polls, jobs, b, i);
      var job := Find(jobs, IdempotencyKey(b.batchId, i));
      if job.Some? {
        var p :| 0 <= p < |polls| && Queues(polls[p], b, i) && job.value == JobFor(polls[p], b, i);
        assert more[p] == polls[p];
      }
    }
    if b.status != Pending {
      var p :| 0 <= p < |polls| && FinishedBy(polls[p], jobs, b);
      assert more[p] == polls[p];
    }
  }

  /** Over every sequence of arrivals and polls, whatever each poll reads and wherever it dies: every job
      is that of a match some poll found not RFQ-routed; a batch that is no longer pending was finished
      by a poll that left a job for each match it found not RFQ-routed, and is queued exactly when there
      was one; and no match has two jobs. */
  lemma {:induction false} RunsSettleExactlyOnce(steps: seq<Step>)
    ensures ExactlyOnce(Polls(steps), Reached(steps))
  {
    if steps != [] {
      var n := |steps| - 1;
      RunsSettleExactlyOnce(steps[..n]);
      var db, polls := Reached(steps[..n]), Polls(steps[..n]);
      match steps[n]
      case Arrive(b) =>
        if forall k | 0 <= k < |db.batches| :: db.batches[k].batchId != b.batchId { PersistKeeps(polls, db, b); }
      case PollStep(a, death) =>
        MorePolls(polls, a, db);
        assert (polls + [a])[|polls|] == a;
        PollKeeps(polls + [a], |polls|, db, death);
    }
  }

  /** When the polls agree on which matches of a finished batch are RFQ-routed, it has a job for exactly
      those that are not, and is queued exactly when there is one. */
  lemma {:induction false} StableRoutingIsExact(
    polls: seq<Answers>, jobs: OrderedMap<string, Job>, b: BatchRow, p: nat, i: nat)
    requires BatchOk(polls, jobs, b) && b.status != Pending && p < |polls| && i < |b.matches|
    requires forall q, j | 0 <= q < |polls| && 0 <= j < |b.matches| :: Queues(polls[q], b, j) == Queues(polls[p], b, j)
    ensures Has(jobs, IdempotencyKey(b.batchId, i)) <==> Queues(polls[p], b, i)
    ensures b.status == NewStatus(polls[p], b)
  {
    FindHas(jobs, IdempotencyKey(b.batchId, i));
    assert MatchOk(polls, jobs, b, i);
    var q :| 0 <= q < |polls| && FinishedBy(polls[q], jobs, b);
    assert forall j | 0 <= j < |b.matches| :: Queues(polls[q], b, j) == Queues(polls[p], b, j);
  }

  /** A job, once queued, is never changed by a later poll. */
  lemma {:induction false} JobsStay(a: Answers, db: Db, slots: seq<nat>, death: Option<Death>, key: string)
    requires forall i | 0 <= i < |slots| :: slots[i] < |db.batches|
    requires Has(db.jobs, key)
    ensures Find(PollSlots(a, db, slots, death).jobs, key) == Find(db.jobs, key)
    decreases |slots|
  {
    if slots != [] {
      var b := db.batches[slots[0]];
      var dies := if death.Some? && death.value.batch == 0 then Some(death.value.matches) else None;
      var db' := QueueBatch(a, db, slots[0], dies);
      QueueKeepsJobs(a, b, if dies.Some? && dies.value < |b.matches| then dies.value else |b.matches|, db.jobs, key);
      FindHas(db.jobs, key);
      FindHas(db'.jobs, key);
      if dies.None? {
        JobsStay(a, db', slots[1..],
                 if death.Some? then Some(Death(death.value.batch - 1, death.value.matches)) else None, key);
      }
    }
  }

  // ---------- progress ----------

  ghost function PendingCount(batches: seq<BatchRow>, from: nat): nat
    requires from <= |batches|
    decreases |batches| - from
  {
    if from == |batches| then 0
    else (if batches[from].status == Pending then 1 else 0) + PendingCount(batches, from + 1)
  }

  lemma {:induction false} SlotsCount(batches: seq<BatchRow>, from: nat, limit: nat)
    requires from <= |batches|
    ensures |PendingSlots(batches, from, limit)| == Min(limit, PendingCount(batches, from))
    decreases |batches| - from
  {
    if from < |batches| && limit > 0 {
      SlotsCount(batches, from + 1, if batches[from].status == Pending then limit - 1 else limit);
    }
  }

  lemma {:induction false} CountAfterUpdate(batches: seq<BatchRow>, from: nat, slot: nat, b: BatchRow)
    requires from <= |batches| && slot < |batches| && batches[slot].status == Pending && b.status != Pending
    ensures PendingCount(batches[slot := b], from) == PendingCount(batches, from) - if from <= slot then 1 else 0
    decreases |batches| - from
  {
    if from < |batches| {
      CountAfterUpdate(batches, from + 1, slot, b);
    }
  }

  lemma {:induction false} PollSlotsProgress(a: Answers, db: Db, slots: seq<nat>)
    requires forall i | 0 <= i < |slots| :: slots[i] < |db.batches| && db.batches[slots[i]].status == Pending
    requires forall i, j | 0 <= i < j < |slots| :: slots[i] != slots[j]
    ensures PendingCount(PollSlots(a, db, slots, None).batches, 0) == PendingCount(db.batches, 0) - |slots|
    decreases |slots|
  {
    if slots != [] {
      var db1, b := QueueBatch(a, db, slots[0], None), db.batches[slots[0]];
      CountAfterUpdate(db.batches, 0, slots[0], b.(status := NewStatus(a, b)));
      var rest := slots[1..];
      forall i | 0 <= i < |rest| ensures rest[i] != slots[0] { assert rest[i] == slots[i + 1]; }
      PollSlotsProgress(a, db1, rest);
    }
  }

  /** A poll that does not die finishes the oldest pending batches, fifty at most. */
  lemma {:induction false} PollProgress(a: Answers, db: Db)
    ensures PendingCount(Poll(a, db, None).batches, 0)
         == PendingCount(db.batches, 0) - Min(POLL_LIMIT, PendingCount(db.batches, 0))
  {
    PendingSlotsDistinct(db.batches, 0, POLL_LIMIT);
    SlotsCount(db.batches, 0, POLL_LIMIT);
    PollSlotsProgress(a, db, PendingSlots(db.batches, 0, POLL_LIMIT));
  }

  // ---------- what a poll does, match by match ----------

  /** How many batches before k are pending. */
  ghost function PendingAhead(batches: seq<BatchRow>, from: nat, k: nat): nat
    requires from <= k <= |batches|
    decreases k - from
  {
    if from == k then 0 else (if batches[from].status == Pending then 1 else 0) + PendingAhead(batches, from + 1, k)
  }

  lemma {:induction false} PendingSlotsExact(batches: seq<BatchRow>, from: nat, limit: nat, k: nat)
    requires from <= k < |batches|
    ensures var slots, n := PendingSlots(batches, from, limit), PendingAhead(batches, from, k);
            if batches[k].status == Pending && n < limit then n < |slots| && slots[n] == k else k !in slots
    decreases |batches| - from
  {
    if limit > 0 && from < k {
      PendingSlotsExact(batches, from + 1, if batches[from].status == Pending then limit - 1 else limit, k);
    }
  }

  /** The poll gets to match i of the batch at place `at` of its list. */
  ghost predicate Reaches(death: Option<Death>, at: nat, i: nat) {
    death.None? || at < death.value.batch || (at == death.value.batch && i < death.value.matches)
  }

  /** The poll gets to the end of the batch at place `at` of its list. */
  ghost predicate Finishes(death: Option<Death>, at: nat) {
    death.None? || at < death.value.batch
  }

  /** What a poll leaves of a batch, given whether it finishes it. */
  ghost predicate BatchAfter(a: Answers, b: BatchRow, b': BatchRow, finishes: bool) {
    && b' == b.(status := b'.status)
    && b'.status ==
         if !finishes then b.status
         else if exists j :: 0 <= j < |b.matches| && !a(b.batchId, j).routedA && !a(b.batchId, j).routedB
         then Queued else RfqRouted
  }

  /** What a poll leaves under the key of match i of a batch, given whether it gets there. */
  ghost predicate JobAfter(a: Answers, b: BatchRow, i: nat, before: Option<Job>, after: Option<Job>, gets: bool)
    requires i < |b.matches|
  {
    var look := a(b.batchId, i);
    after ==
      if before.None? && gets && !look.routedA && !look.routedB
      then Some(Job(b.batchId, b.sessionId, i, b.matches[i], look.noteA, look.noteB)) else before
  }

  lemma {:induction false} StatusAfter(a: Answers, b: BatchRow)
    ensures NewStatus(a, b) == Queued <==>
              exists j :: 0 <= j < |b.matches| && !a(b.batchId, j).routedA && !a(b.batchId, j).routedB
  {
    if j :| 0 <= j < |b.matches| && !a(b.batchId, j).routedA && !a(b.batchId, j).routedB { assert Queues(a, b, j); }
    if j :| 0 <= j < |b.matches| && Queues(a, b, j) { assert !a(b.batchId, j).routedA; }
  }

  ghost function Upto(b: BatchRow, dies: Option<nat>): (n: nat)
    ensures n <= |b.matches|
  {
    if dies.Some? && dies.value < |b.matches| then dies.value else |b.matches|
  }

  lemma {:induction false} QueueBatchAfter(a: Answers, db: Db, slot: nat, dies: Option<nat>)
    requires slot < |db.batches| && DistinctBatches(db.batches)
    ensures var db', b := QueueBatch(a, db, slot, dies), db.batches[slot];
            && DistinctBatches(db'.batches) && db'.batches == db.batches[slot := db'.batches[slot]]
            && BatchAfter(a, b, db'.batches[slot], dies.None?) && db'.jobs == QueueMatches(a, b, Upto(b, dies), db.jobs)
  {
    StatusAfter(a, db.batches[slot]);
  }

  lemma {:induction false} OwnJobAfter(a: Answers, db: Db, slot: nat, dies: Option<nat>, i: nat)
    requires slot < |db.batches| && i < |db.batches[slot].matches| && DistinctBatches(db.batches)
    ensures var key := IdempotencyKey(db.batches[slot].batchId, i);
            JobAfter(a, db.batches[slot], i, Find(db.jobs, key), Find(QueueBatch(a, db, slot, dies).jobs, key),
                     dies.None? || i < dies.value)
  {
    var b := db.batches[slot];
    QueueBatchAfter(a, db, slot, dies);
    QueueOwn(a, b, Upto(b, dies), db.jobs, i);
    FindHas(db.jobs, IdempotencyKey(b.batchId, i));
  }

  lemma {:induction false} OtherJobAfter(a: Answers, db: Db, slot: nat, dies: Option<nat>, k: nat, i: nat)
    requires slot < |db.batches| && k < |db.batches| && k != slot && DistinctBatches(db.batches)
    requires i < |db.batches[k].matches|
    ensures var key := IdempotencyKey(db.batches[k].batchId, i);
            Find(QueueBatch(a, db, slot, dies).jobs, key) == Find(db.jobs, key)
  {
    var b := db.batches[slot];
    QueueBatchAfter(a, db, slot, dies);
    OtherMatch([], a, db.jobs, b, Upto(b, dies), db.batches[k], i);
  }

  /** How the rest of a poll's list goes on after its first batch, which the poll survived. */
  ghost function Later(death: Option<Death>): Option<Death>
    requires death.Some? ==> death.value.batch > 0
  {
    if death.Some? then Some(Death(death.value.batch - 1, death.value.matches)) else None
  }

  ghost predicate DiesNow(death: Option<Death>) {
    death.Some? && death.value.batch == 0
  }

  ghost predicate GoodSlots(db: Db, slots: seq<nat>) {
    && DistinctBatches(db.batches) && (forall j | 0 <= j < |slots| :: slots[j] < |db.batches|)
    && forall j, l | 0 <= j < l < |slots| :: slots[j] != slots[l]
  }

  /** The rest of the list works on what the first batch leaves. */
  lemma {:induction false} PollRest(a: Answers, db: Db, slots: seq<nat>, death: Option<Death>)
    requires GoodSlots(db, slots) && slots != [] && !DiesNow(death)
    ensures var db1 := QueueBatch(a, db, slots[0], None);
            && GoodSlots(db1, slots[1..]) && slots[0] !in slots[1..] && |db1.batches| == |db.batches|
            && PollSlots(a, db, slots, death) == PollSlots(a, db1, slots[1..], Later(death))
  {
    QueueBatchAfter(a, db, slots[0], None);
    assert forall j | 0 <= j < |slots[1..]| :: slots[1..][j] == slots[j + 1];
  }

  /** A poll's list leaves alone what it does not hold. */
  lemma {:induction false} PollElsewhere(a: Answers, db: Db, slots: seq<nat>, death: Option<Death>, k: nat)
    requires GoodSlots(db, slots) && k < |db.batches| && k !in slots
    ensures var db' := PollSlots(a, db, slots, death); k < |db'.batches| && db'.batches[k] == db.batches[k]
    ensures forall i: nat | i < |db.batches[k].matches| ::
              var key := IdempotencyKey(db.batches[k].batchId, i);
              Find(PollSlots(a, db, slots, death).jobs, key) == Find(db.jobs, key)
    decreases |slots|
  {
    if slots != [] {
      var dies := if DiesNow(death) then Some(death.value.matches) else None;
      QueueBatchAfter(a, db, slots[0], dies);
      forall i: nat | i < |db.batches[k].matches| { OtherJobAfter(a, db, slots[0], dies, k, i); }
      if dies.None? {
        PollRest(a, db, slots, death);
        PollElsewhere(a, QueueBatch(a, db, slots[0], None), slots[1..], Later(death), k);
      }
    }
  }

  lemma {:induction false} PollBatchAt(a: Answers, db: Db, slots: seq<nat>, death: Option<Death>, at: nat)
    requires GoodSlots(db, slots) && at < |slots|
    ensures var db' := PollSlots(a, db, slots, death);
            && slots[at] < |db'.batches|
            && BatchAfter(a, db.batches[slots[at]], db'.batches[slots[at]], Finishes(death, at))
    decreases |slots|
  {
    var dies := if DiesNow(death) then Some(death.value.matches) else None;
    QueueBatchAfter(a, db, slots[0], dies);
    if dies.None? {
      var db1 := QueueBatch(a, db, slots[0], None);
      PollRest(a, db, slots, death);
      if at == 0 {
        PollElsewhere(a, db1, slots[1..], Later(death), slots[0]);
      } else {
        PollBatchAt(a, db1, slots[1..], Later(death), at - 1);
      }
    }
  }

  lemma {:induction false} PollJobAt(a: Answers, db: Db, slots: seq<nat>, death: Option<Death>, at: nat, i: nat)
    requires GoodSlots(db, slots) && at < |slots| && i < |db.batches[slots[at]].matches|
    ensures var key := IdempotencyKey(db.batches[slots[at]].batchId, i);
            JobAfter(a, db.batches[slots[at]], i, Find(db.jobs, key), Find(PollSlots(a, db, slots, death).jobs, key),
                     Reaches(death, at, i))
    decreases |slots|
  {
    var dies := if DiesNow(death) then Some(death.value.matches) else None;
    QueueBatchAfter(a, db, slots[0], dies);
    if at == 0 { OwnJobAfter(a, db, slots[0], dies, i); } else { OtherJobAfter(a, db, slots[0], dies, slots[at], i); }
    if dies.None? {
      var db1 := QueueBatch(a, db, slots[0], None);
      PollRest(a, db, slots, death);
      if at == 0 {
        PollElsewhere(a, db1, slots[1..], Later(death), slots[0]);
      } else {
        PollJobAt(a, db1, slots[1..], Later(death), at - 1, i);
      }
    }
  }

  lemma {:induction false} PolledSlots(db: Db, k: nat)
    requires DistinctBatches(db.batches) && k < |db.batches|
    ensures var slots, at := PendingSlots(db.batches, 0, 50), PendingAhead(db.batches, 0, k);
            && GoodSlots(db, slots)
            && if db.batches[k].status == Pending && at < 50 then at < |slots| && slots[at] == k else k !in slots
  {
    var slots := PendingSlots(db.batches, 0, 50);
    PendingSlotsDistinct(db.batches, 0, 50);
    assert forall j, l | 0 <= j < l < |slots| :: slots[j] < slots[l];
    PendingSlotsExact(db.batches, 0, 50, k);
  }

  /** A poll takes the fifty oldest pending batches and gets through them in order as far as it lives. A
      batch it finishes is queued iff it has a match with neither side read as RFQ-routed, else RFQ-routed;
      every other batch stays as it is. */
  lemma {:induction false} PollStatusExact(a: Answers, db: Db, death: Option<Death>, k: nat)
    requires DistinctBatches(db.batches) && k < |db.batches|
    ensures var db', b, at := Poll(a, db, death), db.batches[k], PendingAhead(db.batches, 0, k);
            && k < |db'.batches|
            && BatchAfter(a, b, db'.batches[k], b.status == Pending && at < 50 && Finishes(death, at))
  {
    var slots, at := PendingSlots(db.batches, 0, 50), PendingAhead(db.batches, 0, k);
    PolledSlots(db, k);
    if k in slots { PollBatchAt(a, db, slots, death, at); } else { PollElsewhere(a, db, slots, death, k); }
  }

  /** A match the poll gets to has a new job iff there was none before and neither side is read as
      RFQ-routed; the job names the batch, its session, the match and each side's note. No other match gets
      a job, and no job changes. */
  lemma {:induction false} PollJobsExact(a: Answers, db: Db, death: Option<Death>, k: nat, i: nat)
    requires DistinctBatches(db.batches) && k < |db.batches| && i < |db.batches[k].matches|
    ensures var db', b, at := Poll(a, db, death), db.batches[k], PendingAhead(db.batches, 0, k);
            var key := "mpc_settle:" + b.batchId + ":" + Decimal.ToString(i);
            JobAfter(a, b, i, Find(db.jobs, key), Find(db'.jobs, key),
                     b.status == Pending && at < 50 && Reaches(death, at, i))
  {
    var slots, at := PendingSlots(db.batches, 0, 50), PendingAhead(db.batches, 0, k);
    PolledSlots(db, k);
    assert IdempotencyKey(db.batches[k].batchId, i)
        == "mpc_settle:" + db.batches[k].batchId + ":" + Decimal.ToString(i);
    if k in slots { PollJobAt(a, db, slots, death, at, i); } else { PollElsewhere(a, db, slots, death, k); }
  }
}
