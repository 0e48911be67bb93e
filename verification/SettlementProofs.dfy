/** What holds over every run of the settlement steps: where batches, jobs and settlements come from,
    that the two settlement paths exclude each other as long as the committee is given no RFQ hash
    without an intent row, and that every settlement row had its whole support when it was inserted. */
module SettlementProofs {
  import opened JsMap
  import opened Netting
  import opened Settlement

  ghost function Reached(t: Tables, steps: seq<Step>): Tables {
    if steps == [] then t else Next(Reached(t, steps[..|steps| - 1]), steps[|steps| - 1])
  }

  // ---------- what never goes away ----------

  /** RFQ rows are never deleted; quotes, acceptances and settlements never change; executed fills stay
      executed. */
  ghost predicate RfqGrows(r: Rfq, s: Rfq) {
    && (forall h | h in r.intents :: h in s.intents && s.intents[h].owner == r.intents[h].owner)
    && (forall q | q in r.quotes :: q in s.quotes && s.quotes[q] == r.quotes[q])
    && (forall q | q in r.acceptances :: q in s.acceptances && s.acceptances[q] == r.acceptances[q])
    && FillsGrow(r.fills, s.fills)
    && (forall x | x in r.settlements :: x in s.settlements && s.settlements[x] == r.settlements[x])
  }

  ghost predicate FillsGrow(f: seq<FillRow>, g: seq<FillRow>) {
    |f| <= |g| && forall i | 0 <= i < |f| :: g[i].quoteId == f[i].quoteId && (f[i].executed ==> g[i].executed)
  }

  /** Batches and jobs are never deleted or changed. */
  ghost predicate MpcGrows(m: Mpc, n: Mpc) {
    && (forall b | b in m.batches :: b in n.batches && n.batches[b] == m.batches[b])
    && (forall r | r in m.jobs :: r in n.jobs && n.jobs[r] == m.jobs[r])
  }

  ghost predicate TrafficGrows(q: Traffic, p: Traffic) {
    && q.accepted <= p.accepted && q.direct <= p.direct
    && (forall h | h in q.bodies :: h in p.bodies && p.bodies[h] == q.bodies[h])
  }

  ghost predicate Grows(t: Tables, u: Tables) {
    RfqGrows(t.rfq, u.rfq) && MpcGrows(t.mpc, u.mpc) && TrafficGrows(t.traffic, u.traffic)
  }

  lemma {:induction false} FillsStay(f: seq<FillRow>)
    ensures FillsGrow(f, f)
  {
  }

  lemma {:induction false} RfqStays(r: Rfq)
    ensures RfqGrows(r, r)
  {
    FillsStay(r.fills);
  }

  lemma {:induction false} InsertGrows(r: Rfq, hash: string, key: string, user: string)
    ensures RfqGrows(r, InsertIntent(r, hash, key, user))
  {
  }

  lemma {:induction false} LinkGrows(r: Rfq, hash: string, session: string)
    ensures RfqGrows(r, LinkSession(r, hash, session))
  {
  }

  lemma {:induction false} QuoteGrows(r: Rfq, quoteId: string, intentHash: string, quoteHash: string)
    ensures RfqGrows(r, PostQuote(r, quoteId, intentHash, quoteHash))
  {
  }

  lemma {:induction false} AcceptGrows(r: Rfq, user: string, quoteId: string, intentHash: string)
    ensures RfqGrows(r, AcceptQuote(r, user, quoteId, intentHash).0)
  {
  }

  lemma {:induction false} FillGrows(r: Rfq, quoteId: string, receipt: string)
    ensures RfqGrows(r, PostFill(r, quoteId, receipt).0)
  {
    assert FillsGrow(r.fills, r.fills + [FillRow(quoteId, receipt, false)]);
  }

  lemma {:induction false} ExecuteGrows(r: Rfq, quoteId: string, receipt: string)
    ensures RfqGrows(r, ExecuteFill(r, quoteId, receipt).0)
  {
    assert FillsGrow(r.fills, Executed(r.fills, quoteId, receipt));
  }

  lemma {:induction false} SettleGrows(r: Rfq, statuses: map<string, bool>, q: SettleRequest)
    ensures RfqGrows(r, Settle(r, statuses, q).0)
  {
  }

  lemma {:induction false} PostsGrow(t: Tables, step: Step)
    requires step.PostIntentStep? || step.LinkStep? || step.QuoteStep?
    ensures RfqGrows(t.rfq, NextRfq(t, step))
  {
    RfqStays(t.rfq);
    if step.PostIntentStep? {
      InsertGrows(t.rfq, step.hash, step.key, step.user);
    } else if step.LinkStep? {
      LinkGrows(t.rfq, step.hash, step.session);
    } else {
      QuoteGrows(t.rfq, step.quoteId, step.intentHash, step.quoteHash);
    }
  }

  lemma {:induction false} LifecycleGrows(t: Tables, step: Step)
    requires step.AcceptStep? || step.FillStep? || step.ExecuteStep? || step.SettleStep?
    ensures RfqGrows(t.rfq, NextRfq(t, step))
  {
    match step
    case AcceptStep(user, quoteId, intentHash) => AcceptGrows(t.rfq, user, quoteId, intentHash);
    case FillStep(quoteId, receipt) => FillGrows(t.rfq, quoteId, receipt);
    case ExecuteStep(quoteId, receipt) => ExecuteGrows(t.rfq, quoteId, receipt);
    case SettleStep(request) => SettleGrows(t.rfq, t.mpc.statuses, request);
  }

  lemma {:induction false} StepRfqGrows(t: Tables, step: Step)
    ensures RfqGrows(t.rfq, NextRfq(t, step))
  {
    if step.PostIntentStep? || step.LinkStep? || step.QuoteStep? {
      PostsGrow(t, step);
    } else if step.AcceptStep? || step.FillStep? || step.ExecuteStep? || step.SettleStep? {
      LifecycleGrows(t, step);
    } else {
      RfqStays(t.rfq);
    }
  }

  lemma {:induction false} StepMpcGrows(t: Tables, step: Step)
    ensures MpcGrows(t.mpc, NextMpc(t, step))
  {
  }

  lemma {:induction false} StepTrafficGrows(t: Tables, step: Step)
    ensures TrafficGrows(t.traffic, NextTraffic(t, step))
  {
  }

  lemma {:induction false} StepGrows(t: Tables, step: Step)
    ensures Grows(t, Next(t, step))
  {
    StepRfqGrows(t, step);
    StepMpcGrows(t, step);
    StepTrafficGrows(t, step);
  }

  lemma {:induction false} GrowsOn(t: Tables, u: Tables, v: Tables)
    requires Grows(t, u) && Grows(u, v)
    ensures Grows(t, v)
  {
  }

  lemma {:induction false} RunGrows(t: Tables, steps: seq<Step>, k: nat)
    requires k <= |steps|
    ensures Grows(Reached(t, steps[..k]), Reached(t, steps))
    decreases |steps| - k
  {
    if k == |steps| {
      assert steps[..k] == steps;
      FillsStay(Reached(t, steps).rfq.fills);
    } else {
      RunGrows(t, steps, k + 1);
      assert steps[..k + 1][..k] == steps[..k];
      StepGrows(Reached(t, steps[..k]), steps[k]);
      GrowsOn(Reached(t, steps[..k]), Reached(t, steps[..k + 1]), Reached(t, steps));
    }
  }

  // ---------- where things come from ----------

  ghost predicate NamedIn(m: Mpc, id: string) {
    exists r :: IsMatch(m, r) && Names(MatchAt(m, r), id)
  }

  /** Batches join two different ids, both accepted by the committee. */
  ghost predicate BatchesOk(m: Mpc, accepted: set<string>) {
    forall r | IsMatch(m, r) ::
      var x := MatchAt(m, r); x.intentA in accepted && x.intentB in accepted && x.intentA != x.intentB
  }

  /** Jobs are matches of batches, and so is what the settler looks at. */
  ghost predicate SettlerOk(m: Mpc, s: Settling) {
    && (forall r | r in m.jobs :: IsMatch(m, r) && m.jobs[r] == MatchAt(m, r))
    && (s.Looking? ==> IsMatch(m, s.r))
  }

  /** Matched status, given or to be given, comes from a batch. */
  ghost predicate StatusesOk(m: Mpc, marks: map<string, seq<(string, string)>>) {
    && (forall id | id in m.statuses && m.statuses[id] :: NamedIn(m, id))
    && (forall b, k | b in marks && 0 <= k < |marks[b]| :: NamedIn(m, marks[b][k].0))
  }

  /** Sessions hold accepted ids. */
  ghost predicate SessionsOk(m: Memory, accepted: set<string>) {
    m.gathering.Keys <= accepted && forall n | n in m.rounds :: m.rounds[n].Keys <= accepted
  }

  predicate CarriesShares(q: Traffic, id: string) {
    id in q.bodies && q.bodies[id].shares
  }

  /** Rows belong to posted hashes; what comes or came to the committee was submitted directly or was
      posted with shares. */
  ghost predicate RequestsOk(q: Traffic, intents: map<string, IntentRow>) {
    && (forall h | h in intents :: h in q.bodies)
    && (forall id | id in q.accepted :: id in q.direct || CarriesShares(q, id))
    && (forall id | id in q.arriving :: CarriesShares(q, id))
  }

  /** Settlements name intents; an acceptance is of a quote for the intent it names. */
  ghost predicate RowsOk(r: Rfq) {
    && (forall x | x in r.settlements :: x.intentHash in r.intents)
    && (forall q | q in r.acceptances :: q in r.quotes && r.quotes[q].intentHash == r.acceptances[q])
  }

  ghost predicate Grounded(t: Tables) {
    && BatchesOk(t.mpc, t.traffic.accepted) && SettlerOk(t.mpc, t.memory.settler) && StatusesOk(t.mpc, t.memory.marks)
    && SessionsOk(t.memory, t.traffic.accepted) && RequestsOk(t.traffic, t.rfq.intents) && RowsOk(t.rfq)
  }

  lemma {:induction false} NamedStays(m: Mpc, n: Mpc, id: string)
    requires NamedIn(m, id) && MpcGrows(m, n)
    ensures NamedIn(n, id)
  {
    var r :| IsMatch(m, r) && Names(MatchAt(m, r), id);
    assert IsMatch(n, r) && MatchAt(n, r) == MatchAt(m, r);
  }

  /** Where a match of a new batch comes from. */
  lemma {:induction false} NewMatch(t: Tables, step: Step, r: MatchRef)
    requires IsMatch(NextMpc(t, step), r) && !IsMatch(t.mpc, r)
    ensures step.PersistStep? && step.n in t.memory.rounds
    ensures Joins(t.memory.rounds[step.n], MatchAt(NextMpc(t, step), r))
  {
    assert step.PersistStep? && r.batchId == step.batchId;
  }

  lemma {:induction false} StepBatches(t: Tables, step: Step)
    requires BatchesOk(t.mpc, t.traffic.accepted) && SessionsOk(t.memory, t.traffic.accepted)
    ensures BatchesOk(NextMpc(t, step), NextTraffic(t, step).accepted)
  {
    StepTrafficGrows(t, step);
    StepMpcGrows(t, step);
    var m := NextMpc(t, step);
    forall r | IsMatch(m, r)
      ensures var x := MatchAt(m, r);
              x.intentA in t.traffic.accepted && x.intentB in t.traffic.accepted && x.intentA != x.intentB
    {
      if IsMatch(t.mpc, r) {
        assert MatchAt(m, r) == MatchAt(t.mpc, r);
      } else {
        NewMatch(t, step, r);
      }
    }
  }

  /** What the settler may be at after a step. */
  lemma {:induction false} SettlerMoves(t: Tables, step: Step)
    ensures var s := NextMemory(t, step).settler;
            s.Looking? ==> (t.memory.settler.Looking? && t.memory.settler.r == s.r) || IsMatch(t.mpc, s.r)
  {
  }

  /** Which jobs there are after a step. */
  lemma {:induction false} JobsMove(t: Tables, step: Step, r: MatchRef)
    requires r in NextMpc(t, step).jobs && r !in t.mpc.jobs
    ensures t.memory.settler == Looking(r, true, true) && IsMatch(t.mpc, r)
    ensures NextMpc(t, step).jobs[r] == MatchAt(t.mpc, r)
  {
  }

  lemma {:induction false} StepSettler(t: Tables, step: Step)
    requires SettlerOk(t.mpc, t.memory.settler)
    ensures SettlerOk(NextMpc(t, step), NextMemory(t, step).settler)
  {
    var m := NextMpc(t, step);
    StepMpcGrows(t, step);
    SettlerMoves(t, step);
    forall r | r in m.jobs ensures IsMatch(t.mpc, r) && m.jobs[r] == MatchAt(t.mpc, r) {
      if r !in t.mpc.jobs { JobsMove(t, step, r); }
    }
  }

  /** A mark still to be made was so before, or is one of a batch just persisted. */
  lemma {:induction false} MarksMove(t: Tables, step: Step, b: string, k: nat)
    requires b in NextMemory(t, step).marks && k < |NextMemory(t, step).marks[b]|
    ensures var p := NextMemory(t, step).marks[b][k];
            || (b in t.memory.marks && exists j :: 0 <= j < |t.memory.marks[b]| && t.memory.marks[b][j] == p)
            || (step.PersistStep? && step.batchId == b && Persists(t, step.n, b, step.matches)
                && k < 2 * |step.matches| && PairsOf(step.matches)[k] == p)
  {
    var p := NextMemory(t, step).marks[b][k];
    if step.MarkStep? && b == step.batchId && HasMark(t.memory, b) {
      assert t.memory.marks[b][k + 1] == p;
    } else if !(step.PersistStep? && b == step.batchId && Persists(t, step.n, b, step.matches)) {
      assert t.memory.marks[b][k] == p;
    }
  }

  lemma {:induction false} NewMarkIsNamed(t: Tables, step: Step, k: nat)
    requires step.PersistStep? && Persists(t, step.n, step.batchId, step.matches) && k < 2 * |step.matches|
    ensures NamedIn(NextMpc(t, step), PairsOf(step.matches)[k].0)
  {
    var r := MatchRef(step.batchId, k / 2);
    assert IsMatch(NextMpc(t, step), r) && MatchAt(NextMpc(t, step), r) == step.matches[k / 2];
  }

  lemma {:induction false} NewStatus(t: Tables, step: Step, id: string)
    requires id in NextMpc(t, step).statuses && NextMpc(t, step).statuses[id]
    requires !(id in t.mpc.statuses && t.mpc.statuses[id])
    ensures step.MarkStep? && HasMark(t.memory, step.batchId) && t.memory.marks[step.batchId][0].0 == id
  {
  }

  lemma {:induction false} StepStatuses(t: Tables, step: Step)
    requires StatusesOk(t.mpc, t.memory.marks)
    ensures StatusesOk(NextMpc(t, step), NextMemory(t, step).marks)
  {
    var m := NextMpc(t, step);
    var marks: map<string, seq<(string, string)>> := NextMemory(t, step).marks;
    StepMpcGrows(t, step);
    forall id | id in m.statuses && m.statuses[id] ensures NamedIn(m, id) {
      if !(id in t.mpc.statuses && t.mpc.statuses[id]) { NewStatus(t, step, id); }
      NamedStays(t.mpc, m, id);
    }
    forall b: string, k: nat | b in marks && k < |marks[b]| ensures NamedIn(m, marks[b][k].0) {
      MarksMove(t, step, b, k);
      if b in t.memory.marks && exists j :: 0 <= j < |t.memory.marks[b]| && t.memory.marks[b][j] == marks[b][k] {
        NamedStays(t.mpc, m, marks[b][k].0);
      } else {
        NewMarkIsNamed(t, step, k);
      }
    }
  }

  lemma {:induction false} StepSessions(t: Tables, step: Step)
    requires SessionsOk(t.memory, t.traffic.accepted)
    ensures SessionsOk(NextMemory(t, step), NextTraffic(t, step).accepted)
  {
  }

  /** Only a post gives an id a row. */
  lemma {:induction false} NewRow(t: Tables, step: Step, id: string)
    requires id in NextRfq(t, step).intents && id !in t.rfq.intents
    ensures step.PostIntentStep? && step.hash == id && OneBody(t.traffic, id, step.body)
  {
  }

  lemma {:induction false} NewlyAccepted(t: Tables, step: Step, id: string)
    requires id in NextTraffic(t, step).accepted && id !in t.traffic.accepted
    ensures id in NextTraffic(t, step).direct || id in t.traffic.arriving
  {
  }

  lemma {:induction false} NewlyArriving(t: Tables, step: Step, id: string)
    requires id in NextTraffic(t, step).arriving && id !in t.traffic.arriving
    ensures CarriesShares(NextTraffic(t, step), id) && step.PostIntentStep? && step.hash == id
  {
  }

  lemma {:induction false} StepRequests(t: Tables, step: Step)
    requires RequestsOk(t.traffic, t.rfq.intents)
    ensures RequestsOk(NextTraffic(t, step), NextRfq(t, step).intents)
  {
    StepTrafficGrows(t, step);
    var q := NextTraffic(t, step);
    forall h | h in NextRfq(t, step).intents ensures h in q.bodies {
      if h !in t.rfq.intents { NewRow(t, step, h); }
    }
    forall id | id in q.accepted ensures id in q.direct || CarriesShares(q, id) {
      if id !in t.traffic.accepted { NewlyAccepted(t, step, id); }
    }
    forall id | id in q.arriving ensures CarriesShares(q, id) {
      if id !in t.traffic.arriving { NewlyArriving(t, step, id); }
    }
  }

  lemma {:induction false} NewSettlement(t: Tables, step: Step, x: SettlementId)
    requires x in NextRfq(t, step).settlements && x !in t.rfq.settlements
    ensures step.SettleStep? && step.request.id == x && CheckSettle(t.rfq, t.mpc.statuses, step.request) == Accepted
    ensures NextRfq(t, step).settlements[x] == step.request.proofJob
  {
  }

  lemma {:induction false} NewAcceptance(t: Tables, step: Step, q: string)
    requires q in NextRfq(t, step).acceptances && q !in t.rfq.acceptances
    ensures q in t.rfq.quotes && t.rfq.quotes[q].intentHash == NextRfq(t, step).acceptances[q]
  {
  }

  lemma {:induction false} StepRows(t: Tables, step: Step)
    requires RowsOk(t.rfq)
    ensures RowsOk(NextRfq(t, step))
  {
    var r := NextRfq(t, step);
    StepRfqGrows(t, step);
    forall x | x in r.settlements ensures x.intentHash in r.intents {
      if x !in t.rfq.settlements { NewSettlement(t, step, x); }
    }
    forall q | q in r.acceptances ensures q in r.quotes && r.quotes[q].intentHash == r.acceptances[q] {
      if q !in t.rfq.acceptances { NewAcceptance(t, step, q); }
    }
  }

  lemma {:induction false} StepGrounded(t: Tables, step: Step)
    requires Grounded(t)
    ensures Grounded(Next(t, step))
  {
    StepBatches(t, step);
    StepSettler(t, step);
    StepStatuses(t, step);
    StepSessions(t, step);
    StepRequests(t, step);
    StepRows(t, step);
  }

  lemma {:induction false} RunGroundedFrom(t: Tables, steps: seq<Step>)
    requires Grounded(t)
    ensures Grounded(Reached(t, steps))
  {
    if steps != [] {
      RunGroundedFrom(t, steps[..|steps| - 1]);
      StepGrounded(Reached(t, steps[..|steps| - 1]), steps[|steps| - 1]);
    }
  }

  lemma {:induction false} RunGrounded(steps: seq<Step>)
    ensures Grounded(Reached(EMPTY, steps))
  {
    assert Grounded(EMPTY);
    RunGroundedFrom(EMPTY, steps);
  }

  // ---------- the two settlement paths ----------

  ghost predicate HasJob(m: Mpc, id: string) {
    exists r :: r in m.jobs && Names(m.jobs[r], id)
  }

  ghost predicate HasSettlement(r: Rfq, id: string) {
    exists x :: x in r.settlements && x.intentHash == id
  }

  /** The id has a settler job and an RFQ settlement. */
  ghost predicate SettledTwice(t: Tables, id: string) {
    HasJob(t.mpc, id) && HasSettlement(t.rfq, id)
  }

  /** The committee has accepted the id while there is no intent row for it. */
  ghost predicate Rowless(t: Tables, id: string) {
    id in t.traffic.accepted && id !in t.rfq.intents
  }

  /** The settler has found the side without a row, or has queued the match's job. */
  ghost predicate Passed(t: Tables, r: MatchRef, second: bool) {
    || r in t.mpc.jobs
    || (t.memory.settler.Looking? && t.memory.settler.r == r
        && if second then t.memory.settler.sawB else t.memory.settler.sawA)
  }

  /** The settler passes a side only while that side has no row. */
  lemma {:induction false} PassedWasRowless(t: Tables, step: Step, r: MatchRef, second: bool)
    requires Grounded(t) && !Passed(t, r, second) && Passed(Next(t, step), r, second)
    ensures IsMatch(t.mpc, r) && Rowless(t, Side(MatchAt(t.mpc, r), second))
  {
    if r in NextMpc(t, step).jobs {
      JobsMove(t, step, r);
    } else {
      assert step == LookUpStep(second) && t.memory.settler.r == r;
    }
  }

  lemma {:induction false} PassedHistory(steps: seq<Step>, r: MatchRef, second: bool) returns (k: nat)
    requires Passed(Reached(EMPTY, steps), r, second)
    ensures k < |steps| && IsMatch(Reached(EMPTY, steps[..k]).mpc, r)
    ensures var t := Reached(EMPTY, steps[..k]); Rowless(t, Side(MatchAt(t.mpc, r), second))
  {
    var n := |steps| - 1;
    var before := steps[..n];
    if Passed(Reached(EMPTY, before), r, second) {
      k := PassedHistory(before, r, second);
      assert steps[..k] == before[..k];
    } else {
      RunGrounded(before);
      PassedWasRowless(Reached(EMPTY, before), steps[n], r, second);
      k := n;
    }
  }

  /** An id settled on both paths was rowless at some moment before. */
  lemma {:induction false} SettledTwiceWasRowless(steps: seq<Step>, id: string) returns (k: nat)
    requires SettledTwice(Reached(EMPTY, steps), id)
    ensures k < |steps| && Rowless(Reached(EMPTY, steps[..k]), id)
  {
    var t := Reached(EMPTY, steps);
    RunGrounded(steps);
    var r :| r in t.mpc.jobs && Names(t.mpc.jobs[r], id);
    k := PassedHistory(steps, r, t.mpc.jobs[r].intentA != id);
    RunGrows(EMPTY, steps, k);
    assert MatchAt(Reached(EMPTY, steps[..k]).mpc, r) == MatchAt(t.mpc, r);
  }

  // ---------- the guards ----------

  /** No hash is both posted and submitted directly. */
  ghost predicate NoDirectRfq(t: Tables, step: Step) {
    && (step.DirectStep? ==> step.id !in t.traffic.bodies)
    && (step.PostIntentStep? ==> step.hash !in t.traffic.direct)
  }

  /** An idempotency key is not reused for another intent. */
  ghost predicate KeyFits(t: Tables, step: Step) {
    step.PostIntentStep? ==> step.hash in t.rfq.intents || !KeyUsed(t.rfq, step.key)
  }

  /** What the committee accepted has an intent row or came directly, and the two never meet. */
  ghost predicate Separated(t: Tables) {
    && (forall id | id in t.traffic.bodies :: id in t.rfq.intents && id !in t.traffic.direct)
    && (forall id | id in t.traffic.accepted :: id in t.rfq.intents || id in t.traffic.direct)
  }

  lemma {:induction false} PostedHasRow(t: Tables, step: Step)
    requires step.PostIntentStep? && OneBody(t.traffic, step.hash, step.body) && KeyFits(t, step)
    ensures step.hash in NextRfq(t, step).intents
  {
  }

  lemma {:induction false} BodiesSeparated(t: Tables, step: Step, id: string)
    requires Separated(t) && NoDirectRfq(t, step) && KeyFits(t, step) && id in NextTraffic(t, step).bodies
    ensures id in NextRfq(t, step).intents && id !in NextTraffic(t, step).direct
  {
    StepRfqGrows(t, step);
    if id !in t.traffic.bodies { PostedHasRow(t, step); }
  }

  lemma {:induction false} StepSeparated(t: Tables, step: Step)
    requires Separated(t) && RequestsOk(t.traffic, t.rfq.intents) && NoDirectRfq(t, step) && KeyFits(t, step)
    ensures Separated(Next(t, step))
  {
    StepRfqGrows(t, step);
    StepTrafficGrows(t, step);
    var q := NextTraffic(t, step);
    forall id | id in q.bodies ensures id in NextRfq(t, step).intents && id !in q.direct {
      BodiesSeparated(t, step, id);
    }
    forall id | id in q.accepted && id !in t.traffic.accepted ensures id in t.rfq.intents || id in q.direct {
      NewlyAccepted(t, step, id);
    }
  }

  ghost predicate Guarded(steps: seq<Step>) {
    forall k | 0 <= k < |steps| ::
      NoDirectRfq(Reached(EMPTY, steps[..k]), steps[k]) && KeyFits(Reached(EMPTY, steps[..k]), steps[k])
  }

  lemma {:induction false} GuardedSeparated(steps: seq<Step>, k: nat)
    requires Guarded(steps) && k <= |steps|
    ensures Separated(Reached(EMPTY, steps[..k]))
  {
    if k > 0 {
      GuardedSeparated(steps, k - 1);
      assert steps[..k][..k - 1] == steps[..k - 1];
      RunGrounded(steps[..k - 1]);
      StepSeparated(Reached(EMPTY, steps[..k - 1]), steps[k - 1]);
    }
  }

  /** Rowless ids stay rowless in a guarded run. */
  lemma {:induction false} RowlessStays(steps: seq<Step>, k: nat, id: string)
    requires Guarded(steps) && k <= |steps| && Rowless(Reached(EMPTY, steps[..k]), id)
    ensures id !in Reached(EMPTY, steps).rfq.intents
  {
    assert steps[..|steps|] == steps;
    GuardedSeparated(steps, k);
    GuardedSeparated(steps, |steps|);
    RunGrounded(steps);
    RunGrows(EMPTY, steps, k);
  }

  /** With both guards, no intent ever has both a settler job and an RFQ settlement. */
  lemma {:induction false} PathsExcludeEachOther(steps: seq<Step>, id: string)
    requires Guarded(steps)
    ensures !SettledTwice(Reached(EMPTY, steps), id)
  {
    RunGrounded(steps);
    if SettledTwice(Reached(EMPTY, steps), id) {
      var k := SettledTwiceWasRowless(steps, id);
      RowlessStays(steps, k, id);
      assert false;
    }
  }

  /** With both guards, whether a matched id is RFQ-routed never changes after its batch is there. */
  lemma {:induction false} RoutingIsStable(steps: seq<Step>, k: nat, id: string)
    requires Guarded(steps) && k <= |steps| && NamedIn(Reached(EMPTY, steps[..k]).mpc, id)
    ensures id in Reached(EMPTY, steps[..k]).rfq.intents <==> id in Reached(EMPTY, steps).rfq.intents
  {
    RunGrounded(steps[..k]);
    RunGrows(EMPTY, steps, k);
    var t := Reached(EMPTY, steps[..k]);
    var r :| IsMatch(t.mpc, r) && Names(MatchAt(t.mpc, r), id);
    if id !in t.rfq.intents { RowlessStays(steps, k, id); }
  }

  // ---------- the settle handler ----------

  ghost predicate IsLatest(fills: seq<FillRow>, quoteId: string, i: nat) {
    && i < |fills| && fills[i].quoteId == quoteId
    && forall j | i < j < |fills| :: fills[j].quoteId != quoteId
  }

  lemma {:induction false} LatestFillExact(fills: seq<FillRow>, quoteId: string)
    ensures LatestFill(fills, quoteId).None? <==> forall i | 0 <= i < |fills| :: fills[i].quoteId != quoteId
    ensures LatestFill(fills, quoteId).Some? ==>
              exists i: nat :: IsLatest(fills, quoteId, i) && fills[i] == LatestFill(fills, quoteId).value
  {
    NoFill(fills, quoteId);
    if LatestFill(fills, quoteId).Some? { var i := FindLatest(fills, quoteId); }
  }

  lemma {:induction false} NoFill(fills: seq<FillRow>, quoteId: string)
    ensures LatestFill(fills, quoteId).None? <==> forall i | 0 <= i < |fills| :: fills[i].quoteId != quoteId
  {
    if fills != [] {
      var n := |fills| - 1;
      NoFill(fills[..n], quoteId);
      assert forall i | 0 <= i < n :: fills[..n][i] == fills[i];
    }
  }

  lemma {:induction false} FindLatest(fills: seq<FillRow>, quoteId: string) returns (i: nat)
    requires LatestFill(fills, quoteId).Some?
    ensures IsLatest(fills, quoteId, i) && fills[i] == LatestFill(fills, quoteId).value
  {
    i := |fills| - 1;
    if fills[i].quoteId != quoteId {
      i := FindLatest(fills[..i], quoteId);
    }
  }

  lemma {:induction false} LatestFillUnique(fills: seq<FillRow>, quoteId: string, i: nat)
    requires IsLatest(fills, quoteId, i)
    ensures LatestFill(fills, quoteId) == Some(fills[i])
  {
    LatestFillExact(fills, quoteId);
    var j: nat :| IsLatest(fills, quoteId, j) && fills[j] == LatestFill(fills, quoteId).value;
    assert !(i < j) && !(j < i);
  }

  /** The intent is the user's or nobody's. */
  ghost predicate Owns(r: Rfq, h: string, user: string) {
    h in r.intents && (r.intents[h].owner.None? || r.intents[h].owner.value == user)
  }

  /** Everything a settlement needs at the moment it is requested. */
  ghost predicate Settleable(r: Rfq, statuses: map<string, bool>, q: SettleRequest) {
    && q.healthy
    && Owns(r, q.id.intentHash, q.user)
    && q.id.quoteId in r.quotes && r.quotes[q.id.quoteId].intentHash == q.id.intentHash
    && q.id.quoteId in r.acceptances
    && (exists i: nat :: IsLatest(r.fills, q.id.quoteId, i) && FillServes(r.fills[i], q.receipt))
    && q.proofJob in r.proofs && r.proofs[q.proofJob]
    && q.id.nullifier !in r.spent
    && (r.intents[q.id.intentHash].session.Some? ==> q.id.intentHash in statuses && statuses[q.id.intentHash])
  }

  ghost predicate FillServes(f: FillRow, receipt: Option<string>) {
    f.executed && (receipt.None? || receipt.value == "" || f.receipt == receipt.value)
  }

  lemma {:induction false} LatestServes(fills: seq<FillRow>, quoteId: string, receipt: Option<string>)
    ensures (exists i: nat :: IsLatest(fills, quoteId, i) && FillServes(fills[i], receipt)) <==>
              LatestFill(fills, quoteId).Some? && FillServes(LatestFill(fills, quoteId).value, receipt)
  {
    LatestFillExact(fills, quoteId);
    if i: nat :| IsLatest(fills, quoteId, i) && FillServes(fills[i], receipt) {
      LatestFillUnique(fills, quoteId, i);
    }
  }

  /** The row can be inserted: the request carries no receipt, and a fill it names exists. */
  ghost predicate Insertable(r: Rfq, q: SettleRequest) {
    q.receipt.None? && (q.id in r.settlements || q.fill.None? || FillExists(r.fills, q.fill.value.0, q.fill.value.1))
  }

  /** The handler accepts exactly the requests with their whole support, on the quote's latest fill, whose
      row can be inserted, and fails exactly for those whose row cannot; it answers not found and
      forbidden for a missing intent or quote and another owner only. */
  lemma {:induction false} SettleAcceptedIff(r: Rfq, statuses: map<string, bool>, q: SettleRequest)
    ensures Settle(r, statuses, q).1 == Accepted <==> Settleable(r, statuses, q) && Insertable(r, q)
    ensures Settle(r, statuses, q).1 == Failed <==> Settleable(r, statuses, q) && !Insertable(r, q)
    ensures Settle(r, statuses, q).0
         == if Settle(r, statuses, q).1 == Accepted && q.id !in r.settlements
            then r.(settlements := r.settlements[q.id := q.proofJob]) else r
    ensures Settle(r, statuses, q).1 == Forbidden <==>
              q.healthy && q.id.intentHash in r.intents && !Owns(r, q.id.intentHash, q.user)
    ensures Settle(r, statuses, q).1 == NotFound <==>
              q.healthy && (q.id.intentHash !in r.intents
                            || (Owns(r, q.id.intentHash, q.user) && q.id.quoteId !in r.quotes))
  {
    LatestServes(r.fills, q.id.quoteId, q.receipt);
  }

  // ---------- support of a settlement ----------

  /** What the settle handler found when it accepted a settlement. */
  ghost predicate Supported(t: Tables, x: SettlementId, proofJob: string) {
    && x.intentHash in t.rfq.intents
    && x.quoteId in t.rfq.quotes && t.rfq.quotes[x.quoteId].intentHash == x.intentHash
    && x.quoteId in t.rfq.acceptances && t.rfq.acceptances[x.quoteId] == x.intentHash
    && ExecutedFillOf(t.rfq.fills, x.quoteId)
    && proofJob in t.rfq.proofs && t.rfq.proofs[proofJob]
    && x.nullifier !in t.rfq.spent
    && (t.rfq.intents[x.intentHash].session.Some? ==> NamedIn(t.mpc, x.intentHash))
  }

  ghost predicate ExecutedFillOf(fills: seq<FillRow>, quoteId: string) {
    exists i :: 0 <= i < |fills| && fills[i].quoteId == quoteId && fills[i].executed
  }

  lemma {:induction false} AcceptedIsSupported(t: Tables, q: SettleRequest)
    requires Grounded(t) && CheckSettle(t.rfq, t.mpc.statuses, q) == Accepted
    ensures Supported(t, q.id, q.proofJob)
  {
    assert LatestFill(t.rfq.fills, q.id.quoteId).value in t.rfq.fills;
  }

  /** Every settlement row was inserted in a state with its whole support. */
  lemma {:induction false} EverySettlementWasSupported(steps: seq<Step>, x: SettlementId) returns (k: nat)
    requires x in Reached(EMPTY, steps).rfq.settlements
    ensures k < |steps| && x !in Reached(EMPTY, steps[..k]).rfq.settlements
    ensures x in NextRfq(Reached(EMPTY, steps[..k]), steps[k]).settlements
    ensures Supported(Reached(EMPTY, steps[..k]), x, Reached(EMPTY, steps).rfq.settlements[x])
  {
    var n := |steps| - 1;
    var before := steps[..n];
    var t := Reached(EMPTY, before);
    if x in t.rfq.settlements {
      k := EverySettlementWasSupported(before, x);
      assert steps[..k] == before[..k];
      StepRfqGrows(t, steps[n]);
    } else {
      RunGrounded(before);
      k := n;
      NewSettlement(t, steps[n], x);
      AcceptedIsSupported(t, steps[n].request);
    }
  }

  /** The intent, the quote, its acceptance and an executed fill stay for ever after. */
  lemma {:induction false} SupportStays(steps: seq<Step>, x: SettlementId)
    requires x in Reached(EMPTY, steps).rfq.settlements
    ensures var r := Reached(EMPTY, steps).rfq;
            && x.intentHash in r.intents
            && x.quoteId in r.quotes && r.quotes[x.quoteId].intentHash == x.intentHash
            && x.quoteId in r.acceptances && r.acceptances[x.quoteId] == x.intentHash
            && ExecutedFillOf(r.fills, x.quoteId)
  {
    var k := EverySettlementWasSupported(steps, x);
    RunGrows(EMPTY, steps, k);
    var f, g := Reached(EMPTY, steps[..k]).rfq.fills, Reached(EMPTY, steps).rfq.fills;
    var i :| 0 <= i < |f| && f[i].quoteId == x.quoteId && f[i].executed;
    assert g[i].quoteId == x.quoteId && g[i].executed;
  }
}
