/** When the two settlement paths can meet: exactly the states from which a run that keeps both
    guards can still give one id a settler job and an RFQ settlement. */
module SettlementPaths {
  import opened JsMap
  import opened Netting
  import opened Settlement
  import opened SettlementProofs

  ghost predicate Guards(t: Tables, step: Step) {
    NoDirectRfq(t, step) && KeyFits(t, step)
  }

  ghost predicate GuardedFrom(t: Tables, steps: seq<Step>) {
    forall k | 0 <= k < |steps| :: Guards(Reached(t, steps[..k]), steps[k])
  }

  // ---------- exposed ids ----------

  /** An id that a batch can still name beside another without a row, whose direction meets its own. */
  ghost predicate Waiting(t: Tables, id: string) {
    || id in t.traffic.arriving
    || id in t.memory.gathering
    || exists n, other :: n in t.memory.rounds && WaitsBeside(t, n, id, other)
  }

  ghost predicate WaitsBeside(t: Tables, n: nat, id: string, other: string)
    requires n in t.memory.rounds
  {
    var ids := t.memory.rounds[n];
    && id in ids && other in ids && other != id && other !in t.rfq.intents
    && (Meet(ids[id], ids[other]) || Meet(ids[other], ids[id]))
  }

  /** A match of the id neither side of which has a row. */
  ghost predicate RowlessMatch(t: Tables, r: MatchRef, id: string) {
    && IsMatch(t.mpc, r) && Names(MatchAt(t.mpc, r), id)
    && MatchAt(t.mpc, r).intentA !in t.rfq.intents && MatchAt(t.mpc, r).intentB !in t.rfq.intents
  }

  /** The settler is at a match of the id and can still find both sides without a row. */
  ghost predicate Passing(t: Tables, id: string) {
    var s := t.memory.settler;
    && s.Looking? && IsMatch(t.mpc, s.r) && Names(MatchAt(t.mpc, s.r), id)
    && (s.sawA || MatchAt(t.mpc, s.r).intentA !in t.rfq.intents)
    && (s.sawB || MatchAt(t.mpc, s.r).intentB !in t.rfq.intents)
  }

  ghost predicate Exposed(t: Tables, id: string) {
    || (id !in t.rfq.intents && Waiting(t, id))
    || (exists r :: RowlessMatch(t, r, id))
    || Passing(t, id)
    || HasJob(t.mpc, id)
  }

  // ---------- putting runs together ----------

  /** Some run that keeps both guards leads from one state to the other. */
  ghost predicate Leads(t: Tables, u: Tables) {
    exists steps :: GuardedFrom(t, steps) && Reached(t, steps) == u
  }

  type Reach = (Tables, Tables) -> bool

  /** What the runs below need of reachability: it has the empty run, a guarded step may come first, and
      runs can be joined. */
  ghost predicate Reaches(R: Reach) {
    && (forall t :: R(t, t))
    && (forall t, step, u :: Guards(t, step) && R(Next(t, step), u) ==> R(t, u))
    && (forall t, u, v :: R(t, u) && R(u, v) ==> R(t, v))
  }

  lemma {:induction false} First(R: Reach, t: Tables, step: Step, u: Tables, v: Tables)
    requires Reaches(R) && Guards(t, step) && u == Next(t, step) && R(u, v)
    ensures R(t, v)
  {
  }

  lemma {:induction false} Join(t: Tables, a: seq<Step>, b: seq<Step>)
    ensures Reached(t, a + b) == Reached(Reached(t, a), b)
  {
    if b == [] {
      assert a + b == a;
    } else {
      var n := |b| - 1;
      Join(t, a, b[..n]);
      assert (a + b)[..|a + b| - 1] == a + b[..n];
    }
  }

  lemma {:induction false} JoinGuarded(t: Tables, a: seq<Step>, b: seq<Step>)
    requires GuardedFrom(t, a) && GuardedFrom(Reached(t, a), b)
    ensures GuardedFrom(t, a + b)
  {
    forall k | 0 <= k < |a + b| ensures Guards(Reached(t, (a + b)[..k]), (a + b)[k]) {
      if k < |a| {
        assert (a + b)[..k] == a[..k];
      } else {
        assert (a + b)[..k] == a + b[..k - |a|];
        Join(t, a, b[..k - |a|]);
      }
    }
  }

  lemma {:induction false} Chain(t: Tables, u: Tables, v: Tables)
    requires Leads(t, u) && Leads(u, v)
    ensures Leads(t, v)
  {
    var a :| GuardedFrom(t, a) && Reached(t, a) == u;
    var b :| GuardedFrom(u, b) && Reached(u, b) == v;
    Join(t, a, b);
    JoinGuarded(t, a, b);
  }

  lemma {:induction false} One(t: Tables, step: Step)
    requires Guards(t, step)
    ensures Leads(t, Next(t, step))
  {
    assert [step][..0] == [];
    assert GuardedFrom(t, [step]) && Reached(t, [step]) == Next(t, step);
  }

  lemma {:induction false} GuardedRunsReach()
    ensures Reaches((t, u) => Leads(t, u))
  {
    forall t ensures Leads(t, t) { assert GuardedFrom(t, []) && Reached(t, []) == t; }
    forall t, step, u | Guards(t, step) && Leads(Next(t, step), u) ensures Leads(t, u) {
      One(t, step);
      Chain(t, Next(t, step), u);
    }
    forall t, u, v | Leads(t, u) && Leads(u, v) ensures Leads(t, v) { Chain(t, u, v); }
  }

  lemma {:induction false} LeadsOn(t: Tables, u: Tables)
    requires Leads(t, u)
    ensures Grows(t, u) && (Grounded(t) ==> Grounded(u))
  {
    var steps :| GuardedFrom(t, steps) && Reached(t, steps) == u;
    assert steps[..0] == [];
    RunGrows(t, steps, 0);
    if Grounded(t) { RunGroundedFrom(t, steps); }
  }

  lemma {:induction false} LongerThanAll(names: set<string>) returns (name: string)
    ensures name !in names && forall x | x in names :: |x| < |name|
    decreases |names|
  {
    if names == {} {
      name := "x";
    } else {
      var x :| x in names;
      var other := LongerThanAll(names - {x});
      name := other + x + "x";
      forall y | y in names ensures |y| < |name| {
        if y != x { assert y in names - {x}; }
      }
    }
  }

  lemma {:induction false} LargerThanAll(s: set<nat>) returns (n: nat)
    ensures n !in s && forall x | x in s :: x < n
    decreases |s|
  {
    if s == {} {
      n := 0;
    } else {
      var x :| x in s;
      var m := LargerThanAll(s - {x});
      n := m + x + 1;
      forall y | y in s ensures y < n {
        if y != x { assert y in s - {x}; }
      }
    }
  }

  // ---------- a waiting id can be matched ----------

  /** What a run leaves as it is: the rows, and the id's not having been submitted directly. */
  ghost predicate KeepsRows(t: Tables, u: Tables, id: string) {
    u.rfq == t.rfq && (id !in t.traffic.direct ==> id !in u.traffic.direct)
  }

  /** A batch of one match joins the id and another without a row, and its marks are still to be made. */
  ghost predicate MatchedBeside(t: Tables, r: MatchRef, id: string) {
    && IsMatch(t.mpc, r) && Names(MatchAt(t.mpc, r), id)
    && var x := MatchAt(t.mpc, r);
       && x.intentA in t.traffic.accepted && x.intentB in t.traffic.accepted && x.intentA != x.intentB
       && (x.intentA == id || x.intentA !in t.rfq.intents) && (x.intentB == id || x.intentB !in t.rfq.intents)
       && r.batchId in t.memory.marks
       && t.memory.marks[r.batchId] == [(x.intentA, x.intentB), (x.intentB, x.intentA)]
  }

  /** The round of an id beside another rowless one can end with their match. */
  lemma {:induction false} RoundGetsMatched(R: Reach, t: Tables, n: nat, id: string, other: string)
    returns (u: Tables, r: MatchRef)
    requires Reaches(R)
    requires n in t.memory.rounds && WaitsBeside(t, n, id, other)
    requires id in t.traffic.accepted && other in t.traffic.accepted
    ensures R(t, u) && MatchedBeside(u, r, id) && KeepsRows(t, u, id)
  {
    var batchId := LongerThanAll(t.mpc.batches.Keys);
    var ids := t.memory.rounds[n];
    var (a, b) := if Meet(ids[id], ids[other]) then (id, other) else (other, id);
    var m := MatchResult(a, b, 1, AssetsOf(ids[a]).0, AssetsOf(ids[a]).1);
    assert Joins(ids, m);
    PairPersists(t, n, batchId, m);
    u, r := Next(t, PersistStep(n, batchId, [m])), MatchRef(batchId, 0);
    First(R, t, PersistStep(n, batchId, [m]), u, u);
  }

  lemma {:induction false} PairPersists(t: Tables, n: nat, batchId: string, m: MatchResult)
    requires n in t.memory.rounds && batchId !in t.mpc.batches && Joins(t.memory.rounds[n], m)
    ensures var u, r := Next(t, PersistStep(n, batchId, [m])), MatchRef(batchId, 0);
            && u.rfq == t.rfq && u.traffic == t.traffic && IsMatch(u.mpc, r) && MatchAt(u.mpc, r) == m
            && batchId in u.memory.marks && u.memory.marks[batchId] == [(m.intentA, m.intentB), (m.intentB, m.intentA)]
  {
    assert PairsOf([m]) == [(m.intentA, m.intentB), (m.intentB, m.intentA)];
  }

  lemma {:induction false} TwoStart(t: Tables, n: nat, id: string, other: string, way: Way)
    requires n !in t.memory.rounds && id in t.memory.gathering && id != other && other !in t.rfq.intents
    requires Meet(t.memory.gathering[id], way)
    ensures var u := Next(Next(t, DirectStep(other, way)), StartStep(n));
            && n in u.memory.rounds && WaitsBeside(u, n, id, other) && u.rfq == t.rfq && u.mpc == t.mpc
            && u.traffic == SubmitDirect(t.traffic, other)
  {
    var g := t.memory.gathering[other := way];
    assert |{id, other}| == 2 && g.Keys == {id, other} + (g.Keys - {id, other}) && |g| == |g.Keys|;
  }

  /** The direction that the matcher nets a direction against. */
  function Counter(w: Way): (v: Way)
    ensures Meet(w, v)
  {
    Way(AssetsOf(w).1, AssetsOf(w).0)
  }

  /** An id in the open session can be matched with one submitted directly after it. */
  lemma {:induction false} GatheringGetsMatched(R: Reach, t: Tables, id: string) returns (u: Tables, r: MatchRef)
    requires Reaches(R)
    requires id in t.memory.gathering && id in t.traffic.accepted
    ensures R(t, u) && MatchedBeside(u, r, id) && KeepsRows(t, u, id)
  {
    var other := LongerThanAll(t.rfq.intents.Keys + t.traffic.bodies.Keys + {id});
    var n := LargerThanAll(t.memory.rounds.Keys);
    var way := Counter(t.memory.gathering[id]);
    TwoStart(t, n, id, other, way);
    var t1 := Next(t, DirectStep(other, way));
    var t2 := Next(t1, StartStep(n));
    u, r := RoundGetsMatched(R, t2, n, id, other);
    First(R, t1, StartStep(n), t2, u);
    First(R, t, DirectStep(other, way), t1, u);
  }

  lemma {:induction false} ArrivingGetsMatched(R: Reach, t: Tables, id: string) returns (u: Tables, r: MatchRef)
    requires Reaches(R)
    requires id in t.traffic.arriving && id in t.traffic.bodies
    ensures R(t, u) && MatchedBeside(u, r, id) && KeepsRows(t, u, id)
  {
    u, r := GatheringGetsMatched(R, Next(t, SendStep(id)), id);
    First(R, t, SendStep(id), Next(t, SendStep(id)), u);
  }

  lemma {:induction false} WaitingGetsMatched(R: Reach, t: Tables, id: string) returns (u: Tables, r: MatchRef)
    requires Reaches(R)
    requires SessionsOk(t.memory, t.traffic.accepted) && RequestsOk(t.traffic, t.rfq.intents) && Waiting(t, id)
    ensures R(t, u) && MatchedBeside(u, r, id) && KeepsRows(t, u, id)
  {
    if id in t.traffic.arriving {
      u, r := ArrivingGetsMatched(R, t, id);
    } else if id in t.memory.gathering {
      u, r := GatheringGetsMatched(R, t, id);
    } else {
      var n, other :| n in t.memory.rounds && WaitsBeside(t, n, id, other);
      u, r := RoundGetsMatched(R, t, n, id, other);
    }
  }

  // ---------- a rowless match gets its job ----------

  lemma {:induction false} LookUpGoes(t: Tables, id: string, second: bool)
    requires Passing(t, id) && !(if second then t.memory.settler.sawB else t.memory.settler.sawA)
    ensures var u, s := Next(t, LookUpStep(second)), t.memory.settler;
            && u == t.(memory := t.memory.(settler := Looking(s.r, s.sawA || !second, s.sawB || second)))
            && Passing(u, id)
  {
  }

  lemma {:induction false} EnqueueGoes(t: Tables, id: string)
    requires SettlerOk(t.mpc, t.memory.settler) && Passing(t, id) && t.memory.settler.sawA && t.memory.settler.sawB
    ensures HasJob(NextMpc(t, EnqueueStep), id)
  {
    var r, m := t.memory.settler.r, NextMpc(t, EnqueueStep);
    assert r in m.jobs && m.jobs[r] == MatchAt(t.mpc, r);
  }

  lemma {:induction false} PassingGetsJob(R: Reach, t: Tables, id: string) returns (u: Tables)
    requires Reaches(R)
    requires SettlerOk(t.mpc, t.memory.settler) && Passing(t, id)
    ensures R(t, u) && HasJob(u.mpc, id) && u.traffic == t.traffic
    decreases !t.memory.settler.sawA, !t.memory.settler.sawB
  {
    if !t.memory.settler.sawA || !t.memory.settler.sawB {
      var second := t.memory.settler.sawA;
      LookUpGoes(t, id, second);
      u := PassingGetsJob(R, Next(t, LookUpStep(second)), id);
      First(R, t, LookUpStep(second), Next(t, LookUpStep(second)), u);
    } else {
      u := Next(t, EnqueueStep);
      EnqueueGoes(t, id);
      First(R, t, EnqueueStep, u, u);
    }
  }

  lemma {:induction false} TakeUpGoes(t: Tables, r: MatchRef, id: string)
    requires t.memory.settler.Idle? && RowlessMatch(t, r, id)
    ensures var u := Next(t, TakeUpStep(r));
            u == t.(memory := t.memory.(settler := Looking(r, false, false))) && Passing(u, id)
  {
  }

  lemma {:induction false} RowlessMatchGetsJob(R: Reach, t: Tables, r: MatchRef, id: string) returns (u: Tables)
    requires Reaches(R)
    requires SettlerOk(t.mpc, t.memory.settler) && RowlessMatch(t, r, id)
    ensures R(t, u) && HasJob(u.mpc, id) && u.traffic == t.traffic
  {
    var t1 := Next(t, AbandonStep);
    assert t1 == t.(memory := t.memory.(settler := Idle));
    TakeUpGoes(t1, r, id);
    u := PassingGetsJob(R, Next(t1, TakeUpStep(r)), id);
    First(R, t1, TakeUpStep(r), Next(t1, TakeUpStep(r)), u);
    First(R, t, AbandonStep, t1, u);
  }

  lemma {:induction false} ExposedGetsJob(t: Tables, id: string) returns (u: Tables)
    requires Grounded(t) && Exposed(t, id) && id !in t.traffic.direct
    ensures Leads(t, u) && HasJob(u.mpc, id) && id !in u.traffic.direct
  {
    ghost var R := (t, u) => Leads(t, u);
    GuardedRunsReach();
    if HasJob(t.mpc, id) {
      u := t;
      assert R(t, t);
    } else if Passing(t, id) {
      u := PassingGetsJob(R, t, id);
    } else if r :| RowlessMatch(t, r, id) {
      u := RowlessMatchGetsJob(R, t, r, id);
    } else {
      var v, r := WaitingGetsMatched(R, t, id);
      LeadsOn(t, v);
      assert RowlessMatch(v, r, id);
      u := RowlessMatchGetsJob(R, v, r, id);
      Chain(t, v, u);
    }
  }

  // ---------- an id with shares can be settled by the RFQ lifecycle ----------

  ghost predicate Marked(m: Mpc, id: string) {
    id in m.statuses && m.statuses[id]
  }

  ghost function UserOf(row: IntentRow): string {
    if row.owner.Some? then row.owner.value else "user"
  }

  lemma {:induction false} FillGoes(fills: seq<FillRow>, q: string, receipt: string)
    requires forall i | 0 <= i < |fills| :: fills[i].quoteId != q
    ensures !FillExists(fills, q, receipt) && FillExists(fills + [FillRow(q, receipt, false)], q, receipt)
    ensures Executed(fills + [FillRow(q, receipt, false)], q, receipt) == fills + [FillRow(q, receipt, true)]
    ensures LatestFill(fills + [FillRow(q, receipt, true)], q) == Some(FillRow(q, receipt, true))
  {
    var f := fills + [FillRow(q, receipt, false)];
    assert f[|fills|].quoteId == q;
  }

  lemma {:induction false} UnusedQuote(r: Rfq) returns (q: string, h: string)
    ensures q !in r.quotes && !QuoteHashUsed(r, h) && forall i | 0 <= i < |r.fills| :: r.fills[i].quoteId != q
  {
    q := LongerThanAll(r.quotes.Keys + set f | f in r.fills :: f.quoteId);
    h := LongerThanAll(set k | k in r.quotes :: r.quotes[k].quoteHash);
  }

  /** The quote, its acceptance, its executed fill and a ready proof are there. */
  ghost predicate Served(r: Rfq, id: string, q: string, p: string) {
    && id in r.intents && q in r.quotes && r.quotes[q].intentHash == id && q in r.acceptances
    && LatestFill(r.fills, q) == Some(FillRow(q, "receipt", true)) && p in r.proofs && r.proofs[p]
  }

  /** An id with a row gets a quote of its own, accepted. */
  lemma {:induction false} GetsQuote(R: Reach, t: Tables, id: string) returns (u: Tables, q: string)
    requires Reaches(R)
    requires id in t.rfq.intents
    ensures R(t, u) && u == t.(rfq := u.rfq) && id in u.rfq.intents && q in u.rfq.quotes
    ensures u.rfq.quotes[q].intentHash == id && q in u.rfq.acceptances
    ensures forall i | 0 <= i < |u.rfq.fills| :: u.rfq.fills[i].quoteId != q
  {
    var h;
    q, h := UnusedQuote(t.rfq);
    var accept := AcceptStep(UserOf(t.rfq.intents[id]), q, id);
    var t1 := Next(t, QuoteStep(q, id, h));
    u := Next(t1, accept);
    First(R, t1, accept, u, u);
    First(R, t, QuoteStep(q, id, h), t1, u);
  }

  lemma {:induction false} FillAndExecute(r: Rfq, q: string)
    requires q in r.quotes && forall i | 0 <= i < |r.fills| :: r.fills[i].quoteId != q
    ensures ExecuteFill(PostFill(r, q, "receipt").0, q, "receipt").0
         == r.(fills := r.fills + [FillRow(q, "receipt", true)])
  {
    FillGoes(r.fills, q, "receipt");
  }

  /** An accepted quote without a fill gets one, executed, and a proof is ready. */
  lemma {:induction false} GetsServed(R: Reach, t: Tables, id: string, q: string) returns (u: Tables)
    requires Reaches(R)
    requires id in t.rfq.intents && q in t.rfq.quotes && t.rfq.quotes[q].intentHash == id && q in t.rfq.acceptances
    requires forall i | 0 <= i < |t.rfq.fills| :: t.rfq.fills[i].quoteId != q
    ensures R(t, u) && Served(u.rfq, id, q, "proof") && u == t.(rfq := u.rfq)
  {
    FillGoes(t.rfq.fills, q, "receipt");
    FillAndExecute(t.rfq, q);
    var t1 := Next(t, FillStep(q, "receipt"));
    var t2 := Next(t1, ExecuteStep(q, "receipt"));
    u := Next(t2, ProofStep("proof", true));
    First(R, t2, ProofStep("proof", true), u, u);
    First(R, t1, ExecuteStep(q, "receipt"), t2, u);
    First(R, t, FillStep(q, "receipt"), t1, u);
  }

  lemma {:induction false} ServedSettles(R: Reach, t: Tables, id: string, q: string) returns (u: Tables)
    requires Reaches(R)
    requires Served(t.rfq, id, q, "proof") && Marked(t.mpc, id)
    ensures R(t, u) && HasSettlement(u.rfq, id)
  {
    var n := LongerThanAll(t.rfq.spent);
    var request := SettleRequest(UserOf(t.rfq.intents[id]), SettlementId(id, q, n), None, None, "proof", true);
    u := Next(t, SettleStep(request));
    assert SettlementId(id, q, n) in u.rfq.settlements;
    First(R, t, SettleStep(request), u, u);
  }

  /** An id with a row and matched status goes through the whole lifecycle. */
  lemma {:induction false} MarkedSettles(R: Reach, t: Tables, id: string) returns (u: Tables)
    requires Reaches(R)
    requires id in t.rfq.intents && Marked(t.mpc, id)
    ensures R(t, u) && HasSettlement(u.rfq, id)
  {
    var t1, q := GetsQuote(R, t, id);
    var t2 := GetsServed(R, t1, id, q);
    u := ServedSettles(R, t2, id, q);
    assert R(t1, u);
  }

  /** Both sides are recorded. */
  lemma {:induction false} RecordsBoth(t: Tables, a: string, b: string)
    requires a in t.traffic.accepted && b in t.traffic.accepted
    ensures var u := Next(Next(t, RecordStep(a)), RecordStep(b));
            u == t.(mpc := t.mpc.(statuses := u.mpc.statuses)) && a in u.mpc.statuses && b in u.mpc.statuses
  {
  }

  /** Both sides are marked in turn. */
  lemma {:induction false} MarksBoth(t: Tables, batchId: string, a: string, b: string)
    requires a in t.mpc.statuses && b in t.mpc.statuses && batchId in t.memory.marks
    requires t.memory.marks[batchId] == [(a, b), (b, a)]
    ensures var u := Next(Next(t, MarkStep(batchId)), MarkStep(batchId));
            Marked(u.mpc, a) && Marked(u.mpc, b) && u.rfq == t.rfq
  {
    var v := Next(t, MarkStep(batchId));
    assert v.memory.marks[batchId] == [(b, a)];
  }

  lemma {:induction false} MatchedSettles(R: Reach, t: Tables, r: MatchRef, id: string) returns (u: Tables)
    requires Reaches(R)
    requires id in t.rfq.intents && MatchedBeside(t, r, id)
    ensures R(t, u) && HasSettlement(u.rfq, id)
  {
    var a, b, mark := MatchAt(t.mpc, r).intentA, MatchAt(t.mpc, r).intentB, MarkStep(r.batchId);
    RecordsBoth(t, a, b);
    var t1 := Next(t, RecordStep(a));
    var t2 := Next(t1, RecordStep(b));
    MarksBoth(t2, r.batchId, a, b);
    u := MarksThenSettles(R, t2, mark, id);
    First(R, t1, RecordStep(b), t2, u);
    First(R, t, RecordStep(a), t1, u);
  }

  lemma {:induction false} MarksThenSettles(R: Reach, t: Tables, mark: Step, id: string) returns (u: Tables)
    requires Reaches(R)
    requires mark.MarkStep? && Marked(Next(Next(t, mark), mark).mpc, id)
    requires id in Next(Next(t, mark), mark).rfq.intents
    ensures R(t, u) && HasSettlement(u.rfq, id)
  {
    var t1 := Next(t, mark);
    u := MarkedSettles(R, Next(t1, mark), id);
    First(R, t1, mark, Next(t1, mark), u);
    First(R, t, mark, t1, u);
  }

  /** Posting the same body again, under an unused key, gives the id a row and sends it to the committee
      once more, where it can be matched. */
  lemma {:induction false} PostedSettles(R: Reach, t: Tables, id: string) returns (u: Tables)
    requires Reaches(R)
    requires CarriesShares(t.traffic, id) && id !in t.traffic.direct
    ensures R(t, u) && HasSettlement(u.rfq, id)
  {
    var key := LongerThanAll(set g | g in t.rfq.intents :: t.rfq.intents[g].key);
    assert !KeyUsed(t.rfq, key);
    var post := PostIntentStep(id, key, "user", t.traffic.bodies[id]);
    var t1 := Next(t, post);
    var t2, r := ArrivingGetsMatched(R, t1, id);
    u := MatchedSettles(R, t2, r, id);
    assert R(t1, u);
    First(R, t, post, t1, u);
  }

  lemma {:induction false} JobStays(t: Tables, u: Tables, id: string)
    requires HasJob(t.mpc, id) && Grows(t, u)
    ensures HasJob(u.mpc, id)
  {
    var r :| r in t.mpc.jobs && Names(t.mpc.jobs[r], id);
    assert r in u.mpc.jobs && Names(u.mpc.jobs[r], id);
  }

  lemma {:induction false} JobCarriesShares(t: Tables, id: string)
    requires Grounded(t) && HasJob(t.mpc, id) && id !in t.traffic.direct
    ensures CarriesShares(t.traffic, id)
  {
    var r :| r in t.mpc.jobs && Names(t.mpc.jobs[r], id);
    assert IsMatch(t.mpc, r) && id in t.traffic.accepted;
  }

  /** From every exposed state some run that keeps both guards settles the id on both paths. */
  lemma {:induction false} ExposedCanSettleTwice(t: Tables, id: string) returns (u: Tables)
    requires Grounded(t) && Exposed(t, id) && id !in t.traffic.direct
    ensures Leads(t, u) && SettledTwice(u, id)
  {
    var v := ExposedGetsJob(t, id);
    LeadsOn(t, v);
    JobCarriesShares(v, id);
    GuardedRunsReach();
    u := PostedSettles((t, u) => Leads(t, u), v, id);
    LeadsOn(v, u);
    JobStays(v, u, id);
    Chain(t, v, u);
  }

  // ---------- an id that is not exposed stays safe ----------

  ghost predicate Safe(t: Tables, id: string) {
    if id in t.traffic.direct then id !in t.rfq.intents else !Exposed(t, id)
  }

  lemma {:induction false} NewDirect(t: Tables, step: Step, id: string)
    requires id in NextTraffic(t, step).direct && id !in t.traffic.direct
    ensures step.DirectStep? && step.id == id
  {
  }

  lemma {:induction false} DirectStaysRowless(t: Tables, step: Step, id: string)
    requires Grounded(t) && Guards(t, step) && id in NextTraffic(t, step).direct
    requires id in t.traffic.direct ==> id !in t.rfq.intents
    ensures id !in NextRfq(t, step).intents
  {
    if id !in t.traffic.direct { NewDirect(t, step, id); }
    if id in NextRfq(t, step).intents && id !in t.rfq.intents { NewRow(t, step, id); }
  }

  /** An id enters the open session by the direct route or from the arriving requests. */
  lemma {:induction false} NewlyGathering(t: Tables, step: Step, id: string)
    requires id in NextMemory(t, step).gathering && id !in t.memory.gathering
    ensures id in NextTraffic(t, step).direct || id in t.traffic.arriving
  {
  }

  /** A round's ids were there before, or are those of the open session. */
  lemma {:induction false} RoundsMove(t: Tables, step: Step, n: nat)
    requires n in NextMemory(t, step).rounds
    ensures var ids := NextMemory(t, step).rounds[n];
            ids == t.memory.gathering || (n in t.memory.rounds && ids == t.memory.rounds[n])
  {
  }

  lemma {:induction false} WaitingWas(t: Tables, step: Step, id: string)
    requires Guards(t, step) && id !in NextTraffic(t, step).direct
    requires id !in NextRfq(t, step).intents && Waiting(Next(t, step), id)
    ensures Waiting(t, id)
  {
    var u := Next(t, step);
    StepRfqGrows(t, step);
    if id in u.traffic.arriving {
      if id !in t.traffic.arriving { ArrivingHasRow(t, step, id); }
    } else if id in u.memory.gathering {
      if id !in t.memory.gathering { NewlyGathering(t, step, id); }
    } else {
      var n, other :| n in u.memory.rounds && WaitsBeside(u, n, id, other);
      RoundsMove(t, step, n);
      assert id in t.memory.gathering || (n in t.memory.rounds && WaitsBeside(t, n, id, other));
    }
  }

  lemma {:induction false} ArrivingHasRow(t: Tables, step: Step, id: string)
    requires Guards(t, step) && id in NextTraffic(t, step).arriving && id !in t.traffic.arriving
    ensures id in NextRfq(t, step).intents
  {
    NewlyArriving(t, step, id);
  }

  lemma {:induction false} RowlessMatchWas(t: Tables, step: Step, r: MatchRef, id: string)
    requires RowlessMatch(Next(t, step), r, id)
    ensures Exposed(t, id)
  {
    StepRfqGrows(t, step);
    StepMpcGrows(t, step);
    if IsMatch(t.mpc, r) {
      assert RowlessMatch(t, r, id);
    } else {
      NewMatch(t, step, r);
      var x := MatchAt(NextMpc(t, step), r);
      assert WaitsBeside(t, step.n, id, if x.intentA == id then x.intentB else x.intentA);
    }
  }

  /** The settler gets to a match whose sides have no row, or finds one more side without a row. */
  lemma {:induction false} PassingWas(t: Tables, step: Step, id: string)
    requires Grounded(t) && Passing(Next(t, step), id)
    ensures Exposed(t, id)
  {
    var u := Next(t, step);
    var r := u.memory.settler.r;
    StepRfqGrows(t, step);
    StepMpcGrows(t, step);
    SettlerMoves(t, step);
    assert IsMatch(t.mpc, r) && MatchAt(u.mpc, r) == MatchAt(t.mpc, r);
    if t.memory.settler.Looking? && t.memory.settler.r == r {
      SawGrows(t, step);
    } else {
      FreshlyTaken(t, step);
      assert RowlessMatch(t, r, id);
    }
  }

  lemma {:induction false} SawGrows(t: Tables, step: Step)
    requires t.memory.settler.Looking? && NextMemory(t, step).settler.Looking?
    requires NextMemory(t, step).settler.r == t.memory.settler.r && IsMatch(t.mpc, t.memory.settler.r)
    ensures var s, x := NextMemory(t, step).settler, MatchAt(t.mpc, t.memory.settler.r);
            && (s.sawA ==> t.memory.settler.sawA || x.intentA !in t.rfq.intents)
            && (s.sawB ==> t.memory.settler.sawB || x.intentB !in t.rfq.intents)
  {
  }

  lemma {:induction false} FreshlyTaken(t: Tables, step: Step)
    requires NextMemory(t, step).settler.Looking?
    requires t.memory.settler.Looking? ==> t.memory.settler.r != NextMemory(t, step).settler.r
    ensures !NextMemory(t, step).settler.sawA && !NextMemory(t, step).settler.sawB
  {
  }

  lemma {:induction false} JobWas(t: Tables, step: Step, id: string)
    requires Grounded(t) && HasJob(NextMpc(t, step), id)
    ensures Exposed(t, id)
  {
    var u := Next(t, step);
    var r :| r in u.mpc.jobs && Names(u.mpc.jobs[r], id);
    StepMpcGrows(t, step);
    if r in t.mpc.jobs {
      assert HasJob(t.mpc, id);
    } else {
      JobsMove(t, step, r);
    }
  }

  lemma {:induction false} ExposedWas(t: Tables, step: Step, id: string)
    requires Grounded(t) && Guards(t, step) && id !in NextTraffic(t, step).direct && Exposed(Next(t, step), id)
    ensures Exposed(t, id)
  {
    var u := Next(t, step);
    if HasJob(u.mpc, id) {
      JobWas(t, step, id);
    } else if Passing(u, id) {
      PassingWas(t, step, id);
    } else if r :| RowlessMatch(u, r, id) {
      RowlessMatchWas(t, step, r, id);
    } else {
      StepRfqGrows(t, step);
      WaitingWas(t, step, id);
    }
  }

  lemma {:induction false} SafeStep(t: Tables, step: Step, id: string)
    requires Grounded(t) && Guards(t, step) && Safe(t, id)
    ensures Safe(Next(t, step), id)
  {
    StepTrafficGrows(t, step);
    if id in NextTraffic(t, step).direct {
      DirectStaysRowless(t, step, id);
    } else if Exposed(Next(t, step), id) {
      ExposedWas(t, step, id);
    }
  }

  lemma {:induction false} SafeRun(t: Tables, steps: seq<Step>, id: string)
    requires Grounded(t) && Safe(t, id) && GuardedFrom(t, steps)
    ensures Safe(Reached(t, steps), id)
  {
    if steps != [] {
      var n := |steps| - 1;
      PrefixGuarded(t, steps, n);
      SafeRun(t, steps[..n], id);
      RunGroundedFrom(t, steps[..n]);
      assert Guards(Reached(t, steps[..n]), steps[n]);
      SafeStep(Reached(t, steps[..n]), steps[n], id);
    }
  }

  lemma {:induction false} PrefixGuarded(t: Tables, steps: seq<Step>, n: nat)
    requires GuardedFrom(t, steps) && n <= |steps|
    ensures GuardedFrom(t, steps[..n])
  {
    forall k | 0 <= k < n ensures Guards(Reached(t, steps[..n][..k]), steps[..n][k]) {
      assert steps[..n][..k] == steps[..k];
    }
  }

  lemma {:induction false} SettledTwiceIsUnsafe(t: Tables, id: string)
    requires Grounded(t) && SettledTwice(t, id)
    ensures !Safe(t, id)
  {
  }

  // ---------- the exact condition ----------

  /** Some run from here that keeps both guards settles the id on both paths. */
  ghost predicate CanSettleTwice(t: Tables, id: string) {
    exists u :: Leads(t, u) && SettledTwice(u, id)
  }

  lemma {:induction false} MeetIffExposed(t: Tables, id: string)
    requires Grounded(t) && id !in t.traffic.direct
    ensures CanSettleTwice(t, id) <==> Exposed(t, id)
  {
    if Exposed(t, id) {
      var u := ExposedCanSettleTwice(t, id);
    } else {
      forall u | Leads(t, u) ensures !SettledTwice(u, id) {
        LeadsOn(t, u);
        LeadsSafe(t, u, id);
        if SettledTwice(u, id) { SettledTwiceIsUnsafe(u, id); }
      }
    }
  }

  lemma {:induction false} LeadsSafe(t: Tables, u: Tables, id: string)
    requires Grounded(t) && Safe(t, id) && Leads(t, u)
    ensures Safe(u, id)
  {
    var steps :| GuardedFrom(t, steps) && Reached(t, steps) == u;
    SafeRun(t, steps, id);
  }

  /** The exact condition: after any run at all, an id that was not submitted directly can still be
      settled on both paths by steps that keep both guards iff it is exposed. */
  lemma {:induction false} PathsMeetIffExposed(steps: seq<Step>, id: string)
    ensures var t := Reached(EMPTY, steps); id !in t.traffic.direct ==> (CanSettleTwice(t, id) <==> Exposed(t, id))
  {
    RunGrounded(steps);
    if id !in Reached(EMPTY, steps).traffic.direct { MeetIffExposed(Reached(EMPTY, steps), id); }
  }

  lemma {:induction false} ExposedWaitsOrIsNamed(t: Tables, id: string)
    requires Grounded(t) && Exposed(t, id)
    ensures Waiting(t, id) || NamedIn(t.mpc, id)
  {
    if HasJob(t.mpc, id) {
      var r :| r in t.mpc.jobs && Names(t.mpc.jobs[r], id);
      assert IsMatch(t.mpc, r);
    } else if r :| RowlessMatch(t, r, id) {
      assert IsMatch(t.mpc, r);
    }
  }

  /** An id whose session ended without a batch naming it is out of danger, although the committee had
      accepted it without a row. */
  lemma {:induction false} EndedIsSafe(t: Tables, id: string)
    requires Grounded(t) && id !in t.traffic.direct && !Waiting(t, id) && !NamedIn(t.mpc, id)
    ensures !CanSettleTwice(t, id)
  {
    MeetIffExposed(t, id);
    if Exposed(t, id) { ExposedWaitsOrIsNamed(t, id); }
  }

  // ---------- reused idempotency keys ----------

  /** Reusing an idempotency key for another intent with shares exposes that intent: its row is not
      inserted, yet it goes to the committee. So submitting no RFQ hash directly is not enough. */
  lemma {:induction false} ReusedKeySettlesTwice(t: Tables, hash: string, key: string, user: string, way: Way)
    returns (u: Tables)
    requires Grounded(t) && hash !in t.rfq.intents && KeyUsed(t.rfq, key) && hash !in t.traffic.direct
    requires OneBody(t.traffic, hash, Body(true, way))
    ensures NoDirectRfq(t, PostIntentStep(hash, key, user, Body(true, way)))
    ensures Leads(Next(t, PostIntentStep(hash, key, user, Body(true, way))), u) && SettledTwice(u, hash)
  {
    var post := PostIntentStep(hash, key, user, Body(true, way));
    var v := Next(t, post);
    StepGrounded(t, post);
    assert Waiting(v, hash) && hash !in v.rfq.intents;
    u := ExposedCanSettleTwice(v, hash);
  }

  ghost predicate NoRfqGoesDirect(steps: seq<Step>) {
    forall k | 0 <= k < |steps| :: NoDirectRfq(Reached(EMPTY, steps[..k]), steps[k])
  }

  lemma {:induction false} TwoPosts(p: Step, q: Step, body: Body)
    requires p == PostIntentStep("a", "key", "user", body) && q == PostIntentStep("b", "key", "user", body)
    ensures Reached(EMPTY, [p, q]) == Next(Reached(EMPTY, [p]), q)
    ensures var t := Reached(EMPTY, [p]);
            "b" !in t.rfq.intents && KeyUsed(t.rfq, "key") && "b" !in t.traffic.direct && OneBody(t.traffic, "b", body)
  {
    assert [p][..0] == [] && [p, q][..1] == [p];
    var t := Next(EMPTY, p);
    assert "a" in t.rfq.intents && t.rfq.intents["a"].key == "key";
  }

  lemma {:induction false} NoneGoesDirect(p: Step, q: Step, more: seq<Step>)
    requires p.PostIntentStep? && q.PostIntentStep? && q.hash !in Reached(EMPTY, [p]).traffic.direct
    requires GuardedFrom(Reached(EMPTY, [p, q]), more)
    ensures NoRfqGoesDirect([p, q] + more)
  {
    var steps := [p, q] + more;
    forall k | 0 <= k < |steps| ensures NoDirectRfq(Reached(EMPTY, steps[..k]), steps[k]) {
      if k == 0 {
        assert steps[..0] == [];
      } else if k == 1 {
        assert steps[..1] == [p];
      } else {
        Join(EMPTY, [p, q], more[..k - 2]);
        assert steps[..k] == [p, q] + more[..k - 2];
        assert Guards(Reached(Reached(EMPTY, [p, q]), more[..k - 2]), more[k - 2]);
      }
    }
  }

  /** A run from the empty tables in which no RFQ hash goes the direct way, and yet one is settled twice. */
  lemma {:induction false} NoDirectRfqIsNotEnough() returns (steps: seq<Step>)
    ensures NoRfqGoesDirect(steps) && SettledTwice(Reached(EMPTY, steps), "b")
  {
    var body := Body(true, Way("A", "B"));
    var p, q := PostIntentStep("a", "key", "user", body), PostIntentStep("b", "key", "user", body);
    TwoPosts(p, q, body);
    RunGrounded([p]);
    var u := ReusedKeySettlesTwice(Reached(EMPTY, [p]), "b", "key", "user", Way("A", "B"));
    var more :| GuardedFrom(Reached(EMPTY, [p, q]), more) && Reached(Reached(EMPTY, [p, q]), more) == u;
    Join(EMPTY, [p, q], more);
    NoneGoesDirect(p, q, more);
    steps := [p, q] + more;
  }
}
