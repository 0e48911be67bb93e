/** Who did what before a settlement: every row of the RFQ tables goes back to the request that made it,
    and every settlement to a whole history of its intent, quote, acceptance, fill and execution. */
module SettlementHistory {
  import opened JsMap
  import opened Netting
  import opened NettingProofs
  import opened Settlement
  import opened SettlementProofs

  /** The tables in which step k of a run is taken. */
  ghost function Before(steps: seq<Step>, k: nat): Tables
    requires k <= |steps|
  {
    Reached(EMPTY, steps[..k])
  }

  lemma {:induction false} BeforeNext(steps: seq<Step>, k: nat)
    requires k < |steps|
    ensures Before(steps, k + 1) == Next(Before(steps, k), steps[k])
  {
    assert steps[..k + 1][..k] == steps[..k];
  }

  lemma {:induction false} BeforeGrows(steps: seq<Step>, k: nat, l: nat)
    requires k <= l <= |steps|
    ensures Grows(Before(steps, k), Before(steps, l))
  {
    RunGrows(EMPTY, steps[..l], k);
    assert steps[..l][..k] == steps[..k];
  }

  // ---------- fills ----------

  ghost predicate IsFill(f: FillRow, q: string, c: string) {
    f.quoteId == q && f.receipt == c
  }

  ghost predicate Posted(fills: seq<FillRow>, q: string, c: string) {
    exists i :: 0 <= i < |fills| && IsFill(fills[i], q, c)
  }

  ghost predicate Performed(fills: seq<FillRow>, q: string, c: string) {
    exists i :: 0 <= i < |fills| && IsFill(fills[i], q, c) && fills[i].executed
  }

  lemma {:induction false} PostedAfterPost(r: Rfq, q: string, c: string, q': string, c': string)
    ensures var s := PostFill(r, q', c').0.fills;
            && (Posted(s, q, c) <==> Posted(r.fills, q, c) || ((q, c) == (q', c') && q in r.quotes))
            && (Performed(s, q, c) <==> Performed(r.fills, q, c))
  {
    var s := PostFill(r, q', c').0.fills;
    if s != r.fills {
      assert s == r.fills + [FillRow(q', c', false)];
      assert forall i | 0 <= i < |r.fills| :: s[i] == r.fills[i];
      assert IsFill(s[|r.fills|], q', c');
    } else if q' in r.quotes {
      var i :| 0 <= i < |r.fills| && r.fills[i].quoteId == q' && r.fills[i].receipt == c';
      assert IsFill(r.fills[i], q', c');
    }
  }

  lemma {:induction false} PerformedAfterExecute(r: Rfq, q: string, c: string, q': string, c': string)
    ensures var s := ExecuteFill(r, q', c').0.fills;
            && (Posted(s, q, c) <==> Posted(r.fills, q, c))
            && (Performed(s, q, c) <==> Performed(r.fills, q, c) || ((q, c) == (q', c') && Posted(r.fills, q, c)))
  {
    var s := ExecuteFill(r, q', c').0.fills;
    if FillExists(r.fills, q', c') {
      assert |s| == |r.fills| && forall i | 0 <= i < |s| :: IsFill(s[i], q, c) == IsFill(r.fills[i], q, c);
      if i :| 0 <= i < |r.fills| && IsFill(r.fills[i], q, c) && (r.fills[i].executed || (q, c) == (q', c')) {
        assert IsFill(s[i], q, c) && s[i].executed;
      }
    } else if i :| 0 <= i < |r.fills| && IsFill(r.fills[i], q', c') {
      assert FillExists(r.fills, q', c');
    }
  }

  /** Fills come from posts for existing quotes, and only an execute request executes one. */
  lemma {:induction false} FillsAfter(t: Tables, step: Step, q: string, c: string)
    ensures Posted(NextRfq(t, step).fills, q, c) <==>
              Posted(t.rfq.fills, q, c) || (step == FillStep(q, c) && q in t.rfq.quotes)
    ensures Performed(NextRfq(t, step).fills, q, c) <==>
              Performed(t.rfq.fills, q, c) || (step == ExecuteStep(q, c) && Posted(t.rfq.fills, q, c))
  {
    if step.FillStep? {
      PostedAfterPost(t.rfq, q, c, step.quoteId, step.receipt);
    } else if step.ExecuteStep? {
      PerformedAfterExecute(t.rfq, q, c, step.quoteId, step.receipt);
    } else {
      assert NextRfq(t, step).fills == t.rfq.fills;
    }
  }

  /** Step j posts the fill of a quote that is there. */
  ghost predicate PostsFill(steps: seq<Step>, j: nat, q: string, c: string) {
    j < |steps| && steps[j] == FillStep(q, c) && q in Before(steps, j).rfq.quotes
  }

  /** Step l executes the fill posted by step j. */
  ghost predicate Executes(steps: seq<Step>, j: nat, l: nat, q: string, c: string) {
    PostsFill(steps, j, q, c) && j < l < |steps| && steps[l] == ExecuteStep(q, c)
  }

  lemma {:induction false} PostsFillEarlier(steps: seq<Step>, n: nat, j: nat, q: string, c: string)
    requires n <= |steps| && j < n
    ensures PostsFill(steps[..n], j, q, c) <==> PostsFill(steps, j, q, c)
  {
    assert steps[..n][..j] == steps[..j];
  }

  /** The fill is there after the run. */
  ghost predicate FillThere(steps: seq<Step>, q: string, c: string) {
    Posted(Reached(EMPTY, steps).rfq.fills, q, c)
  }

  /** The fill is there and executed after the run. */
  ghost predicate FillDone(steps: seq<Step>, q: string, c: string) {
    Performed(Reached(EMPTY, steps).rfq.fills, q, c)
  }

  /** The fills after a run, from those before its last step. */
  lemma {:induction false} FillsAtEnd(steps: seq<Step>, n: nat, q: string, c: string)
    requires |steps| == n + 1
    ensures FillThere(steps, q, c) <==> FillThere(steps[..n], q, c) || PostsFill(steps, n, q, c)
    ensures FillDone(steps, q, c) <==>
              FillDone(steps[..n], q, c) || (steps[n] == ExecuteStep(q, c) && FillThere(steps[..n], q, c))
  {
    FillsAfter(Before(steps, n), steps[n], q, c);
  }

  lemma {:induction false} PostedBy(steps: seq<Step>, q: string, c: string) returns (j: nat)
    requires FillThere(steps, q, c)
    ensures PostsFill(steps, j, q, c)
  {
    var n := |steps| - 1;
    FillsAtEnd(steps, n, q, c);
    if FillThere(steps[..n], q, c) {
      j := PostedBy(steps[..n], q, c);
      PostsFillEarlier(steps, n, j, q, c);
    } else {
      j := n;
    }
  }

  lemma {:induction false} PostStays(steps: seq<Step>, j: nat, q: string, c: string)
    requires PostsFill(steps, j, q, c)
    ensures FillThere(steps, q, c)
  {
    var n := |steps| - 1;
    FillsAtEnd(steps, n, q, c);
    if j < n {
      PostsFillEarlier(steps, n, j, q, c);
      PostStays(steps[..n], j, q, c);
    }
  }

  /** A fill is there after a run exactly when the run posted it for a quote that was there. */
  lemma {:induction false} PostedIff(steps: seq<Step>, q: string, c: string)
    ensures FillThere(steps, q, c) <==> exists j: nat :: PostsFill(steps, j, q, c)
  {
    if FillThere(steps, q, c) { var j := PostedBy(steps, q, c); }
    if j: nat :| PostsFill(steps, j, q, c) { PostStays(steps, j, q, c); }
  }

  lemma {:induction false} ExecutedBy(steps: seq<Step>, q: string, c: string) returns (j: nat, l: nat)
    requires FillDone(steps, q, c)
    ensures Executes(steps, j, l, q, c)
  {
    var n := |steps| - 1;
    FillsAtEnd(steps, n, q, c);
    if FillDone(steps[..n], q, c) {
      j, l := ExecutedBy(steps[..n], q, c);
    } else {
      j := PostedBy(steps[..n], q, c);
      l := n;
    }
    PostsFillEarlier(steps, n, j, q, c);
  }

  lemma {:induction false} ExecutionStays(steps: seq<Step>, j: nat, l: nat, q: string, c: string)
    requires Executes(steps, j, l, q, c)
    ensures FillDone(steps, q, c)
  {
    var n := |steps| - 1;
    FillsAtEnd(steps, n, q, c);
    PostsFillEarlier(steps, n, j, q, c);
    if l < n { ExecutionStays(steps[..n], j, l, q, c); } else { PostStays(steps[..n], j, q, c); }
  }

  /** A fill is executed after a run exactly when the run posted it and then asked for its execution. */
  lemma {:induction false} ExecutedIff(steps: seq<Step>, q: string, c: string)
    ensures FillDone(steps, q, c) <==> exists j: nat, l: nat :: Executes(steps, j, l, q, c)
  {
    if FillDone(steps, q, c) { var j, l := ExecutedBy(steps, q, c); }
    if j: nat, l: nat :| Executes(steps, j, l, q, c) { ExecutionStays(steps, j, l, q, c); }
  }

  // ---------- intents, quotes, acceptances ----------

  /** A new intent row belongs to the user who posts it, under the key posted; it gets its session from a
      link after the committee has accepted it. Nothing else makes or changes a row. */
  lemma {:induction false} IntentsAfter(t: Tables, step: Step, h: string)
    ensures h in NextRfq(t, step).intents <==>
              || h in t.rfq.intents
              || (step.PostIntentStep? && step.hash == h && OneBody(t.traffic, h, step.body)
                  && forall g | g in t.rfq.intents :: t.rfq.intents[g].key != step.key)
    ensures h in NextRfq(t, step).intents ==>
              NextRfq(t, step).intents[h] ==
                if h !in t.rfq.intents then IntentRow(Some(step.user), step.key, None)
                else if step.LinkStep? && step.hash == h && h in t.traffic.accepted
                then t.rfq.intents[h].(session := Some(step.session)) else t.rfq.intents[h]
  {
    if step.PostIntentStep? && step.hash == h && h !in t.rfq.intents {
      assert KeyUsed(t.rfq, step.key) <==> exists g :: g in t.rfq.intents && t.rfq.intents[g].key == step.key;
    }
  }

  /** A new quote is for an intent that is there, under an id and a hash no quote has. */
  lemma {:induction false} QuotesAfter(t: Tables, step: Step, q: string)
    ensures q in NextRfq(t, step).quotes <==>
              || q in t.rfq.quotes
              || (step.QuoteStep? && step.quoteId == q && step.intentHash in t.rfq.intents
                  && forall p | p in t.rfq.quotes :: t.rfq.quotes[p].quoteHash != step.quoteHash)
    ensures q in NextRfq(t, step).quotes ==>
              NextRfq(t, step).quotes[q] ==
                if q !in t.rfq.quotes then QuoteRow(step.intentHash, step.quoteHash) else t.rfq.quotes[q]
  {
    if step.QuoteStep? && step.quoteId == q && q !in t.rfq.quotes {
      assert QuoteHashUsed(t.rfq, step.quoteHash) <==>
          exists p :: p in t.rfq.quotes && t.rfq.quotes[p].quoteHash == step.quoteHash;
    }
  }

  /** When the accept handler gives which answer. */
  lemma {:induction false} AcceptAnswers(r: Rfq, user: string, q: string, h: string)
    ensures AcceptQuote(r, user, q, h).1 == Accepted <==>
              Owns(r, h, user) && q in r.quotes && r.quotes[q].intentHash == h && q !in r.acceptances
    ensures AcceptQuote(r, user, q, h).1 == Forbidden <==> h in r.intents && !Owns(r, h, user)
    ensures AcceptQuote(r, user, q, h).1 == NotFound <==> h !in r.intents || (Owns(r, h, user) && q !in r.quotes)
    ensures AcceptQuote(r, user, q, h).1 != Failed
    ensures AcceptQuote(r, user, q, h).0
         == if AcceptQuote(r, user, q, h).1 == Accepted then r.(acceptances := r.acceptances[q := h]) else r
  {
  }

  /** A new acceptance is by the intent's owner, of a quote for the intent. */
  lemma {:induction false} AcceptancesAfter(t: Tables, step: Step, q: string)
    ensures q in NextRfq(t, step).acceptances <==>
              || q in t.rfq.acceptances
              || (step.AcceptStep? && step.quoteId == q && q in t.rfq.quotes
                  && t.rfq.quotes[q].intentHash == step.intentHash && Owns(t.rfq, step.intentHash, step.user))
    ensures q in NextRfq(t, step).acceptances ==>
              NextRfq(t, step).acceptances[q] ==
                if q !in t.rfq.acceptances then step.intentHash else t.rfq.acceptances[q]
  {
    if step.AcceptStep? { AcceptAnswers(t.rfq, step.user, step.quoteId, step.intentHash); }
  }

  /** A new settlement has its whole support and names its proof job. */
  lemma {:induction false} SettlementsAfter(t: Tables, step: Step, x: SettlementId)
    ensures x in NextRfq(t, step).settlements <==>
              || x in t.rfq.settlements
              || (step.SettleStep? && step.request.id == x && Insertable(t.rfq, step.request)
                  && Settleable(t.rfq, t.mpc.statuses, step.request))
    ensures x in NextRfq(t, step).settlements ==>
              NextRfq(t, step).settlements[x] ==
                if x !in t.rfq.settlements then step.request.proofJob else t.rfq.settlements[x]
  {
    if step.SettleStep? { SettleAcceptedIff(t.rfq, t.mpc.statuses, step.request); }
  }

  /** Only the environment makes proofs ready and spends nullifiers. */
  lemma {:induction false} EnvironmentAfter(t: Tables, step: Step, p: string, n: string)
    ensures var r := NextRfq(t, step);
            && (p in r.proofs && r.proofs[p] <==>
                  if step.ProofStep? && step.proofJob == p then step.ready else p in t.rfq.proofs && t.rfq.proofs[p])
            && (n in r.spent <==> n in t.rfq.spent || step == SpendStep(n))
  {
  }

  /** A submission is recorded only after the committee accepted it, and is matched only when its batch's
      next mark is its own and its partner is recorded. */
  lemma {:induction false} StatusesAfter(t: Tables, step: Step, id: string)
    ensures var m, s := t.mpc.statuses, NextMpc(t, step).statuses;
            && (id in s <==> id in m || (step == RecordStep(id) && id in t.traffic.accepted))
            && (id in s ==> (s[id] <==>
                  || (id in m && m[id])
                  || (id in m && step.MarkStep? && HasMark(t.memory, step.batchId)
                      && t.memory.marks[step.batchId][0].0 == id && t.memory.marks[step.batchId][0].1 in m)))
  {
  }

  /** The open session gathers what arrives or comes directly, each with its direction; a round takes over
      the open session's ids exactly when they are two or more. */
  lemma {:induction false} SessionsAfter(t: Tables, step: Step, id: string)
    ensures var g, m := t.memory.gathering, NextMemory(t, step);
            var starts := step.StartStep? && step.n !in t.memory.rounds && |g| >= 2;
            && (starts ==> m.gathering == map[] && m.rounds == t.memory.rounds[step.n := g])
            && (step.StartStep? && !starts ==> m == t.memory)
            && (!step.StartStep? && !step.RestartStep? ==>
                  (id in m.gathering <==>
                     || id in g || (step.DirectStep? && step.id == id)
                     || (step == SendStep(id) && id in t.traffic.arriving && id in t.traffic.bodies)))
            && (!step.StartStep? && id in m.gathering ==>
                  m.gathering[id] == if step.DirectStep? && step.id == id then step.way
                                     else if step == SendStep(id) && id in t.traffic.arriving && id in t.traffic.bodies
                                     then t.traffic.bodies[id].way else g[id])
  {
  }

  /** A post with shares arrives once more, a request that arrives is accepted and no longer arriving, and a
      direct submission is accepted at once. */
  lemma {:induction false} RequestsAfter(t: Tables, step: Step, id: string)
    ensures var q, p := t.traffic, NextTraffic(t, step);
            && p.arriving[id] == q.arriving[id]
                 + (if step.PostIntentStep? && step.hash == id && OneBody(q, id, step.body) && step.body.shares
                    then 1 else 0)
                 - (if step in {SendStep(id), LoseStep(id)} && id in q.arriving then 1 else 0)
            && (id in p.accepted <==> id in q.accepted || (step == SendStep(id) && id in q.arriving)
                                      || (step.DirectStep? && step.id == id))
            && (id in p.direct <==> id in q.direct || (step.DirectStep? && step.id == id))
            && (id in p.bodies <==> id in q.bodies || (step.PostIntentStep? && step.hash == id))
            && (id in p.bodies ==> p.bodies[id] == if id in q.bodies then q.bodies[id] else step.body)
  {
  }

  /** A round's batch is persisted exactly when its id is new and its matches join different ids of the
      session whose keys meet, with the first one's assets, each id at most once. */
  lemma {:induction false} BatchesAfter(t: Tables, step: Step, b: string)
    ensures b in NextMpc(t, step).batches <==>
              || b in t.mpc.batches
              || (step.PersistStep? && step.batchId == b && step.n in t.memory.rounds
                  && OneEach(step.matches)
                  && forall i | 0 <= i < |step.matches| :: IsPair(t.memory.rounds[step.n], step.matches[i]))
    ensures b in NextMpc(t, step).batches ==>
              NextMpc(t, step).batches[b] == if b in t.mpc.batches then t.mpc.batches[b] else step.matches
  {
    if step.PersistStep? && step.n in t.memory.rounds {
      var ids := t.memory.rounds[step.n];
      assert MatchesOf(ids, step.matches) <==>
          OneEach(step.matches) && forall i | 0 <= i < |step.matches| :: IsPair(ids, step.matches[i]);
    }
  }

  ghost predicate IsPair(ids: map<string, Way>, m: MatchResult) {
    && m.intentA in ids && m.intentB in ids && m.intentA != m.intentB
    && var a, b := ids[m.intentA], ids[m.intentB];
       && ReverseKey(JoinKey(a.input, a.output)) == JoinKey(b.input, b.output)
       && (m.input, m.output) == Assets(JoinKey(a.input, a.output))
  }

  ghost predicate OneEach(ms: seq<MatchResult>) {
    forall i, j | 0 <= i < j < |ms| ::
      && ms[i].intentA != ms[j].intentA && ms[i].intentA != ms[j].intentB
      && ms[i].intentB != ms[j].intentA && ms[i].intentB != ms[j].intentB
  }

  /** Directions without bars in their names meet exactly when they are opposite. */
  lemma {:induction false} MeetIffOpposite(a: Way, b: Way)
    requires NoBar(a.input) && NoBar(a.output) && NoBar(b.input) && NoBar(b.output)
    ensures Meet(a, b) <==> a.input == b.output && a.output == b.input
  {
    KeyReadsBack(a.input, a.output);
    KeyReadsBack(a.output, a.input);
    KeyReadsBack(b.input, b.output);
  }

  /** A new batch's marks are both sides of every match in turn, each with its partner. */
  lemma {:induction false} NewMarks(t: Tables, step: Step, i: nat)
    requires step.PersistStep? && step.batchId !in t.mpc.batches && step.batchId in NextMpc(t, step).batches
    ensures step.batchId in NextMemory(t, step).marks
    ensures |NextMemory(t, step).marks[step.batchId]| == 2 * |step.matches|
    ensures i < |step.matches| ==>
              var k, m := NextMemory(t, step).marks[step.batchId], step.matches[i];
              k[2 * i] == (m.intentA, m.intentB) && k[2 * i + 1] == (m.intentB, m.intentA)
  {
    assert Persists(t, step.n, step.batchId, step.matches);
    assert NextMemory(t, step).marks[step.batchId] == PairsOf(step.matches);
  }

  /** A mark is taken off when it is made, and a recorded id whose partner is not recorded ends the marking
      of its batch; no other batch's marks change. */
  lemma {:induction false} MarksAfter(t: Tables, b: string, other: string)
    requires b in t.memory.marks && t.memory.marks[b] != []
    ensures var m, k := t.memory.marks, NextMemory(t, MarkStep(b)).marks;
            && (if m[b][0].0 in t.mpc.statuses && m[b][0].1 !in t.mpc.statuses then b !in k
                else b in k && k[b] == m[b][1..])
            && (other != b ==> (other in k <==> other in m) && (other in k ==> k[other] == m[other]))
  {
  }

  /** The settler stays with the match it is at until a lookup finds a row, its job is queued, or it gives
      up; then it may take up any match. */
  lemma {:induction false} SettlerAfter(t: Tables, step: Step, r: MatchRef)
    ensures NextMemory(t, TakeUpStep(r)).settler
         == if t.memory.settler == Idle && IsMatch(t.mpc, r) then Looking(r, false, false) else t.memory.settler
    ensures t.memory.settler.Looking? && NextMemory(t, step).settler.Looking? ==>
              NextMemory(t, step).settler.r == t.memory.settler.r
    ensures t.memory.settler.Looking? && NextMemory(t, step).settler.Idle? ==>
              step.LookUpStep? || step.EnqueueStep? || step.AbandonStep? || step.RestartStep?
  {
  }

  /** A lost request, a round that ends without a batch, and a restart take away what they held. */
  lemma {:induction false} LossesAfter(t: Tables, hash: string, n: nat)
    ensures Next(t, LoseStep(hash))
         == t.(traffic := t.traffic.(arriving := t.traffic.arriving - multiset{hash}))
    ensures Next(t, EndStep(n)) == t.(memory := t.memory.(rounds := t.memory.rounds - {n}))
    ensures Next(t, RestartStep) == t.(memory := Memory(map[], map[], map[], Idle))
    ensures Next(t, AbandonStep) == t.(memory := t.memory.(settler := Idle))
  {
  }

  /** The step of a run that made an intent's row. */
  lemma {:induction false} PostOf(steps: seq<Step>, h: string) returns (k: nat)
    requires h in Reached(EMPTY, steps).rfq.intents
    ensures k < |steps| && steps[k].PostIntentStep? && steps[k].hash == h
    ensures Reached(EMPTY, steps).rfq.intents[h].owner == Some(steps[k].user)
  {
    var n := |steps| - 1;
    var t := Reached(EMPTY, steps[..n]);
    IntentsAfter(t, steps[n], h);
    if h in t.rfq.intents { k := PostOf(steps[..n], h); } else { k := n; }
  }

  /** The step of a run that made a quote's row. */
  lemma {:induction false} QuoteOf(steps: seq<Step>, q: string) returns (k: nat)
    requires q in Reached(EMPTY, steps).rfq.quotes
    ensures k < |steps| && steps[k].QuoteStep? && steps[k].quoteId == q
    ensures steps[k].intentHash == Reached(EMPTY, steps).rfq.quotes[q].intentHash
    ensures steps[k].intentHash in Before(steps, k).rfq.intents && q !in Before(steps, k).rfq.quotes
  {
    var n := |steps| - 1;
    var t := Reached(EMPTY, steps[..n]);
    QuotesAfter(t, steps[n], q);
    if q in t.rfq.quotes {
      k := QuoteOf(steps[..n], q);
      assert steps[..n][..k] == steps[..k];
    } else {
      k := n;
    }
  }

  /** The step of a run that accepted a quote. */
  lemma {:induction false} AcceptOf(steps: seq<Step>, q: string) returns (k: nat)
    requires q in Reached(EMPTY, steps).rfq.acceptances
    ensures k < |steps| && steps[k].AcceptStep? && steps[k].quoteId == q
    ensures steps[k].intentHash == Reached(EMPTY, steps).rfq.acceptances[q]
    ensures q in Before(steps, k).rfq.quotes && Owns(Before(steps, k).rfq, steps[k].intentHash, steps[k].user)
  {
    var n := |steps| - 1;
    var t := Reached(EMPTY, steps[..n]);
    AcceptancesAfter(t, steps[n], q);
    if q in t.rfq.acceptances {
      k := AcceptOf(steps[..n], q);
      assert steps[..n][..k] == steps[..k];
    } else {
      k := n;
    }
  }

  /** The step of a run that made a settlement's row. */
  lemma {:induction false} SettleOf(steps: seq<Step>, x: SettlementId) returns (k: nat)
    requires x in Reached(EMPTY, steps).rfq.settlements
    ensures k < |steps| && steps[k].SettleStep? && steps[k].request.id == x
    ensures var r, q := Before(steps, k).rfq, steps[k].request;
            && Settleable(r, Before(steps, k).mpc.statuses, q) && Insertable(r, q) && Owns(r, x.intentHash, q.user)
            && exists i: nat :: IsLatest(r.fills, x.quoteId, i) && r.fills[i].executed
  {
    var n := |steps| - 1;
    var t := Reached(EMPTY, steps[..n]);
    if x in t.rfq.settlements {
      k := SettleOf(steps[..n], x);
      assert steps[..n][..k] == steps[..k];
    } else {
      NewSettlement(t, steps[n], x);
      SettleAcceptedIff(t.rfq, t.mpc.statuses, steps[n].request);
      k := n;
    }
  }

  // ---------- the history of a settlement ----------

  /** The requests behind a settlement, by their places in the run. */
  datatype History = History(
    user: string, post: nat, quote: nat, accept: nat, fill: nat, execute: nat, receipt: string, settle: nat)

  /** The intent was posted by the user; a quote for it came, and then the user's acceptance of it, and a
      fill of it that was then executed; after all that the user asked to settle. */
  ghost predicate IsHistory(steps: seq<Step>, x: SettlementId, h: History) {
    && h.post < h.quote && h.quote < h.accept < h.settle && h.quote < h.fill < h.execute < h.settle < |steps|
    && steps[h.post].PostIntentStep? && steps[h.post].hash == x.intentHash && steps[h.post].user == h.user
    && steps[h.quote].QuoteStep? && steps[h.quote].quoteId == x.quoteId && steps[h.quote].intentHash == x.intentHash
    && steps[h.accept] == AcceptStep(h.user, x.quoteId, x.intentHash)
    && steps[h.fill] == FillStep(x.quoteId, h.receipt) && steps[h.execute] == ExecuteStep(x.quoteId, h.receipt)
    && steps[h.settle].SettleStep? && steps[h.settle].request.id == x && steps[h.settle].request.user == h.user
  }

  /** What was made by step k is not there before a later step only if that step is not later. */
  lemma {:induction false} QuoteComesFirst(steps: seq<Step>, q: string, k: nat, l: nat)
    requires k < |steps| && l <= |steps| && q !in Before(steps, k).rfq.quotes && q in Before(steps, l).rfq.quotes
    ensures k < l
  {
    if l <= k { BeforeGrows(steps, l, k); }
  }

  /** The owner of an intent is the user who posted it, before every later step. */
  lemma {:induction false} OwnerPosted(steps: seq<Step>, k: nat, h: string, user: string)
    requires k <= |steps| && Owns(Before(steps, k).rfq, h, user)
    ensures h in Reached(EMPTY, steps).rfq.intents && Reached(EMPTY, steps).rfq.intents[h].owner == Some(user)
  {
    var p := PostOf(steps[..k], h);
    BeforeGrows(steps, k, |steps|);
    assert steps[..|steps|] == steps;
  }

  lemma {:induction false} LatestIsPerformed(fills: seq<FillRow>, q: string) returns (c: string)
    requires exists i: nat :: IsLatest(fills, q, i) && fills[i].executed
    ensures Performed(fills, q, c)
  {
    var i: nat :| IsLatest(fills, q, i) && fills[i].executed;
    c := fills[i].receipt;
    assert IsFill(fills[i], q, c);
  }

  /** The fill a settlement rests on was posted and executed before it. */
  lemma {:induction false} FillOf(steps: seq<Step>, k: nat, q: string) returns (j: nat, l: nat, c: string)
    requires k <= |steps| && exists i: nat :: IsLatest(Before(steps, k).rfq.fills, q, i)
                                           && Before(steps, k).rfq.fills[i].executed
    ensures j < l < k && PostsFill(steps, j, q, c) && steps[l] == ExecuteStep(q, c)
  {
    c := LatestIsPerformed(Before(steps, k).rfq.fills, q);
    ExecutedIff(steps[..k], q, c);
    j, l :| Executes(steps[..k], j, l, q, c);
    PostsFillEarlier(steps, k, j, q, c);
  }

  /** The post behind a quote came before it, and its user owns the intent. */
  lemma {:induction false} PostBefore(steps: seq<Step>, quote: nat, h: string) returns (post: nat)
    requires quote <= |steps| && h in Before(steps, quote).rfq.intents
    ensures post < quote && steps[post].PostIntentStep? && steps[post].hash == h
    ensures Owns(Before(steps, quote).rfq, h, steps[post].user)
  {
    post := PostOf(steps[..quote], h);
  }

  /** An accepted quote for an intent: the intent was posted, quoted and accepted in this order, and by
      one user. */
  lemma {:induction false} QuoteWasAccepted(steps: seq<Step>, q: string, h: string)
    returns (post: nat, quote: nat, accept: nat)
    requires q in Reached(EMPTY, steps).rfq.acceptances && Reached(EMPTY, steps).rfq.acceptances[q] == h
    requires q in Reached(EMPTY, steps).rfq.quotes && Reached(EMPTY, steps).rfq.quotes[q].intentHash == h
    ensures post < quote < accept < |steps| && q !in Before(steps, quote).rfq.quotes
    ensures steps[post].PostIntentStep? && steps[post].hash == h
    ensures steps[quote].QuoteStep? && steps[quote].quoteId == q && steps[quote].intentHash == h
    ensures steps[accept] == AcceptStep(steps[post].user, q, h)
    ensures h in Reached(EMPTY, steps).rfq.intents
    ensures Reached(EMPTY, steps).rfq.intents[h].owner == Some(steps[post].user)
  {
    accept := AcceptOf(steps, q);
    quote := QuoteOf(steps, q);
    QuoteComesFirst(steps, q, quote, accept);
    post := PostBefore(steps, quote, h);
    OwnerPosted(steps, accept, h, steps[accept].user);
    OwnerPosted(steps, quote, h, steps[post].user);
  }

  /** The rows a settlement rests on in the tables in which it was asked for. */
  lemma {:induction false} SettleRests(steps: seq<Step>, x: SettlementId) returns (settle: nat)
    requires x in Reached(EMPTY, steps).rfq.settlements
    ensures settle < |steps| && steps[settle].SettleStep? && steps[settle].request.id == x
    ensures var r := Before(steps, settle).rfq;
            && Owns(r, x.intentHash, steps[settle].request.user)
            && x.quoteId in r.acceptances && r.acceptances[x.quoteId] == x.intentHash
            && x.quoteId in r.quotes && r.quotes[x.quoteId].intentHash == x.intentHash
            && exists i: nat :: IsLatest(r.fills, x.quoteId, i) && r.fills[i].executed
  {
    settle := SettleOf(steps, x);
    RunGrounded(steps[..settle]);
  }

  /** The history up to the request to settle. */
  lemma {:induction false} HistoryOf(steps: seq<Step>, x: SettlementId, settle: nat) returns (h: History)
    requires settle < |steps| && steps[settle].SettleStep? && steps[settle].request.id == x
    requires var r := Before(steps, settle).rfq;
             && Owns(r, x.intentHash, steps[settle].request.user)
             && x.quoteId in r.acceptances && r.acceptances[x.quoteId] == x.intentHash
             && x.quoteId in r.quotes && r.quotes[x.quoteId].intentHash == x.intentHash
             && exists i: nat :: IsLatest(r.fills, x.quoteId, i) && r.fills[i].executed
    ensures IsHistory(steps, x, h)
  {
    var fill, execute, receipt := FillOf(steps, settle, x.quoteId);
    var post, quote, accept := QuoteWasAccepted(steps[..settle], x.quoteId, x.intentHash);
    assert steps[..settle][..quote] == steps[..quote];
    QuoteComesFirst(steps, x.quoteId, quote, fill);
    h := History(steps[post].user, post, quote, accept, fill, execute, receipt, settle);
  }

  /** Every settlement of every run has such a history. */
  lemma {:induction false} EverySettlementHasItsHistory(steps: seq<Step>, x: SettlementId) returns (h: History)
    requires x in Reached(EMPTY, steps).rfq.settlements
    ensures IsHistory(steps, x, h)
  {
    var settle := SettleRests(steps, x);
    h := HistoryOf(steps, x, settle);
  }
}
