/** Who holds an intent and where looking it up leads: the demands on submissions under which ids stay in
    one session each and the index agrees with a scan, and runs that show what a repeated id and a
    malformed share do. */
module CommitteeSafety {
  import opened JsMap
  import opened Sessions
  import opened Rounds
  import opened RoundProofs
  import opened Committee
  import opened CommitteeProofs
  import opened CommitteeHygiene
  import Netting

  // ---------- who holds an intent ----------

  ghost predicate HeldOnce(c: State) {
    forall i, j, id | 0 <= i < |c.sessions| && 0 <= j < |c.sessions|
                   && Has(c.sessions[i].intents, id) && Has(c.sessions[j].intents, id) :: i == j
  }

  /** A submission does not repeat an id of a session that has already left open. */
  ghost predicate FreshStep(sys: System, step: Step) {
    step.Submit? ==>
      forall i | 0 <= i < |sys.state.sessions| && sys.state.sessions[i].status != Open ::
        !Has(sys.state.sessions[i].intents, step.intent.intentId)
  }

  lemma {:induction false} LaunchKeepsIntents(cfg: Config, sys: System, task: nat, slots: seq<nat>, mode: Mode)
    ensures var c, d := sys.state, Launch(cfg, sys, task, slots, mode).state;
            && |d.sessions| == |c.sessions| && d.index == c.index && d.intentToSession == c.intentToSession
            && forall i | 0 <= i < |c.sessions| ::
                 d.sessions[i].intents == c.sessions[i].intents && d.sessions[i].sessionId == c.sessions[i].sessionId
    decreases |slots|
  {
    if slots != [] && (slots[0] >= |sys.state.sessions| || |sys.state.sessions[slots[0]].intents| < 2) {
      LaunchKeepsIntents(cfg, sys, task, slots[1..], mode);
    }
  }

  /** Only a submission changes which intents a session holds. */
  lemma {:induction false} OnlySubmitAddsIntents(cfg: Config, sys: System, step: Step)
    requires Enabled(sys, step) && !step.Submit?
    ensures var c, d := sys.state, Next(cfg, sys, step).state;
            && |d.sessions| == |c.sessions| && d.index == c.index && d.intentToSession == c.intentToSession
            && forall i | 0 <= i < |c.sessions| ::
                 d.sessions[i].intents == c.sessions[i].intents && d.sessions[i].sessionId == c.sessions[i].sessionId
  {
    match step
    case Deliver(_, _) =>
    case MatchNow(sessionId, task, mode) =>
      var slot := GetSession(sys.state, sessionId);
      if slot.Some? { LaunchKeepsIntents(cfg, sys, task, [slot.value], mode); }
    case TimerTick(task, mode) => LaunchKeepsIntents(cfg, sys, task, OpenSessions(sys.state, 0), mode);
    case DecryptAnswers(_, _) =>
    case SignAnswers(_, _, _) =>
    case Resume(task, mode) => LaunchKeepsIntents(cfg, sys, task, sys.tasks[task].rest, mode);
  }

  lemma {:induction false} AcceptHolds(s: Session, intent: MpcIntent, id: string)
    ensures Has(Accept(s, intent).intents, id) <==> id == intent.intentId || Has(s.intents, id)
  {
    PutFind(s.intents, intent.intentId, intent, id);
    assert Find(Accept(s, intent).intents, id).Some? <==> Has(Accept(s, intent).intents, id);
    assert Find(s.intents, id).Some? <==> Has(s.intents, id);
  }

  /** After a submission each session holds what it held, and the open one holds the new intent too. */
  lemma {:induction false} SubmitHolds(c: State, intent: MpcIntent, now: string, i: nat, id: string)
    requires i < |AddIntent(c, intent, now).sessions|
    ensures Has(AddIntent(c, intent, now).sessions[i].intents, id) <==>
              (i == OpenOrLast(c, now) && id == intent.intentId) || (i < |c.sessions| && Has(c.sessions[i].intents, id))
  {
    var d, slot := WithOpen(c, now), OpenOrLast(c, now);
    AcceptHolds(d.sessions[slot], intent, id);
    assert !Has(NewSession(now).intents, id);
  }

  lemma {:induction false} StepKeepsHeldOnce(cfg: Config, sys: System, step: Step)
    requires Inv(sys) && HeldOnce(sys.state) && Enabled(sys, step) && FreshStep(sys, step)
    ensures HeldOnce(Next(cfg, sys, step).state)
  {
    if step.Submit? {
      SubmitHoldsOnce(sys, step.intent, step.now);
    } else {
      OnlySubmitAddsIntents(cfg, sys, step);
    }
  }

  lemma {:induction false} SubmitHoldsOnce(sys: System, intent: MpcIntent, now: string)
    requires Inv(sys) && HeldOnce(sys.state) && FreshStep(sys, Submit(intent, now))
    ensures HeldOnce(AddIntent(sys.state, intent, now))
  {
    var c, d := sys.state, AddIntent(sys.state, intent, now);
    var slot := OpenOrLast(c, now);
    WithOpenKeeps(c, now);
    forall i | 0 <= i < |c.sessions| && i != slot ensures !Has(c.sessions[i].intents, intent.intentId) {
      assert WithOpen(c, now).sessions[i] == c.sessions[i];
    }
    forall i, j, id | 0 <= i < |d.sessions| && 0 <= j < |d.sessions|
                   && Has(d.sessions[i].intents, id) && Has(d.sessions[j].intents, id)
      ensures i == j
    {
      SubmitHolds(c, intent, now, i, id);
      SubmitHolds(c, intent, now, j, id);
    }
  }

  /** The exact condition: a step keeps every id in at most one session iff it submits no id of a
      session that has left open. */
  lemma {:induction false} HeldOnceIffFresh(cfg: Config, sys: System, step: Step)
    requires Inv(sys) && HeldOnce(sys.state) && Enabled(sys, step)
    ensures HeldOnce(Next(cfg, sys, step).state) <==> FreshStep(sys, step)
  {
    if FreshStep(sys, step) {
      StepKeepsHeldOnce(cfg, sys, step);
    } else {
      var c, d := sys.state, Next(cfg, sys, step).state;
      var i :| 0 <= i < |c.sessions| && c.sessions[i].status != Open
            && Has(c.sessions[i].intents, step.intent.intentId);
      var slot := OpenOrLast(c, step.now);
      WithOpenKeeps(c, step.now);
      SubmitHolds(c, step.intent, step.now, i, step.intent.intentId);
      SubmitHolds(c, step.intent, step.now, slot, step.intent.intentId);
      assert WithOpen(c, step.now).sessions[i] == c.sessions[i];
    }
  }

  // ---------- what a repeated submission does ----------

  /** No intent is named by two matches of the log, nor twice by one. */
  ghost predicate MatchedAtMostOnce(log: seq<(nat, Batch)>) {
    && (forall k, i | 0 <= k < |log| && 0 <= i < |log[k].1.matches| ::
          log[k].1.matches[i].intentA != log[k].1.matches[i].intentB)
    && (forall k, l, i, j, id | 0 <= k < |log| && 0 <= l < |log|
                             && 0 <= i < |log[k].1.matches| && 0 <= j < |log[l].1.matches|
                             && Netting.Names(log[k].1.matches[i], id) && Netting.Names(log[l].1.matches[j], id) ::
          k == l && i == j)
  }

  ghost function PairSession(x: MpcIntent, y: MpcIntent, sessionId: string): Session {
    Accept(Accept(NewSession(sessionId), x), y)
  }

  lemma {:induction false} SubmitTwo(sys: System, x: MpcIntent, y: MpcIntent, now: string)
    requires Inv(sys) && forall i | 0 <= i < |sys.state.sessions| :: sys.state.sessions[i].status != Open
    ensures var c := AddIntent(AddIntent(sys.state, x, now), y, now);
            && c.sessions == sys.state.sessions + [PairSession(x, y, now)]
            && Find(c.index, now) == Some(|sys.state.sessions|)
  {
    var c0 := sys.state;
    var n := |c0.sessions|;
    NoOpenSlot(c0, 0);
    var c1 := AddIntent(c0, x, now);
    assert c1.sessions == c0.sessions + [Accept(NewSession(now), x)];
    PutFind(c0.index, now, n, now);
    SubmitKeeps(sys, x, now);
    OnlyOpenSlot(c1, 0, n, Index(c1.index, now));
    assert OpenOrLast(c1, now) == n && WithOpen(c1, now) == c1;
  }

  lemma {:induction false} NoOpenSlot(c: State, from: nat)
    requires from <= |c.index| && forall i | 0 <= i < |c.sessions| :: c.sessions[i].status != Open
    ensures OpenSlot(c, from).None?
    decreases |c.index| - from
  {
    if from < |c.index| { NoOpenSlot(c, from + 1); }
  }

  lemma {:induction false} OnlyOpenSlot(c: State, from: nat, slot: nat, k: nat)
    requires from <= k < |c.index| && c.index[k].1 == slot && slot < |c.sessions| && c.sessions[slot].status == Open
    requires forall i | 0 <= i < |c.sessions| && c.sessions[i].status == Open :: i == slot
    ensures OpenSlot(c, from) == Some(slot)
    decreases |c.index| - from
  {
    if from < k && !(c.index[from].1 < |c.sessions| && c.sessions[c.index[from].1].status == Open) {
      OnlyOpenSlot(c, from + 1, slot, k);
    }
  }

  lemma {:induction false} LocalRoundIgnoresIds(cfg: Config, s: Session, sessionId: string, b: string, b': string)
    requires LocalRound(cfg, s, b).1.Produced?
    ensures var o := LocalRound(cfg, s.(sessionId := sessionId), b').1;
            o.Produced? && o.batch.matches == LocalRound(cfg, s, b).1.batch.matches
  {
  }

  lemma {:induction false} PairIgnoresIds(
    cfg: Config, x: MpcIntent, y: MpcIntent, n1: string, n2: string, b1: string, b2: string)
    requires LocalRound(cfg, PairSession(x, y, n1), b1).1.Produced?
    ensures var o := LocalRound(cfg, PairSession(x, y, n2), b2).1;
            o.Produced? && o.batch.matches == LocalRound(cfg, PairSession(x, y, n1), b1).1.batch.matches
  {
    LocalRoundIgnoresIds(cfg, PairSession(x, y, n1), n2, b1, b2);
    assert PairSession(x, y, n1).(sessionId := n2) == PairSession(x, y, n2);
  }

  /** A manual in-process round on an open session found under its id. */
  lemma {:induction false} MatchNowLogs(cfg: Config, sys: System, sessionId: string, task: nat, batchId: string, n: nat)
    requires task !in sys.tasks && n < |sys.state.sessions| && GetSession(sys.state, sessionId) == Some(n)
    requires sys.state.sessions[n].status == Open && LocalRound(cfg, sys.state.sessions[n], batchId).1.Produced?
    ensures var sys' := Next(cfg, sys, MatchNow(sessionId, task, InProcess(batchId)));
            && sys'.tasks.Keys == sys.tasks.Keys + {task}
            && sys'.log == sys.log + [(n, LocalRound(cfg, sys.state.sessions[n], batchId).1.batch)]
            && |sys'.state.sessions| == |sys.state.sessions| && sys'.state.sessions[n].status == Signed
            && forall i | 0 <= i < |sys.state.sessions| && i != n :: sys'.state.sessions[i] == sys.state.sessions[i]
  {
    MatchNowBegins(cfg, sys, sessionId, task, batchId, n);
  }

  lemma {:induction false} MatchNowBegins(
    cfg: Config, sys: System, sessionId: string, task: nat, batchId: string, n: nat)
    requires task !in sys.tasks && n < |sys.state.sessions| && GetSession(sys.state, sessionId) == Some(n)
    requires sys.state.sessions[n].status == Open && |sys.state.sessions[n].intents| >= 2
    ensures Next(cfg, sys, MatchNow(sessionId, task, InProcess(batchId)))
         == Begin(cfg, sys, task, n, [], InProcess(batchId))
  {
    assert [n][1..] == [];
  }

  lemma {:induction false} TwoSubmitted(cfg: Config, sys: System, x: MpcIntent, y: MpcIntent, now: string)
    returns (sys2: System)
    requires Netting.SortsByAmount(cfg.sort) && Inv(sys)
    requires forall i | 0 <= i < |sys.state.sessions| :: sys.state.sessions[i].status != Open
    ensures sys2 == Next(cfg, Next(cfg, sys, Submit(x, now)), Submit(y, now)) && Inv(sys2)
    ensures sys2.tasks == sys.tasks && sys2.log == sys.log
    ensures GetSession(sys2.state, now) == Some(|sys.state.sessions|)
    ensures sys2.state.sessions == sys.state.sessions + [PairSession(x, y, now)]
  {
    var sys1 := Next(cfg, sys, Submit(x, now));
    sys2 := Next(cfg, sys1, Submit(y, now));
    StepKeeps(cfg, sys, Submit(x, now));
    StepKeeps(cfg, sys1, Submit(y, now));
    SubmitTwo(sys, x, y, now);
    assert Find(sys2.state.index, now).Some? <==> Has(sys2.state.index, now);
  }

  /** Submits two intents and runs the round of their session at once. */
  lemma {:induction false} EpisodeLogs(
    cfg: Config, sys: System, x: MpcIntent, y: MpcIntent, now: string, task: nat, batchId: string)
    returns (steps: seq<Step>, sys': System)
    requires Netting.SortsByAmount(cfg.sort) && Inv(sys) && task !in sys.tasks
    requires forall i | 0 <= i < |sys.state.sessions| :: sys.state.sessions[i].status != Open
    requires LocalRound(cfg, PairSession(x, y, now), batchId).1.Produced?
    ensures Run(cfg, sys, steps) && sys' == Reached(cfg, sys, steps)
    ensures Inv(sys') && sys'.tasks.Keys == sys.tasks.Keys + {task}
    ensures sys'.log == sys.log + [(|sys.state.sessions|, LocalRound(cfg, PairSession(x, y, now), batchId).1.batch)]
    ensures forall i | 0 <= i < |sys'.state.sessions| :: sys'.state.sessions[i].status != Open
  {
    var n := |sys.state.sessions|;
    var sys2 := TwoSubmitted(cfg, sys, x, y, now);
    var go := MatchNow(now, task, InProcess(batchId));
    StepKeeps(cfg, sys2, go);
    MatchNowLogs(cfg, sys2, now, task, batchId, n);
    RunThree(cfg, sys, Submit(x, now), Submit(y, now), go);
    steps, sys' := [Submit(x, now), Submit(y, now), go], Next(cfg, sys2, go);
  }

  lemma {:induction false} RunThree(cfg: Config, sys: System, a: Step, b: Step, c: Step)
    requires Enabled(sys, a) && Enabled(Next(cfg, sys, a), b) && Enabled(Next(cfg, Next(cfg, sys, a), b), c)
    ensures Run(cfg, sys, [a, b, c])
    ensures Reached(cfg, sys, [a, b, c]) == Next(cfg, Next(cfg, Next(cfg, sys, a), b), c)
  {
    var sys1 := Next(cfg, sys, a);
    var sys2 := Next(cfg, sys1, b);
    assert [a, b, c][1..] == [b, c] && [b, c][1..] == [c] && [c][1..] == [];
    assert Run(cfg, Next(cfg, sys2, c), []);
    assert Run(cfg, sys2, [c]) && Reached(cfg, sys2, [c]) == Next(cfg, sys2, c);
    assert Run(cfg, sys1, [b, c]);
  }

  lemma {:induction false} SameMatchesTwice(log: seq<(nat, Batch)>)
    requires |log| == 2 && log[0].1.matches == log[1].1.matches != []
    ensures !MatchedAtMostOnce(log)
  {
    var m := log[0].1.matches[0];
    assert Netting.Names(m, m.intentA);
    assert Netting.Names(log[0].1.matches[0], m.intentA) && Netting.Names(log[1].1.matches[0], m.intentA);
  }

  lemma {:induction false} SecondEpisode(
    cfg: Config, sys: System, x: MpcIntent, y: MpcIntent, now: string, batchId: string)
    returns (steps: seq<Step>)
    requires Netting.SortsByAmount(cfg.sort) && Inv(sys) && 1 !in sys.tasks && |sys.log| == 1
    requires sys.log[0].1.matches != []
    requires forall i | 0 <= i < |sys.state.sessions| :: sys.state.sessions[i].status != Open
    requires LocalRound(cfg, PairSession(x, y, now), batchId).1.Produced?
    requires LocalRound(cfg, PairSession(x, y, now), batchId).1.batch.matches == sys.log[0].1.matches
    ensures Run(cfg, sys, steps) && !MatchedAtMostOnce(Reached(cfg, sys, steps).log)
  {
    var sys';
    steps, sys' := EpisodeLogs(cfg, sys, x, y, now, 1, batchId);
    SameMatchesTwice(sys'.log);
  }

  /** The demand on submissions is needed: two intents that match once match again when both are
      submitted again after their session was signed. */
  lemma {:induction false} ResubmissionMatchesTwice(
    cfg: Config, x: MpcIntent, y: MpcIntent, n1: string, n2: string, b1: string, b2: string)
    returns (first: seq<Step>, second: seq<Step>)
    requires Netting.SortsByAmount(cfg.sort)
    requires LocalRound(cfg, PairSession(x, y, n1), b1).1.Produced?
    requires LocalRound(cfg, PairSession(x, y, n1), b1).1.batch.matches != []
    ensures Run(cfg, INITIAL, first) && Run(cfg, Reached(cfg, INITIAL, first), second)
    ensures !MatchedAtMostOnce(Reached(cfg, Reached(cfg, INITIAL, first), second).log)
  {
    var sys;
    InitialInv();
    PairIgnoresIds(cfg, x, y, n1, n2, b1, b2);
    first, sys := EpisodeLogs(cfg, INITIAL, x, y, n1, 0, b1);
    second := SecondEpisode(cfg, sys, x, y, n2, b2);
  }

  // ---------- what a malformed share does ----------

  /** A round that throws strands its session: submitting the two intents and starting the round leaves
      the session in matching for good, with every share its round had opened. */
  lemma {:induction false} MalformedShareStrands(cfg: Config, x: MpcIntent, y: MpcIntent, now: string, batchId: string)
    returns (steps: seq<Step>)
    requires Netting.SortsByAmount(cfg.sort) && LocalRound(cfg, PairSession(x, y, now), batchId).1.Threw?
    ensures Run(cfg, INITIAL, steps) && Inv(Reached(cfg, INITIAL, steps)) && Stuck(Reached(cfg, INITIAL, steps), 0)
    ensures Reached(cfg, INITIAL, steps).state.sessions[0] == LocalRound(cfg, PairSession(x, y, now), batchId).0
  {
    InitialInv();
    var sys2 := TwoSubmitted(cfg, INITIAL, x, y, now);
    var go := MatchNow(now, 0, InProcess(batchId));
    RoundStrands(cfg, sys2, now, 0, batchId, 0);
    RunThree(cfg, INITIAL, Submit(x, now), Submit(y, now), go);
    steps := [Submit(x, now), Submit(y, now), go];
  }

  lemma {:induction false} RoundStrands(cfg: Config, sys: System, sessionId: string, task: nat, batchId: string, n: nat)
    requires Netting.SortsByAmount(cfg.sort) && Inv(sys) && task !in sys.tasks
    requires n < |sys.state.sessions| && GetSession(sys.state, sessionId) == Some(n)
    requires sys.state.sessions[n].status == Open && LocalRound(cfg, sys.state.sessions[n], batchId).1.Threw?
    ensures var sys' := Next(cfg, sys, MatchNow(sessionId, task, InProcess(batchId)));
            && Inv(sys') && Stuck(sys', n)
            && sys'.state.sessions[n] == LocalRound(cfg, sys.state.sessions[n], batchId).0
  {
    StepKeeps(cfg, sys, MatchNow(sessionId, task, InProcess(batchId)));
    MatchNowBegins(cfg, sys, sessionId, task, batchId, n);
    OpenIsNotInRound(sys, n);
    assert sys.tasks - {task} == sys.tasks;
  }

  // ---------- the index agrees with a scan ----------

  /** Each session is found under its id, and each intent under the session that holds it. */
  ghost predicate Indexed(c: State) {
    && (forall i | 0 <= i < |c.sessions| :: Find(c.index, c.sessions[i].sessionId) == Some(i))
    && (forall i, id | 0 <= i < |c.sessions| && Has(c.sessions[i].intents, id) ::
          Find(c.intentToSession, id) == Some(c.sessions[i].sessionId))
    && (forall id | Has(c.intentToSession, id) :: exists i :: 0 <= i < |c.sessions| && Has(c.sessions[i].intents, id))
  }

  lemma {:induction false} IndexedLookup(c: State, id: string, i: nat)
    requires Indexed(c) && i < |c.sessions|
    ensures GetSessionForIntent(c, id) == Some(i) <==> Has(c.sessions[i].intents, id)
  {
    assert Find(c.intentToSession, id).Some? <==> Has(c.intentToSession, id);
    assert Find(c.index, c.sessions[i].sessionId) == Some(i);
    if GetSessionForIntent(c, id) == Some(i) {
      var j :| 0 <= j < |c.sessions| && Has(c.sessions[j].intents, id);
      assert Find(c.index, c.sessions[j].sessionId) == Some(j);
    }
  }

  /** Sessions stay findable exactly when a new session takes an id no session has. */
  lemma {:induction false} CreateIndexedIff(c: State, now: string)
    requires Indexed(c)
    ensures Indexed(CreateSession(c, now)) <==> forall i | 0 <= i < |c.sessions| :: c.sessions[i].sessionId != now
  {
    var d, n := CreateSession(c, now), |c.sessions|;
    forall i | 0 <= i < n
      ensures Find(d.index, c.sessions[i].sessionId) == if c.sessions[i].sessionId == now then Some(n) else Some(i)
    {
      PutFind(c.index, now, n, c.sessions[i].sessionId);
    }
    PutFind(c.index, now, n, now);
    assert forall id :: !Has(NewSession(now).intents, id);
    assert forall i | 0 <= i < n :: d.sessions[i] == c.sessions[i];
    forall id | Has(d.intentToSession, id) ensures exists i :: 0 <= i < |d.sessions| && Has(d.sessions[i].intents, id) {
      var i :| 0 <= i < n && Has(c.sessions[i].intents, id);
      assert Has(d.sessions[i].intents, id);
    }
  }

  /** A submission that opens a session gives it an id no session has. */
  ghost predicate FreshSessionId(sys: System, step: Step) {
    step.Submit? && OpenSlot(sys.state, 0).None? ==>
      forall i | 0 <= i < |sys.state.sessions| :: sys.state.sessions[i].sessionId != step.now
  }

  /** The index keeps agreeing with a scan over all sessions. */
  lemma {:induction false} StepKeepsIndexed(cfg: Config, sys: System, step: Step)
    requires Inv(sys) && HeldOnce(sys.state) && Indexed(sys.state)
    requires Enabled(sys, step) && FreshStep(sys, step) && FreshSessionId(sys, step)
    ensures Indexed(Next(cfg, sys, step).state)
  {
    if step.Submit? {
      SubmitIndexed(sys, step.intent, step.now);
    } else {
      OnlySubmitAddsIntents(cfg, sys, step);
    }
  }

  /** Registering an intent with a session that alone may hold it keeps the index in agreement. */
  lemma {:induction false} AcceptIndexed(d: State, slot: nat, intent: MpcIntent)
    requires Indexed(d) && slot < |d.sessions|
    requires forall i | 0 <= i < |d.sessions| && Has(d.sessions[i].intents, intent.intentId) :: i == slot
    ensures Indexed(SetSession(d, slot, Accept(d.sessions[slot], intent))
                      .(intentToSession := Put(d.intentToSession, intent.intentId, d.sessions[slot].sessionId)))
  {
    var id0, sid := intent.intentId, d.sessions[slot].sessionId;
    var e := SetSession(d, slot, Accept(d.sessions[slot], intent))
               .(intentToSession := Put(d.intentToSession, id0, sid));
    forall i, id | 0 <= i < |e.sessions|
      ensures Has(e.sessions[i].intents, id) <==> (i == slot && id == id0) || Has(d.sessions[i].intents, id)
    {
      AcceptHolds(d.sessions[slot], intent, id);
    }
    forall i, id | 0 <= i < |e.sessions| && Has(e.sessions[i].intents, id)
      ensures Find(e.intentToSession, id) == Some(e.sessions[i].sessionId)
    {
      PutFind(d.intentToSession, id0, sid, id);
    }
    forall id | Has(e.intentToSession, id) ensures exists i :: 0 <= i < |e.sessions| && Has(e.sessions[i].intents, id) {
      PutFind(d.intentToSession, id0, sid, id);
      assert Find(e.intentToSession, id).Some? && (Find(d.intentToSession, id).Some? <==> Has(d.intentToSession, id));
      if id == id0 {
        assert Has(e.sessions[slot].intents, id);
      } else {
        var i :| 0 <= i < |d.sessions| && Has(d.sessions[i].intents, id);
        assert Has(e.sessions[i].intents, id);
      }
    }
  }

  lemma {:induction false} SubmitIndexed(sys: System, intent: MpcIntent, now: string)
    requires Inv(sys) && HeldOnce(sys.state) && Indexed(sys.state)
    requires FreshStep(sys, Submit(intent, now)) && FreshSessionId(sys, Submit(intent, now))
    ensures Indexed(AddIntent(sys.state, intent, now))
  {
    var c := sys.state;
    var d, slot := WithOpen(c, now), OpenOrLast(c, now);
    WithOpenKeeps(c, now);
    if OpenSlot(c, 0).None? { CreateIndexedIff(c, now); }
    forall i | 0 <= i < |d.sessions| && Has(d.sessions[i].intents, intent.intentId) ensures i == slot {
      assert !Has(NewSession(now).intents, intent.intentId);
    }
    AcceptIndexed(d, slot, intent);
  }

  // ---------- all session promises, in every reachable state ----------

  /** Steps that meet every demand: fresh intents, fresh session ids, nodes that report committee ids. */
  ghost predicate GuardedRun(cfg: Config, sys: System, steps: seq<Step>)
    decreases |steps|
  {
    steps == [] ||
    (&& Enabled(sys, steps[0]) && FreshStep(sys, steps[0]) && FreshSessionId(sys, steps[0]) && HonestStep(cfg, steps[0])
     && GuardedRun(cfg, Next(cfg, sys, steps[0]), steps[1..]))
  }

  lemma {:induction false} GuardedRunKeeps(cfg: Config, sys: System, steps: seq<Step>)
    requires Netting.SortsByAmount(cfg.sort) && GuardedRun(cfg, sys, steps)
    requires Inv(sys) && HeldOnce(sys.state) && Clean(sys) && Indexed(sys.state)
    ensures Run(cfg, sys, steps)
    ensures var last := Reached(cfg, sys, steps); Inv(last) && Clean(last) && Indexed(last.state)
    decreases |steps|
  {
    if steps != [] {
      StepKeeps(cfg, sys, steps[0]);
      StepKeepsHeldOnce(cfg, sys, steps[0]);
      StepKeepsClean(cfg, sys, steps[0]);
      StepKeepsIndexed(cfg, sys, steps[0]);
      GuardedRunKeeps(cfg, Next(cfg, sys, steps[0]), steps[1..]);
    }
  }

  /** In every state a guarded run reaches: at most one session is open; a session has a batch exactly
      when it is signed; no open or signed session holds a plaintext share, and one in matching does
      exactly when its round has thrown; looking an intent up finds exactly the session that holds it. */
  lemma {:induction false} ReachableSessions(cfg: Config, steps: seq<Step>, i: nat, j: nat, id: string)
    requires Netting.SortsByAmount(cfg.sort) && GuardedRun(cfg, INITIAL, steps)
    ensures Run(cfg, INITIAL, steps)
    ensures var sys := Reached(cfg, INITIAL, steps);
            var c := sys.state;
            i < |c.sessions| && j < |c.sessions| ==>
              && (c.sessions[i].status == Open && c.sessions[j].status == Open ==> i == j)
              && (c.sessions[i].batch.Some? <==> c.sessions[i].status == Signed)
              && (c.sessions[i].status in {Open, Signed} ==> NoPlaintext(c.sessions[i].shares))
              && (c.sessions[i].status == Matching ==> (NoPlaintext(c.sessions[i].shares) <==> !Stuck(sys, i)))
              && (GetSessionForIntent(c, id) == Some(i) <==> Has(c.sessions[i].intents, id))
  {
    InitialInv();
    GuardedRunKeeps(cfg, INITIAL, steps);
    var sys := Reached(cfg, INITIAL, steps);
    if i < |sys.state.sessions| {
      assert SessionClean(sys.state.sessions[i], InRound(sys.tasks, i));
      IndexedLookup(sys.state, id, i);
    }
  }
}
