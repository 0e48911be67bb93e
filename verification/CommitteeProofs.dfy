/** What every step of the committee keeps: a single open session, frozen sessions, and rounds and
    batches whose matches join intents of their session, each once. */
module CommitteeProofs {
  import opened JsMap
  import opened Sessions
  import opened Rounds
  import opened RoundProofs
  import opened Committee
  import Netting
  import NettingProofs

  // ---------- per session ----------

  /** The matches join intents of the session, never one with itself, and no intent twice. */
  ghost predicate GoodMatches(intents: OrderedMap<string, MpcIntent>, ms: seq<Netting.MatchResult>) {
    && (forall m | m in ms :: m.intentA != m.intentB && Has(intents, m.intentA) && Has(intents, m.intentB))
    && (forall i, j, id | 0 <= i < |ms| && 0 <= j < |ms| && Netting.Names(ms[i], id) && Netting.Names(ms[j], id) ::
          i == j)
  }

  ghost predicate SessionOk(s: Session) {
    && (s.batch.Some? <==> s.status == Signed)
    && (s.batch.Some? ==> GoodMatches(s.intents, s.batch.value.matches))
  }

  /** What may happen to a session: its status moves forward, its intents are frozen once it is no
      longer open, and its batch, once there, stays. */
  ghost predicate Evolves(s: Session, s': Session) {
    && s'.sessionId == s.sessionId
    && (s'.status == s.status || s.status == Open || (s.status == Matching && s'.status in {Signed, Failed}))
    && (s.status != Open ==> s'.intents == s.intents)
    && (s.batch.Some? ==> s'.batch == s.batch)
  }

  lemma {:induction false} MatchesAreGood(cfg: Config, shares: ShareTable, intents: OrderedMap<string, MpcIntent>)
    requires Netting.SortsByAmount(cfg.sort) && Enough(shares, cfg.nodes, intents)
    ensures GoodMatches(intents, MatchesFor(cfg, shares, intents))
  {
    var plain := Reconstructed(shares, cfg.nodes, intents);
    var cs, ms := Netting.Matching(cfg.sort, plain), MatchesFor(cfg, shares, intents);
    NettingProofs.MatchingDisjoint(cfg.sort, plain);
    forall i | 0 <= i < |ms|
      ensures ms[i].intentA != ms[i].intentB && Has(intents, ms[i].intentA) && Has(intents, ms[i].intentB)
    {
      assert cs[i] in cs;
      PlainIsIntent(cfg, shares, intents, cs[i].a);
      PlainIsIntent(cfg, shares, intents, cs[i].b);
    }
    forall i, j, id | 0 <= i < |ms| && 0 <= j < |ms| && Netting.Names(ms[i], id) && Netting.Names(ms[j], id)
      ensures i == j
    {
      assert id in {cs[i].a.id, cs[i].b.id} && id in {cs[j].a.id, cs[j].b.id};
    }
  }

  lemma {:induction false} PlainIsIntent(
    cfg: Config, shares: ShareTable, intents: OrderedMap<string, MpcIntent>, i: Netting.Intent)
    requires Enough(shares, cfg.nodes, intents) && i in Reconstructed(shares, cfg.nodes, intents)
    ensures Has(intents, i.id)
  {
    var k :| 0 <= k < |intents| && Reconstructed(shares, cfg.nodes, intents)[k] == i;
    assert intents[k].0 == i.id;
  }

  lemma {:induction false} LocalRoundEvolves(cfg: Config, s: Session, batchId: string)
    requires Netting.SortsByAmount(cfg.sort) && SessionOk(s) && s.status == Open
    ensures var (s', o) := LocalRound(cfg, s, batchId);
            && SessionOk(s') && Evolves(s, s') && s'.intents == s.intents
            && (o.Produced? <==> s'.status == Signed) && (o.Produced? ==> s'.batch == Some(o.batch))
            && (o.Threw? <==> s'.status == Matching)
  {
    var t := OpenTable(cfg, s.shares, cfg.nodes).0;
    if Enough(t, cfg.nodes, s.intents) { MatchesAreGood(cfg, t, s.intents); }
  }

  // ---------- the invariant ----------

  /** The index is sound, at most one session is open, and an open session is indexed. */
  ghost predicate IndexOk(c: State) {
    && (forall k | 0 <= k < |c.index| :: c.index[k].1 < |c.sessions|)
    && (forall k, l | 0 <= k < l < |c.index| :: c.index[k].1 != c.index[l].1)
    && (forall i, j | 0 <= i < |c.sessions| && 0 <= j < |c.sessions|
                   && c.sessions[i].status == Open && c.sessions[j].status == Open :: i == j)
    && (forall i | 0 <= i < |c.sessions| && c.sessions[i].status == Open ::
          exists k :: 0 <= k < |c.index| && c.index[k].1 == i)
  }

  ghost predicate SessionsOk(c: State) {
    forall i | 0 <= i < |c.sessions| :: SessionOk(c.sessions[i])
  }

  /** A round in flight owns a session in status matching; no snapshot has anything left to do. */
  ghost predicate TaskOk(c: State, t: Task) {
    && t.slot < |c.sessions| && t.rest == []
    && (!t.phase.Finishing? ==> c.sessions[t.slot].status == Matching)
    && (t.phase.Signing? ==> GoodMatches(c.sessions[t.slot].intents, t.phase.matches))
  }

  ghost predicate TasksOk(c: State, tasks: map<nat, Task>) {
    && (forall t | t in tasks :: TaskOk(c, tasks[t]))
    && (forall t, u | t in tasks && u in tasks && t != u && !tasks[t].phase.Finishing? && !tasks[u].phase.Finishing? ::
          tasks[t].slot != tasks[u].slot)
  }

  ghost predicate LogOk(c: State, log: seq<(nat, Batch)>) {
    && (forall k | 0 <= k < |log| :: log[k].0 < |c.sessions| && c.sessions[log[k].0].batch == Some(log[k].1))
    && (forall k, l | 0 <= k < l < |log| :: log[k].0 != log[l].0)
  }

  ghost predicate Inv(sys: System) {
    IndexOk(sys.state) && SessionsOk(sys.state) && TasksOk(sys.state, sys.tasks) && LogOk(sys.state, sys.log)
  }

  /** Every session of the earlier state is still there and has only evolved. */
  ghost predicate Grows(c: State, d: State) {
    |c.sessions| <= |d.sessions| && forall i | 0 <= i < |c.sessions| :: Evolves(c.sessions[i], d.sessions[i])
  }

  // ---------- one session changes ----------

  lemma {:induction false} SetKeepsIndex(c: State, slot: nat, s: Session)
    requires IndexOk(c) && slot < |c.sessions| && (s.status == Open ==> c.sessions[slot].status == Open)
    ensures IndexOk(SetSession(c, slot, s))
  {
    var d := SetSession(c, slot, s);
    forall i | 0 <= i < |d.sessions| && d.sessions[i].status == Open
      ensures exists k :: 0 <= k < |d.index| && d.index[k].1 == i
    {
      assert c.sessions[i].status == Open;
    }
  }

  lemma {:induction false} SetGrows(c: State, slot: nat, s: Session)
    requires slot < |c.sessions| && Evolves(c.sessions[slot], s)
    ensures Grows(c, SetSession(c, slot, s))
  {
  }

  lemma {:induction false} GrowsKeepsLog(c: State, d: State, log: seq<(nat, Batch)>)
    requires LogOk(c, log) && Grows(c, d)
    ensures LogOk(d, log)
  {
  }

  lemma {:induction false} LogAppend(c: State, d: State, log: seq<(nat, Batch)>, slot: nat, b: Batch)
    requires LogOk(c, log) && Grows(c, d) && slot < |c.sessions|
    requires c.sessions[slot].batch.None? && d.sessions[slot].batch == Some(b)
    ensures LogOk(d, log + [(slot, b)])
  {
    forall k | 0 <= k < |log| ensures log[k].0 != slot {
    }
  }

  /** Tasks survive any growth that leaves their sessions in status matching alone. */
  lemma {:induction false} GrowsKeepsTasks(c: State, d: State, tasks: map<nat, Task>)
    requires TasksOk(c, tasks) && Grows(c, d)
    requires forall t | t in tasks && !tasks[t].phase.Finishing? :: d.sessions[tasks[t].slot].status == Matching
    ensures TasksOk(d, tasks)
  {
    forall t | t in tasks ensures TaskOk(d, tasks[t]) {
      assert TaskOk(c, tasks[t]);
      assert Evolves(c.sessions[tasks[t].slot], d.sessions[tasks[t].slot]);
    }
  }

  lemma {:induction false} DropTask(c: State, tasks: map<nat, Task>, task: nat)
    requires TasksOk(c, tasks)
    ensures TasksOk(c, tasks - {task})
  {
  }

  lemma {:induction false} PutTask(c: State, tasks: map<nat, Task>, task: nat, t: Task)
    requires TasksOk(c, tasks - {task}) && TaskOk(c, t)
    requires !t.phase.Finishing? ==>
               forall u | u in tasks && u != task && !tasks[u].phase.Finishing? :: tasks[u].slot != t.slot
    ensures TasksOk(c, tasks[task := t])
  {
    var after := tasks[task := t];
    forall u | u in after ensures TaskOk(c, after[u]) {
      if u != task { assert u in tasks - {task}; }
    }
    forall u, v | u in after && v in after && u != v && !after[u].phase.Finishing? && !after[v].phase.Finishing?
      ensures after[u].slot != after[v].slot
    {
      if u != task && v != task { assert u in tasks - {task} && v in tasks - {task}; }
    }
  }

  // ---------- starting a round ----------

  lemma {:induction false} OpenSessionsAtMostOne(c: State, from: nat)
    requires IndexOk(c) && from <= |c.index|
    ensures |OpenSessions(c, from)| <= 1
    ensures forall x | x in OpenSessions(c, from) :: exists k :: from <= k < |c.index| && c.index[k].1 == x
    decreases |c.index| - from
  {
    if from < |c.index| {
      OpenSessionsAtMostOne(c, from + 1);
      var slot := c.index[from].1;
      var rest := OpenSessions(c, from + 1);
      assert |rest| > 0 ==> rest[0] in rest;
      if x :| x in rest && c.sessions[slot].status == Open {
        assert false;
      }
    }
  }

  lemma {:induction false} BeginKeeps(cfg: Config, sys: System, task: nat, slot: nat, mode: Mode)
    requires Netting.SortsByAmount(cfg.sort) && Inv(sys)
    requires slot < |sys.state.sessions| && sys.state.sessions[slot].status == Open
    ensures Inv(Begin(cfg, sys, task, slot, [], mode)) && Grows(sys.state, Begin(cfg, sys, task, slot, [], mode).state)
  {
    var c, s := sys.state, sys.state.sessions[slot];
    assert SessionOk(s);
    var s' := if mode.OverNetwork? then s.(status := Matching) else LocalRound(cfg, s, mode.batchId).0;
    if mode.InProcess? { LocalRoundEvolves(cfg, s, mode.batchId); }
    var d := SetSession(c, slot, s');
    SetGrows(c, slot, s');
    if s'.status != Open {
      SetKeepsIndex(c, slot, s');
    } else {
      assert s' == s && d == c;
    }
    DropTask(c, sys.tasks, task);
    forall t | t in sys.tasks - {task} && !sys.tasks[t].phase.Finishing?
      ensures d.sessions[sys.tasks[t].slot].status == Matching
    {
      assert TaskOk(c, sys.tasks[t]);
    }
    GrowsKeepsTasks(c, d, sys.tasks - {task});
    forall t | t in sys.tasks && t != task && !sys.tasks[t].phase.Finishing? ensures sys.tasks[t].slot != slot {
      assert TaskOk(c, sys.tasks[t]);
    }
    if mode.OverNetwork? || s'.status != Matching {
      PutTask(d, sys.tasks, task, Task(slot, if mode.OverNetwork? then Decrypting else Finishing, []));
    }
    GrowsKeepsLog(c, d, sys.log);
    if mode.InProcess? && LocalRound(cfg, s, mode.batchId).1.Produced? {
      LogAppend(c, d, sys.log, slot, LocalRound(cfg, s, mode.batchId).1.batch);
    }
  }

  lemma {:induction false} LaunchKeeps(cfg: Config, sys: System, task: nat, slots: seq<nat>, mode: Mode)
    requires Netting.SortsByAmount(cfg.sort) && Inv(sys)
    requires |slots| <= 1 && forall x | x in slots :: x < |sys.state.sessions| && sys.state.sessions[x].status == Open
    ensures Inv(Launch(cfg, sys, task, slots, mode)) && Grows(sys.state, Launch(cfg, sys, task, slots, mode).state)
  {
    DropTask(sys.state, sys.tasks, task);
    if slots != [] {
      assert slots[0] in slots && slots[1..] == [];
      BeginKeeps(cfg, sys, task, slots[0], mode);
    }
  }

  // ---------- submissions ----------

  lemma {:induction false} OpenSlotNone(c: State, from: nat, k: nat)
    requires IndexOk(c) && from <= k < |c.index| && OpenSlot(c, from).None?
    ensures c.sessions[c.index[k].1].status != Open
    decreases |c.index| - from
  {
    if from < k {
      OpenSlotNone(c, from + 1, k);
    }
  }

  lemma {:induction false} PutIndexOk(index: OrderedMap<string, nat>, id: string, newest: nat)
    requires forall k | 0 <= k < |index| :: index[k].1 < newest
    requires forall k, l | 0 <= k < l < |index| :: index[k].1 != index[l].1
    ensures forall k | 0 <= k < |Put(index, id, newest)| :: Put(index, id, newest)[k].1 <= newest
    ensures forall k, l | 0 <= k < l < |Put(index, id, newest)| ::
              Put(index, id, newest)[k].1 != Put(index, id, newest)[l].1
    ensures exists k :: 0 <= k < |Put(index, id, newest)| && Put(index, id, newest)[k].1 == newest
  {
    assert Put(index, id, newest)[Index(index, id)].1 == newest;
  }

  lemma {:induction false} NoneOpen(c: State, i: nat)
    requires IndexOk(c) && OpenSlot(c, 0).None? && i < |c.sessions|
    ensures c.sessions[i].status != Open
  {
    if c.sessions[i].status == Open {
      var k :| 0 <= k < |c.index| && c.index[k].1 == i;
      OpenSlotNone(c, 0, k);
    }
  }

  lemma {:induction false} CreateKeeps(c: State, now: string)
    requires IndexOk(c) && forall i | 0 <= i < |c.sessions| :: c.sessions[i].status != Open
    ensures IndexOk(CreateSession(c, now))
  {
    var n := |c.sessions|;
    PutIndexOk(c.index, now, n);
    var d := CreateSession(c, now);
    assert forall i | 0 <= i < n :: d.sessions[i] == c.sessions[i];
    forall k | 0 <= k < |d.index| ensures d.index[k].1 < |d.sessions| {
      assert d.index[k].1 <= n;
    }
  }

  lemma {:induction false} WithOpenKeeps(c: State, now: string)
    requires IndexOk(c) && SessionsOk(c)
    ensures IndexOk(WithOpen(c, now)) && SessionsOk(WithOpen(c, now)) && Grows(c, WithOpen(c, now))
    ensures WithOpen(c, now).sessions[OpenOrLast(c, now)].status == Open
  {
    if OpenSlot(c, 0).None? {
      forall i | 0 <= i < |c.sessions| ensures c.sessions[i].status != Open { NoneOpen(c, i); }
      CreateKeeps(c, now);
    }
  }

  lemma {:induction false} GrowsOn(c: State, d: State, e: State)
    requires Grows(c, d) && Grows(d, e)
    ensures Grows(c, e)
  {
    forall i | 0 <= i < |c.sessions| ensures Evolves(c.sessions[i], e.sessions[i]) {
      EvolvesTransitive(c.sessions[i], d.sessions[i], e.sessions[i]);
    }
  }

  lemma {:induction false} AddKeeps(c: State, intent: MpcIntent, now: string)
    requires IndexOk(c) && SessionsOk(c)
    ensures var f := AddIntent(c, intent, now); IndexOk(f) && SessionsOk(f) && Grows(c, f)
  {
    var d, slot := WithOpen(c, now), OpenOrLast(c, now);
    WithOpenKeeps(c, now);
    var s' := Accept(d.sessions[slot], intent);
    assert SessionOk(d.sessions[slot]);
    SetKeepsIndex(d, slot, s');
    SetGrows(d, slot, s');
    GrowsOn(c, d, SetSession(d, slot, s'));
    var f := AddIntent(c, intent, now);
    assert f.sessions == SetSession(d, slot, s').sessions && f.index == d.index;
  }

  lemma {:induction false} SubmitKeeps(sys: System, intent: MpcIntent, now: string)
    requires Inv(sys)
    ensures var sys' := sys.(state := AddIntent(sys.state, intent, now)); Inv(sys') && Grows(sys.state, sys'.state)
  {
    var c := sys.state;
    var f := AddIntent(c, intent, now);
    AddKeeps(c, intent, now);
    forall t | t in sys.tasks && !sys.tasks[t].phase.Finishing?
      ensures f.sessions[sys.tasks[t].slot].status == Matching
    {
      assert TaskOk(c, sys.tasks[t]);
    }
    GrowsKeepsTasks(c, f, sys.tasks);
    GrowsKeepsLog(c, f, sys.log);
  }

  // ---------- answers ----------

  lemma {:induction false} TaskUpdateKeeps(sys: System, task: nat, phase: Phase, s': Session)
    requires Inv(sys) && task in sys.tasks && !sys.tasks[task].phase.Finishing?
    requires var s := sys.state.sessions[sys.tasks[task].slot];
             SessionOk(s') && Evolves(s, s') && s'.status != Open
             && (!phase.Finishing? ==> s'.status == Matching)
             && (phase.Signing? ==> GoodMatches(s'.intents, phase.matches))
    ensures var t := sys.tasks[task];
            && IndexOk(SetSession(sys.state, t.slot, s')) && SessionsOk(SetSession(sys.state, t.slot, s'))
            && TasksOk(SetSession(sys.state, t.slot, s'), sys.tasks[task := t.(phase := phase)])
            && TasksOk(SetSession(sys.state, t.slot, s'), sys.tasks - {task})
            && Grows(sys.state, SetSession(sys.state, t.slot, s'))
  {
    var c, t := sys.state, sys.tasks[task];
    assert TaskOk(c, t);
    var d := SetSession(c, t.slot, s');
    SetKeepsIndex(c, t.slot, s');
    SetGrows(c, t.slot, s');
    DropTask(c, sys.tasks, task);
    forall u | u in sys.tasks - {task} && !sys.tasks[u].phase.Finishing?
      ensures d.sessions[sys.tasks[u].slot].status == Matching
    {
      assert TaskOk(c, sys.tasks[u]);
    }
    GrowsKeepsTasks(c, d, sys.tasks - {task});
    PutTask(d, sys.tasks, task, t.(phase := phase));
  }

  lemma {:induction false} DecryptedEvolves(cfg: Config, s: Session, replies: seq<Option<Reply>>)
    requires Netting.SortsByAmount(cfg.sort) && SessionOk(s) && s.status == Matching
    ensures var (s', p) := RemoteDecrypted(cfg, s, replies);
            && SessionOk(s') && Evolves(s, s') && s'.status in {Matching, Failed}
            && (p.Continues? ==> s'.status == Matching && GoodMatches(s'.intents, p.matches))
  {
    var u := ApplyReplies(s.shares, Present(replies));
    if Enough(u, cfg.nodes, s.intents) { MatchesAreGood(cfg, u, s.intents); }
  }

  lemma {:induction false} DecryptKeeps(cfg: Config, sys: System, task: nat, replies: seq<Option<Reply>>)
    requires Netting.SortsByAmount(cfg.sort) && Inv(sys) && Enabled(sys, DecryptAnswers(task, replies))
    ensures Inv(Next(cfg, sys, DecryptAnswers(task, replies)))
    ensures Grows(sys.state, Next(cfg, sys, DecryptAnswers(task, replies)).state)
  {
    var t := sys.tasks[task];
    assert TaskOk(sys.state, t);
    var s := sys.state.sessions[t.slot];
    assert SessionOk(s);
    var (s', p) := RemoteDecrypted(cfg, s, replies);
    DecryptedEvolves(cfg, s, replies);
    TaskUpdateKeeps(sys, task, if p.Continues? then Signing(p.matches) else Finishing, s');
    GrowsKeepsLog(sys.state, SetSession(sys.state, t.slot, s'), sys.log);
  }

  lemma {:induction false} SignKeeps(cfg: Config, sys: System, task: nat, batchId: string, sigs: seq<Option<Signature>>)
    requires Inv(sys) && Enabled(sys, SignAnswers(task, batchId, sigs))
    ensures Inv(Next(cfg, sys, SignAnswers(task, batchId, sigs)))
    ensures Grows(sys.state, Next(cfg, sys, SignAnswers(task, batchId, sigs)).state)
  {
    var t := sys.tasks[task];
    assert TaskOk(sys.state, t);
    var s := sys.state.sessions[t.slot];
    assert SessionOk(s);
    var (s', o) := RemoteSigned(cfg, s, batchId, t.phase.matches, sigs);
    TaskUpdateKeeps(sys, task, Finishing, s');
    var d := SetSession(sys.state, t.slot, s');
    GrowsKeepsLog(sys.state, d, sys.log);
    if o.Produced? {
      LogAppend(sys.state, d, sys.log, t.slot, o.batch);
    }
  }

  lemma {:induction false} DeliverKeeps(cfg: Config, sys: System, intentId: string, sealed: SealedShare)
    requires Inv(sys)
    ensures Inv(Next(cfg, sys, Deliver(intentId, sealed)))
    ensures Grows(sys.state, Next(cfg, sys, Deliver(intentId, sealed)).state)
  {
    var c := sys.state;
    var found := GetSessionForIntent(c, intentId);
    if found.Some? && found.value < |c.sessions| {
      var slot := found.value;
      var s' := Redeliver(c.sessions[slot], intentId, sealed);
      assert SessionOk(c.sessions[slot]);
      SetKeepsIndex(c, slot, s');
      SetGrows(c, slot, s');
      var d := SetSession(c, slot, s');
      forall t | t in sys.tasks && !sys.tasks[t].phase.Finishing?
        ensures d.sessions[sys.tasks[t].slot].status == Matching
      {
        assert TaskOk(c, sys.tasks[t]);
      }
      GrowsKeepsTasks(c, d, sys.tasks);
      GrowsKeepsLog(c, d, sys.log);
    }
  }

  // ---------- every step, every run ----------

  /** Every step keeps the invariant, whatever the nodes, timers and clients do. */
  lemma {:induction false} StepKeeps(cfg: Config, sys: System, step: Step)
    requires Netting.SortsByAmount(cfg.sort) && Inv(sys) && Enabled(sys, step)
    ensures Inv(Next(cfg, sys, step)) && Grows(sys.state, Next(cfg, sys, step).state)
  {
    match step
    case Submit(intent, now) => SubmitKeeps(sys, intent, now);
    case Deliver(intentId, sealed) => DeliverKeeps(cfg, sys, intentId, sealed);
    case MatchNow(sessionId, task, mode) =>
      var slot := GetSession(sys.state, sessionId);
      if slot.Some? && slot.value < |sys.state.sessions| && sys.state.sessions[slot.value].status == Open {
        LaunchKeeps(cfg, sys, task, [slot.value], mode);
      }
    case TimerTick(task, mode) =>
      OpenSessionsAtMostOne(sys.state, 0);
      LaunchKeeps(cfg, sys, task, OpenSessions(sys.state, 0), mode);
    case DecryptAnswers(task, replies) => DecryptKeeps(cfg, sys, task, replies);
    case SignAnswers(task, batchId, sigs) => SignKeeps(cfg, sys, task, batchId, sigs);
    case Resume(task, mode) =>
      assert TaskOk(sys.state, sys.tasks[task]);
      LaunchKeeps(cfg, sys, task, [], mode);
  }

  /** A run: each step is enabled in the state the previous ones lead to. */
  ghost predicate Run(cfg: Config, sys: System, steps: seq<Step>)
    decreases |steps|
  {
    steps == [] || (Enabled(sys, steps[0]) && Run(cfg, Next(cfg, sys, steps[0]), steps[1..]))
  }

  ghost function Reached(cfg: Config, sys: System, steps: seq<Step>): System
    requires Run(cfg, sys, steps)
    decreases |steps|
  {
    if steps == [] then sys else Reached(cfg, Next(cfg, sys, steps[0]), steps[1..])
  }

  lemma {:induction false} EvolvesTransitive(s: Session, t: Session, u: Session)
    requires Evolves(s, t) && Evolves(t, u)
    ensures Evolves(s, u)
  {
  }

  /** In every reachable state at most one session is open, no session ever goes back, a session that
      left open keeps its intents, and a batch is there exactly when the session is signed. */
  lemma {:induction false} RunKeeps(cfg: Config, sys: System, steps: seq<Step>)
    requires Netting.SortsByAmount(cfg.sort) && Inv(sys) && Run(cfg, sys, steps)
    ensures Inv(Reached(cfg, sys, steps)) && Grows(sys.state, Reached(cfg, sys, steps).state)
    decreases |steps|
  {
    if steps != [] {
      var sys1 := Next(cfg, sys, steps[0]);
      StepKeeps(cfg, sys, steps[0]);
      RunKeeps(cfg, sys1, steps[1..]);
      var last := Reached(cfg, sys1, steps[1..]);
      GrowsOn(sys.state, sys1.state, last.state);
    }
  }

  lemma {:induction false} InitialInv()
    ensures Inv(INITIAL)
  {
  }
}
