/** Where plaintext shares may be: in no open or signed session, and in a session in matching exactly
    when its round has thrown; such a session stays as it is for ever. */
module CommitteeHygiene {
  import opened JsMap
  import opened Sessions
  import opened Rounds
  import opened RoundProofs
  import opened Committee
  import opened CommitteeProofs
  import Netting

  /** A round is working on the session. */
  ghost predicate InRound(tasks: map<nat, Task>, i: nat) {
    exists t :: t in tasks && tasks[t].slot == i && !tasks[t].phase.Finishing?
  }

  ghost predicate SessionClean(s: Session, inRound: bool) {
    match s.status
    case Open => NoPlaintext(s.shares)
    case Matching => NoPlaintext(s.shares) <==> inRound
    case Signed => NoPlaintext(s.shares)
    case Failed => true
  }

  ghost predicate Clean(sys: System) {
    forall i | 0 <= i < |sys.state.sessions| :: SessionClean(sys.state.sessions[i], InRound(sys.tasks, i))
  }

  /** Nodes answer under ids of the committee. */
  ghost predicate HonestStep(cfg: Config, step: Step) {
    step.DecryptAnswers? ==> forall r | r in Present(step.replies) :: r.nodeId in cfg.nodes
  }

  // ---------- one round ----------

  lemma {:induction false} LocalClean(cfg: Config, s: Session, batchId: string)
    requires s.status == Open && NoPlaintext(s.shares)
    ensures SessionClean(LocalRound(cfg, s, batchId).0, false)
  {
    ProducedIsClean(cfg, s, batchId, []);
    var t := OpenTable(cfg, s.shares, cfg.nodes).0;
    if Throws(t, cfg.nodes, s.intents) { ThrownKeepsPlaintext(t, cfg.nodes, s.intents); }
  }

  lemma {:induction false} RemoteClean(cfg: Config, s: Session, replies: seq<Option<Reply>>)
    requires s.status == Matching && NoPlaintext(s.shares)
    requires forall r | r in Present(replies) :: r.nodeId in cfg.nodes
    ensures SessionClean(RemoteDecrypted(cfg, s, replies).0, RemoteDecrypted(cfg, s, replies).1.Continues?)
  {
    ProducedIsClean(cfg, s, "", replies);
    var t := ApplyReplies(s.shares, Present(replies));
    if Throws(t, cfg.nodes, s.intents) { ThrownKeepsPlaintext(t, cfg.nodes, s.intents); }
  }

  /** Redelivery of a sealed share changes no plaintext. */
  lemma {:induction false} RedeliverPlain(s: Session, intentId: string, sealed: SealedShare)
    ensures NoPlaintext(Redeliver(s, intentId, sealed).shares) <==> NoPlaintext(s.shares)
  {
    var slots := SlotsOf(s.shares, sealed.nodeId);
    if Has(slots, intentId) {
      var e := Get(slots, intentId).(sealed := sealed);
      var t := Redeliver(s, intentId, sealed).shares;
      forall node, id ensures Decrypted(t, node, id) == Decrypted(s.shares, node, id) {
        SlotsOfPut(s.shares, sealed.nodeId, Put(slots, intentId, e), node);
        PlainInPut(slots, intentId, e, id);
      }
    }
  }

  // ---------- rounds in flight ----------

  lemma {:induction false} OpenIsNotInRound(sys: System, slot: nat)
    requires Inv(sys) && slot < |sys.state.sessions| && sys.state.sessions[slot].status != Matching
    ensures !InRound(sys.tasks, slot)
  {
    forall t | t in sys.tasks && !sys.tasks[t].phase.Finishing? ensures sys.tasks[t].slot != slot {
      assert TaskOk(sys.state, sys.tasks[t]);
    }
  }

  /** Replacing or dropping a task that works on no session but `slot` changes who is in a round only
      there. */
  lemma {:induction false} ElsewhereInRound(tasks: map<nat, Task>, tasks': map<nat, Task>, task: nat, slot: nat, i: nat)
    requires tasks' - {task} == tasks - {task} && i != slot
    requires task in tasks ==> tasks[task].phase.Finishing? || tasks[task].slot == slot
    requires task in tasks' ==> tasks'[task].phase.Finishing? || tasks'[task].slot == slot
    ensures InRound(tasks', i) <==> InRound(tasks, i)
  {
    if t :| t in tasks && tasks[t].slot == i && !tasks[t].phase.Finishing? {
      assert t in tasks - {task};
      assert t in tasks' - {task} && tasks'[t] == tasks[t];
    }
    if t :| t in tasks' && tasks'[t].slot == i && !tasks'[t].phase.Finishing? {
      assert t in tasks' - {task};
      assert t in tasks - {task} && tasks[t] == tasks'[t];
    }
  }

  /** One session changes and one task with it. */
  lemma {:induction false} SetClean(sys: System, sys': System, task: nat, slot: nat, s: Session)
    requires Clean(sys) && slot < |sys.state.sessions| && sys'.state.sessions == sys.state.sessions[slot := s]
    requires sys'.tasks - {task} == sys.tasks - {task}
    requires task in sys.tasks ==> sys.tasks[task].phase.Finishing? || sys.tasks[task].slot == slot
    requires task in sys'.tasks ==> sys'.tasks[task].phase.Finishing? || sys'.tasks[task].slot == slot
    requires SessionClean(s, InRound(sys'.tasks, slot))
    ensures Clean(sys')
  {
    forall i | 0 <= i < |sys'.state.sessions| ensures SessionClean(sys'.state.sessions[i], InRound(sys'.tasks, i)) {
      if i != slot { ElsewhereInRound(sys.tasks, sys'.tasks, task, slot, i); }
    }
  }

  lemma {:induction false} TaskGone(sys: System, tasks': map<nat, Task>, task: nat, slot: nat)
    requires Inv(sys) && tasks' - {task} == sys.tasks - {task} && (task in tasks' ==> tasks'[task].phase.Finishing?)
    requires forall t | t in sys.tasks && t != task && !sys.tasks[t].phase.Finishing? :: sys.tasks[t].slot != slot
    ensures !InRound(tasks', slot)
  {
    forall t | t in tasks' && !tasks'[t].phase.Finishing? ensures tasks'[t].slot != slot {
      assert t in tasks' - {task};
      assert t in sys.tasks - {task} && sys.tasks[t] == tasks'[t];
    }
  }

  lemma {:induction false} BeginClean(cfg: Config, sys: System, task: nat, slot: nat, rest: seq<nat>, mode: Mode)
    requires Inv(sys) && Clean(sys) && slot < |sys.state.sessions| && sys.state.sessions[slot].status == Open
    requires task in sys.tasks ==> sys.tasks[task].phase.Finishing?
    ensures Clean(Begin(cfg, sys, task, slot, rest, mode))
  {
    var sys', s := Begin(cfg, sys, task, slot, rest, mode), sys.state.sessions[slot];
    OpenIsNotInRound(sys, slot);
    assert SessionClean(s, false);
    assert sys'.tasks - {task} == sys.tasks - {task};
    if mode.InProcess? {
      LocalClean(cfg, s, mode.batchId);
      TaskGone(sys, sys'.tasks, task, slot);
    } else {
      assert task in sys'.tasks && sys'.tasks[task].slot == slot;
    }
    SetClean(sys, sys', task, slot, sys'.state.sessions[slot]);
  }

  lemma {:induction false} LaunchClean(cfg: Config, sys: System, task: nat, slots: seq<nat>, mode: Mode)
    requires Inv(sys) && Clean(sys) && |slots| <= 1 && (task in sys.tasks ==> sys.tasks[task].phase.Finishing?)
    requires forall x | x in slots :: x < |sys.state.sessions| && sys.state.sessions[x].status == Open
    ensures Clean(Launch(cfg, sys, task, slots, mode))
  {
    DropClean(sys, task);
    if slots != [] {
      assert slots[0] in slots && slots[1..] == [];
      BeginClean(cfg, sys, task, slots[0], [], mode);
    }
  }

  lemma {:induction false} DropClean(sys: System, task: nat)
    requires Clean(sys) && (task in sys.tasks ==> sys.tasks[task].phase.Finishing?)
    ensures Clean(sys.(tasks := sys.tasks - {task}))
  {
    var tasks' := sys.tasks - {task};
    assert tasks' - {task} == tasks';
    forall i | 0 <= i < |sys.state.sessions| ensures InRound(tasks', i) <==> InRound(sys.tasks, i) {
      ElsewhereInRound(sys.tasks, tasks', task, i + 1, i);
    }
  }

  // ---------- every step ----------

  lemma {:induction false} SubmitClean(sys: System, intent: MpcIntent, now: string)
    requires Inv(sys) && Clean(sys)
    ensures Clean(sys.(state := AddIntent(sys.state, intent, now)))
  {
    var c := sys.state;
    var d, slot, e := WithOpen(c, now), OpenOrLast(c, now), AddIntent(c, intent, now);
    WithOpenKeeps(c, now);
    assert NoPlaintext(NewSession(now).shares);
    if slot < |c.sessions| { assert SessionClean(c.sessions[slot], InRound(sys.tasks, slot)); }
    assert NoPlaintext(d.sessions[slot].shares);
    StoreSharesPlaintext(d.sessions[slot].shares, intent.intentId, intent.encryptedShares, {});
    forall i | 0 <= i < |e.sessions| ensures SessionClean(e.sessions[i], InRound(sys.tasks, i)) {
      if i != slot { assert e.sessions[i] == c.sessions[i]; }
    }
  }

  lemma {:induction false} DeliverClean(cfg: Config, sys: System, intentId: string, sealed: SealedShare)
    requires Clean(sys)
    ensures Clean(Next(cfg, sys, Deliver(intentId, sealed)))
  {
    var c := sys.state;
    var found := GetSessionForIntent(c, intentId);
    if found.Some? && found.value < |c.sessions| {
      var s := c.sessions[found.value];
      RedeliverPlain(s, intentId, sealed);
      assert SessionClean(s, InRound(sys.tasks, found.value));
      assert SessionClean(Redeliver(s, intentId, sealed), InRound(sys.tasks, found.value));
    }
  }

  lemma {:induction false} NoOtherTask(sys: System, task: nat)
    requires Inv(sys) && task in sys.tasks && !sys.tasks[task].phase.Finishing?
    ensures TaskOk(sys.state, sys.tasks[task]) && InRound(sys.tasks, sys.tasks[task].slot)
    ensures forall t | t in sys.tasks && t != task && !sys.tasks[t].phase.Finishing? ::
              sys.tasks[t].slot != sys.tasks[task].slot
  {
  }

  lemma {:induction false} DecryptClean(cfg: Config, sys: System, task: nat, replies: seq<Option<Reply>>)
    requires Inv(sys) && Clean(sys) && Enabled(sys, DecryptAnswers(task, replies))
    requires HonestStep(cfg, DecryptAnswers(task, replies))
    ensures Clean(Next(cfg, sys, DecryptAnswers(task, replies)))
  {
    NoOtherTask(sys, task);
    var t := sys.tasks[task];
    var s := sys.state.sessions[t.slot];
    assert SessionClean(s, true);
    RemoteClean(cfg, s, replies);
    var (s', p) := RemoteDecrypted(cfg, s, replies);
    var sys' := AfterDecrypt(cfg, sys, task, t, replies);
    assert sys'.tasks - {task} == sys.tasks - {task};
    if p.Continues? {
      assert task in sys'.tasks && sys'.tasks[task].slot == t.slot;
    } else {
      TaskGone(sys, sys'.tasks, task, t.slot);
    }
    SetClean(sys, sys', task, t.slot, s');
  }

  lemma {:induction false} SignClean(cfg: Config, sys: System, task: nat, batchId: string, sigs: seq<Option<Signature>>)
    requires Inv(sys) && Clean(sys) && Enabled(sys, SignAnswers(task, batchId, sigs))
    ensures Clean(Next(cfg, sys, SignAnswers(task, batchId, sigs)))
  {
    NoOtherTask(sys, task);
    var t := sys.tasks[task];
    var s := sys.state.sessions[t.slot];
    assert SessionClean(s, true);
    var sys' := AfterSign(cfg, sys, task, t, batchId, sigs);
    assert sys'.tasks - {task} == sys.tasks - {task};
    TaskGone(sys, sys'.tasks, task, t.slot);
    SetClean(sys, sys', task, t.slot, RemoteSigned(cfg, s, batchId, t.phase.matches, sigs).0);
  }

  /** Every step keeps plaintext where it may be, redelivery of shares included. */
  lemma {:induction false} StepKeepsClean(cfg: Config, sys: System, step: Step)
    requires Inv(sys) && Clean(sys) && Enabled(sys, step) && HonestStep(cfg, step)
    ensures Clean(Next(cfg, sys, step))
  {
    var c := sys.state;
    match step
    case Submit(intent, now) => SubmitClean(sys, intent, now);
    case Deliver(intentId, sealed) => DeliverClean(cfg, sys, intentId, sealed);
    case MatchNow(sessionId, task, mode) =>
      var slot := GetSession(c, sessionId);
      if slot.Some? && slot.value < |c.sessions| && c.sessions[slot.value].status == Open {
        LaunchClean(cfg, sys, task, [slot.value], mode);
      }
    case TimerTick(task, mode) =>
      OpenSessionsAtMostOne(c, 0);
      LaunchClean(cfg, sys, task, OpenSessions(c, 0), mode);
    case DecryptAnswers(task, replies) => DecryptClean(cfg, sys, task, replies);
    case SignAnswers(task, batchId, sigs) => SignClean(cfg, sys, task, batchId, sigs);
    case Resume(task, mode) =>
      assert TaskOk(c, sys.tasks[task]);
      LaunchClean(cfg, sys, task, [], mode);
  }

  // ---------- sessions whose round has thrown ----------

  /** In matching, with no round working on it. */
  ghost predicate Stuck(sys: System, i: nat) {
    i < |sys.state.sessions| && sys.state.sessions[i].status == Matching && !InRound(sys.tasks, i)
  }

  lemma {:induction false} LaunchSkips(cfg: Config, sys: System, task: nat, slots: seq<nat>, mode: Mode, i: nat)
    requires Stuck(sys, i) && |slots| <= 1 && (task in sys.tasks ==> sys.tasks[task].phase.Finishing?)
    requires forall x | x in slots :: x < |sys.state.sessions| && sys.state.sessions[x].status == Open
    ensures Stuck(Launch(cfg, sys, task, slots, mode), i)
  {
    if slots != [] { assert slots[0] in slots && slots[1..] == []; }
    if slots == [] || |sys.state.sessions[slots[0]].intents| < 2 {
      assert Launch(cfg, sys, task, slots, mode) == sys.(tasks := sys.tasks - {task});
      assert (sys.tasks - {task}) - {task} == sys.tasks - {task};
      ElsewhereInRound(sys.tasks, sys.tasks - {task}, task, i + 1, i);
    } else {
      BeginSkips(cfg, sys, task, slots[0], mode, i);
    }
  }

  lemma {:induction false} BeginSkips(cfg: Config, sys: System, task: nat, slot: nat, mode: Mode, i: nat)
    requires Stuck(sys, i) && (task in sys.tasks ==> sys.tasks[task].phase.Finishing?)
    requires slot < |sys.state.sessions| && sys.state.sessions[slot].status == Open
    ensures Stuck(Begin(cfg, sys, task, slot, [], mode), i)
  {
    var sys' := Begin(cfg, sys, task, slot, [], mode);
    assert sys'.tasks - {task} == sys.tasks - {task};
    ElsewhereInRound(sys.tasks, sys'.tasks, task, slot, i);
  }

  lemma {:induction false} AnswersSkip(cfg: Config, sys: System, step: Step, i: nat)
    requires Inv(sys) && Stuck(sys, i) && Enabled(sys, step) && (step.DecryptAnswers? || step.SignAnswers?)
    ensures Stuck(Next(cfg, sys, step), i)
  {
    var t := sys.tasks[step.task];
    assert TaskOk(sys.state, t) && t.slot != i;
    var sys' := Next(cfg, sys, step);
    assert sys'.tasks - {step.task} == sys.tasks - {step.task};
    ElsewhereInRound(sys.tasks, sys'.tasks, step.task, t.slot, i);
  }

  /** No step ever takes a stuck session on. */
  lemma {:induction false} StuckStays(cfg: Config, sys: System, step: Step, i: nat)
    requires Inv(sys) && Stuck(sys, i) && Enabled(sys, step)
    ensures Stuck(Next(cfg, sys, step), i)
  {
    var c := sys.state;
    match step
    case Submit(intent, now) =>
      WithOpenKeeps(c, now);
      assert AddIntent(c, intent, now).sessions[i] == c.sessions[i];
    case Deliver(intentId, sealed) =>
    case MatchNow(sessionId, task, mode) =>
      var slot := GetSession(c, sessionId);
      if slot.Some? && slot.value < |c.sessions| && c.sessions[slot.value].status == Open {
        LaunchSkips(cfg, sys, task, [slot.value], mode, i);
      }
    case TimerTick(task, mode) =>
      OpenSessionsAtMostOne(c, 0);
      LaunchSkips(cfg, sys, task, OpenSessions(c, 0), mode, i);
    case DecryptAnswers(task, replies) => AnswersSkip(cfg, sys, step, i);
    case SignAnswers(task, batchId, sigs) => AnswersSkip(cfg, sys, step, i);
    case Resume(task, mode) =>
      assert TaskOk(c, sys.tasks[task]);
      LaunchSkips(cfg, sys, task, [], mode, i);
  }

  /** A session whose round has thrown stays in matching for ever, whatever comes after. */
  lemma {:induction false} StuckForEver(cfg: Config, sys: System, steps: seq<Step>, i: nat)
    requires Netting.SortsByAmount(cfg.sort) && Inv(sys) && Stuck(sys, i) && Run(cfg, sys, steps)
    ensures Stuck(Reached(cfg, sys, steps), i)
    decreases |steps|
  {
    if steps != [] {
      StepKeeps(cfg, sys, steps[0]);
      StuckStays(cfg, sys, steps[0], i);
      StuckForEver(cfg, Next(cfg, sys, steps[0]), steps[1..], i);
    }
  }
}
