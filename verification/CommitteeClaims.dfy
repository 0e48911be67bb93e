/** At most one match per intent over all batches ever signed, under the exact demand on submissions: no
    id goes to the committee again while a session that has left open may still match it or has. */
module CommitteeClaims {
  import opened JsMap
  import opened Sessions
  import opened Rounds
  import opened Committee
  import opened CommitteeProofs
  import opened CommitteeHygiene
  import opened CommitteeSafety
  import Netting

  // ---------- claims ----------

  ghost predicate NamedBy(ms: seq<Netting.MatchResult>, id: string) {
    exists k :: 0 <= k < |ms| && Netting.Names(ms[k], id)
  }

  /** The round runs on session i and may still match the id: it waits for the shares, or its matches
      name the id and wait for signatures. */
  ghost predicate WorksOn(t: Task, i: nat, id: string) {
    t.slot == i && (t.phase.Decrypting? || (t.phase.Signing? && NamedBy(t.phase.matches, id)))
  }

  /** Session i holds the id and may still match it, or has. */
  ghost predicate Claims(sys: System, i: nat, id: string) {
    && i < |sys.state.sessions| && Has(sys.state.sessions[i].intents, id)
    && match sys.state.sessions[i].status
       case Open => true
       case Matching => exists t :: t in sys.tasks && WorksOn(sys.tasks[t], i, id)
       case Signed => sys.state.sessions[i].batch.Some? && NamedBy(sys.state.sessions[i].batch.value.matches, id)
       case Failed => false
  }

  ghost predicate ClaimedOnce(sys: System) {
    forall i: nat, j: nat, id | Claims(sys, i, id) && Claims(sys, j, id) :: i == j
  }

  /** A submission names no id claimed by a session that has left open. Ids of sessions that failed, were
      stranded, or were signed without naming them may come again. */
  ghost predicate Unclaimed(sys: System, step: Step) {
    step.Submit? ==>
      forall i: nat | i < |sys.state.sessions| && sys.state.sessions[i].status != Open ::
        !Claims(sys, i, step.intent.intentId)
  }

  // ---------- only a submission adds a claim ----------

  /** One session and the task working on it change; the claims of the others do not grow. */
  lemma {:induction false} ClaimedElsewhere(sys: System, sys': System, task: nat, slot: nat, i: nat, id: string)
    requires Claims(sys', i, id) && i != slot
    requires |sys'.state.sessions| == |sys.state.sessions| && sys'.state.sessions[i] == sys.state.sessions[i]
    requires sys'.tasks - {task} == sys.tasks - {task}
    requires task in sys'.tasks ==> sys'.tasks[task].phase.Finishing? || sys'.tasks[task].slot == slot
    ensures Claims(sys, i, id)
  {
    if sys.state.sessions[i].status == Matching {
      var t :| t in sys'.tasks && WorksOn(sys'.tasks[t], i, id);
      assert t in sys'.tasks - {task};
    }
  }

  lemma {:induction false} BeginClaims(cfg: Config, sys: System, task: nat, slot: nat, mode: Mode, i: nat, id: string)
    requires slot < |sys.state.sessions| && sys.state.sessions[slot].status == Open
    requires Claims(Begin(cfg, sys, task, slot, [], mode), i, id)
    ensures Claims(sys, i, id)
  {
    if i != slot { ClaimedElsewhere(sys, Begin(cfg, sys, task, slot, [], mode), task, slot, i, id); }
  }

  lemma {:induction false} LaunchClaims(
    cfg: Config, sys: System, task: nat, slots: seq<nat>, mode: Mode, i: nat, id: string)
    requires |slots| <= 1 && forall x | x in slots :: x < |sys.state.sessions| && sys.state.sessions[x].status == Open
    requires Claims(Launch(cfg, sys, task, slots, mode), i, id)
    ensures Claims(sys, i, id)
  {
    if slots != [] {
      assert slots[0] in slots && slots[1..] == [];
    }
    if slots != [] && |sys.state.sessions[slots[0]].intents| >= 2 {
      BeginClaims(cfg, sys, task, slots[0], mode, i, id);
    } else {
      assert Launch(cfg, sys, task, [], mode) == sys.(tasks := sys.tasks - {task});
      ClaimedElsewhere(sys, Launch(cfg, sys, task, slots, mode), task, i + 1, i, id);
    }
  }

  lemma {:induction false} DecryptClaims(
    cfg: Config, sys: System, task: nat, replies: seq<Option<Reply>>, i: nat, id: string)
    requires Inv(sys) && Enabled(sys, DecryptAnswers(task, replies))
    requires Claims(Next(cfg, sys, DecryptAnswers(task, replies)), i, id)
    ensures Claims(sys, i, id)
  {
    NoOtherTask(sys, task);
    var t := sys.tasks[task];
    if i == t.slot {
      assert WorksOn(t, i, id);
    } else {
      ClaimedElsewhere(sys, Next(cfg, sys, DecryptAnswers(task, replies)), task, t.slot, i, id);
    }
  }

  /** A round that ends signed names in its batch what its matches named. */
  lemma {:induction false} SignClaims(
    cfg: Config, sys: System, task: nat, batchId: string, sigs: seq<Option<Signature>>, i: nat, id: string)
    requires Inv(sys) && Enabled(sys, SignAnswers(task, batchId, sigs))
    requires Claims(Next(cfg, sys, SignAnswers(task, batchId, sigs)), i, id)
    ensures Claims(sys, i, id)
  {
    NoOtherTask(sys, task);
    var t := sys.tasks[task];
    if i == t.slot {
      assert WorksOn(t, i, id);
    } else {
      ClaimedElsewhere(sys, Next(cfg, sys, SignAnswers(task, batchId, sigs)), task, t.slot, i, id);
    }
  }

  lemma {:induction false} DeliverClaims(
    cfg: Config, sys: System, intentId: string, sealed: SealedShare, i: nat, id: string)
    requires Claims(Next(cfg, sys, Deliver(intentId, sealed)), i, id)
    ensures Claims(sys, i, id)
  {
    var sys' := Next(cfg, sys, Deliver(intentId, sealed));
    if sys.state.sessions[i].status == Matching {
      var t :| t in sys'.tasks && WorksOn(sys'.tasks[t], i, id);
      assert t in sys.tasks && WorksOn(sys.tasks[t], i, id);
    }
  }

  lemma {:induction false} OnlySubmitClaims(cfg: Config, sys: System, step: Step, i: nat, id: string)
    requires Inv(sys) && Enabled(sys, step) && !step.Submit? && Claims(Next(cfg, sys, step), i, id)
    ensures Claims(sys, i, id)
  {
    match step
    case Deliver(intentId, sealed) => DeliverClaims(cfg, sys, intentId, sealed, i, id);
    case MatchNow(sessionId, task, mode) =>
      var slot := GetSession(sys.state, sessionId);
      if slot.Some? && slot.value < |sys.state.sessions| && sys.state.sessions[slot.value].status == Open {
        LaunchClaims(cfg, sys, task, [slot.value], mode, i, id);
      }
    case TimerTick(task, mode) =>
      OpenSessionsAtMostOne(sys.state, 0);
      LaunchClaims(cfg, sys, task, OpenSessions(sys.state, 0), mode, i, id);
    case DecryptAnswers(task, replies) => DecryptClaims(cfg, sys, task, replies, i, id);
    case SignAnswers(task, batchId, sigs) => SignClaims(cfg, sys, task, batchId, sigs, i, id);
    case Resume(task, mode) =>
      assert TaskOk(sys.state, sys.tasks[task]);
      LaunchClaims(cfg, sys, task, [], mode, i, id);
  }

  // ---------- a submission ----------

  /** A submission adds the open session's claim on its id, and nothing else. */
  lemma {:induction false} SubmitClaims(sys: System, intent: MpcIntent, now: string, i: nat, id: string)
    requires Inv(sys)
    ensures Claims(sys.(state := AddIntent(sys.state, intent, now)), i, id) <==>
              Claims(sys, i, id) || (i == OpenOrLast(sys.state, now) && id == intent.intentId)
  {
    var c, sys' := sys.state, sys.(state := AddIntent(sys.state, intent, now));
    WithOpenKeeps(c, now);
    if i < |sys'.state.sessions| { SubmitHolds(c, intent, now, i, id); }
    if i < |c.sessions| && i != OpenOrLast(c, now) {
      assert sys'.state.sessions[i] == c.sessions[i];
      assert Claims(sys', i, id) <==> Claims(sys, i, id);
    }
  }

  lemma {:induction false} UnclaimedKeeps(sys: System, intent: MpcIntent, now: string)
    requires Inv(sys) && ClaimedOnce(sys) && Unclaimed(sys, Submit(intent, now))
    ensures ClaimedOnce(sys.(state := AddIntent(sys.state, intent, now)))
  {
    var sys', slot := sys.(state := AddIntent(sys.state, intent, now)), OpenOrLast(sys.state, now);
    WithOpenKeeps(sys.state, now);
    forall i: nat | Claims(sys, i, intent.intentId) ensures i == slot {
      assert WithOpen(sys.state, now).sessions[i] == sys.state.sessions[i];
    }
    forall i: nat, j: nat, id | Claims(sys', i, id) && Claims(sys', j, id) ensures i == j {
      SubmitClaims(sys, intent, now, i, id);
      SubmitClaims(sys, intent, now, j, id);
    }
  }

  lemma {:induction false} ClaimedTwice(sys: System, intent: MpcIntent, now: string, i: nat)
    requires Inv(sys) && Claims(sys, i, intent.intentId) && sys.state.sessions[i].status != Open
    ensures !ClaimedOnce(sys.(state := AddIntent(sys.state, intent, now)))
  {
    var sys', slot := sys.(state := AddIntent(sys.state, intent, now)), OpenOrLast(sys.state, now);
    WithOpenKeeps(sys.state, now);
    assert WithOpen(sys.state, now).sessions[i] == sys.state.sessions[i];
    SubmitClaims(sys, intent, now, i, intent.intentId);
    SubmitClaims(sys, intent, now, slot, intent.intentId);
    assert Claims(sys', i, intent.intentId) && Claims(sys', slot, intent.intentId);
  }

  /** The exact condition: a step keeps at most one claim on every id iff it submits no id claimed by a
      session that has left open. */
  lemma {:induction false} ClaimedOnceIffUnclaimed(cfg: Config, sys: System, step: Step)
    requires Inv(sys) && ClaimedOnce(sys) && Enabled(sys, step)
    ensures ClaimedOnce(Next(cfg, sys, step)) <==> Unclaimed(sys, step)
  {
    if !step.Submit? {
      var sys' := Next(cfg, sys, step);
      forall i: nat, j: nat, id | Claims(sys', i, id) && Claims(sys', j, id) ensures i == j {
        OnlySubmitClaims(cfg, sys, step, i, id);
        OnlySubmitClaims(cfg, sys, step, j, id);
      }
    } else if Unclaimed(sys, step) {
      UnclaimedKeeps(sys, step.intent, step.now);
    } else {
      var i: nat :| i < |sys.state.sessions| && sys.state.sessions[i].status != Open
                 && Claims(sys, i, step.intent.intentId);
      ClaimedTwice(sys, step.intent, step.now, i);
    }
  }

  // ---------- at most one match per intent ----------

  /** What a signed batch names is claimed by its session. */
  lemma {:induction false} LoggedIsClaimed(sys: System, k: nat, i: nat, id: string)
    requires Inv(sys) && k < |sys.log| && i < |sys.log[k].1.matches| && Netting.Names(sys.log[k].1.matches[i], id)
    ensures Claims(sys, sys.log[k].0, id)
  {
    assert SessionOk(sys.state.sessions[sys.log[k].0]);
    assert sys.log[k].1.matches[i] in sys.log[k].1.matches;
  }

  lemma {:induction false} ClaimedOnceMatchedOnce(sys: System)
    requires Inv(sys) && ClaimedOnce(sys)
    ensures MatchedAtMostOnce(sys.log)
  {
    var c, log := sys.state, sys.log;
    forall k, i | 0 <= k < |log| && 0 <= i < |log[k].1.matches|
      ensures log[k].1.matches[i].intentA != log[k].1.matches[i].intentB
    {
      assert SessionOk(c.sessions[log[k].0]);
      assert log[k].1.matches[i] in log[k].1.matches;
    }
    forall k, l, i, j, id | 0 <= k < |log| && 0 <= l < |log|
                         && 0 <= i < |log[k].1.matches| && 0 <= j < |log[l].1.matches|
                         && Netting.Names(log[k].1.matches[i], id) && Netting.Names(log[l].1.matches[j], id)
      ensures k == l && i == j
    {
      LoggedIsClaimed(sys, k, i, id);
      LoggedIsClaimed(sys, l, j, id);
      assert SessionOk(c.sessions[log[k].0]);
    }
  }

  ghost predicate UnclaimedRun(cfg: Config, sys: System, steps: seq<Step>)
    decreases |steps|
  {
    steps == [] ||
    (&& Enabled(sys, steps[0]) && Unclaimed(sys, steps[0])
     && UnclaimedRun(cfg, Next(cfg, sys, steps[0]), steps[1..]))
  }

  lemma {:induction false} UnclaimedRunSafe(cfg: Config, sys: System, steps: seq<Step>)
    requires Netting.SortsByAmount(cfg.sort) && Inv(sys) && ClaimedOnce(sys) && UnclaimedRun(cfg, sys, steps)
    ensures Run(cfg, sys, steps) && MatchedAtMostOnce(Reached(cfg, sys, steps).log)
    decreases |steps|
  {
    if steps == [] {
      ClaimedOnceMatchedOnce(sys);
    } else {
      StepKeeps(cfg, sys, steps[0]);
      ClaimedOnceIffUnclaimed(cfg, sys, steps[0]);
      UnclaimedRunSafe(cfg, Next(cfg, sys, steps[0]), steps[1..]);
    }
  }

  /** Whole-run safety: over every interleaving of submissions, manual and timed rounds, in process or
      over the network, and whatever nodes fail, each intent is in at most one match of all the
      batches ever signed, and never with itself, as long as no claimed id is submitted again. */
  lemma {:induction false} EveryIntentMatchedAtMostOnce(cfg: Config, steps: seq<Step>)
    requires Netting.SortsByAmount(cfg.sort) && UnclaimedRun(cfg, INITIAL, steps)
    ensures Run(cfg, INITIAL, steps) && MatchedAtMostOnce(Reached(cfg, INITIAL, steps).log)
  {
    InitialInv();
    UnclaimedRunSafe(cfg, INITIAL, steps);
  }
}
