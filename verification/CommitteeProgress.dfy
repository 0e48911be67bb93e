/** What the steps of the committee bring about: the timer finds the open session, a round starts on it
    and ends as the round functions say, a delivery replaces one sealed share, and the log holds exactly
    the batches of the signed sessions. */
module CommitteeProgress {
  import opened JsMap
  import opened Sessions
  import opened Rounds
  import opened RoundProofs
  import opened Committee
  import opened CommitteeProofs
  import opened CommitteeHygiene
  import opened CommitteeSafety
  import Netting

  // ---------- rounds start ----------

  lemma {:induction false} SnapshotFrom(c: State, from: nat, k: nat)
    requires IndexOk(c) && from <= k < |c.index| && c.sessions[c.index[k].1].status == Open
    ensures c.index[k].1 in OpenSessions(c, from)
    decreases |c.index| - from
  {
    if from < k { SnapshotFrom(c, from + 1, k); }
  }

  /** The timer's snapshot holds exactly the open session, if there is one. */
  lemma {:induction false} SnapshotExact(c: State)
    requires IndexOk(c)
    ensures forall x: nat :: x in OpenSessions(c, 0) <==> x < |c.sessions| && c.sessions[x].status == Open
    ensures |OpenSessions(c, 0)| <= 1
  {
    OpenSessionsAtMostOne(c, 0);
    forall x: nat | x < |c.sessions| && c.sessions[x].status == Open ensures x in OpenSessions(c, 0) {
      var k :| 0 <= k < |c.index| && c.index[k].1 == x;
      SnapshotFrom(c, 0, k);
    }
  }

  /** The step asks for the round of session i, by the timer or by the session's id. */
  ghost predicate AsksFor(sys: System, step: Step, i: nat) {
    && i < |sys.state.sessions| && sys.state.sessions[i].status == Open
    && (step.TimerTick? || (step.MatchNow? && Find(sys.state.index, step.sessionId) == Some(i)))
  }

  lemma {:induction false} AskedIsLaunched(cfg: Config, sys: System, step: Step, i: nat)
    requires Inv(sys) && Enabled(sys, step) && AsksFor(sys, step, i)
    ensures Next(cfg, sys, step) == Launch(cfg, sys, step.task, [i], step.mode)
  {
    if step.TimerTick? {
      SnapshotExact(sys.state);
      var slots := OpenSessions(sys.state, 0);
      assert i in slots && slots[0] in slots;
      assert slots == [i];
    }
  }

  /** Over the network, asking for the round of an open session with two intents or more puts the
      session in matching and a task on it that waits for the shares; nothing else changes. */
  lemma {:induction false} NetworkRoundStarts(cfg: Config, sys: System, step: Step, i: nat)
    requires Inv(sys) && Enabled(sys, step) && AsksFor(sys, step, i) && step.mode.OverNetwork?
    requires |sys.state.sessions[i].intents| >= 2
    ensures var s, sys' := sys.state.sessions[i], Next(cfg, sys, step);
            && sys'.state == sys.state.(sessions := sys.state.sessions[i := s.(status := Matching)])
            && sys'.tasks == sys.tasks[step.task := Task(i, Decrypting, [])] && sys'.log == sys.log
  {
    AskedIsLaunched(cfg, sys, step, i);
    assert [i][1..] == [];
  }

  /** In process, the session ends as the round leaves it, a batch it produced is logged, and the
      activation lives on unless the round threw. */
  lemma {:induction false} LocalRoundRuns(cfg: Config, sys: System, step: Step, i: nat)
    requires Inv(sys) && Enabled(sys, step) && AsksFor(sys, step, i) && step.mode.InProcess?
    requires |sys.state.sessions[i].intents| >= 2
    ensures var (s, o), sys' := LocalRound(cfg, sys.state.sessions[i], step.mode.batchId), Next(cfg, sys, step);
            && sys'.state == sys.state.(sessions := sys.state.sessions[i := s])
            && (step.task in sys'.tasks <==> !o.Threw?) && sys'.tasks - {step.task} == sys.tasks
            && (step.task in sys'.tasks ==> sys'.tasks[step.task] == Task(i, Finishing, []))
            && sys'.log == sys.log + (if o.Produced? then [(i, o.batch)] else [])
  {
    AskedIsLaunched(cfg, sys, step, i);
    assert [i][1..] == [] && sys.tasks - {step.task} == sys.tasks;
  }

  /** With fewer than two intents, with no open session, or under an id whose session is not open, asking
      for a round changes nothing. */
  lemma {:induction false} NothingStarts(cfg: Config, sys: System, step: Step)
    requires Inv(sys) && Enabled(sys, step) && (step.TimerTick? || step.MatchNow?)
    requires forall i: nat | AsksFor(sys, step, i) :: |sys.state.sessions[i].intents| < 2
    ensures Next(cfg, sys, step) == sys
  {
    assert sys.tasks - {step.task} == sys.tasks;
    assert Launch(cfg, sys, step.task, [], step.mode) == sys;
    if i: nat :| AsksFor(sys, step, i) {
      AskedIsLaunched(cfg, sys, step, i);
      assert [i][1..] == [];
    } else if step.TimerTick? {
      SnapshotExact(sys.state);
      var slots := OpenSessions(sys.state, 0);
      if slots != [] { assert slots[0] in slots && AsksFor(sys, step, slots[0]); }
    } else {
      var slot := GetSession(sys.state, step.sessionId);
      if slot.Some? && sys.state.sessions[slot.value].status == Open { assert AsksFor(sys, step, slot.value); }
    }
  }

  // ---------- a remote round in three steps ----------

  ghost predicate Waiting(sys: System, task: nat, i: nat, s: Session) {
    && task in sys.tasks && sys.tasks[task] == Task(i, Decrypting, [])
    && i < |sys.state.sessions| && sys.state.sessions[i] == s.(status := Matching)
  }

  /** The answers that end a remote round: only those for the shares if that stops it. */
  ghost function Answered(
    cfg: Config, sys: System, task: nat, replies: seq<Option<Reply>>, batchId: string, sigs: seq<Option<Signature>>)
    : System
    requires Enabled(sys, DecryptAnswers(task, replies))
  {
    var sys1 := Next(cfg, sys, DecryptAnswers(task, replies));
    if Enabled(sys1, SignAnswers(task, batchId, sigs)) then Next(cfg, sys1, SignAnswers(task, batchId, sigs)) else sys1
  }

  /** After the answers for the shares. */
  lemma {:induction false} SharesAnswered(
    cfg: Config, sys: System, task: nat, i: nat, s: Session, replies: seq<Option<Reply>>)
    requires Waiting(sys, task, i, s)
    ensures var (s', p) := RemoteDecrypted(cfg, s.(status := Matching), replies);
            var sys' := Next(cfg, sys, DecryptAnswers(task, replies));
            && sys'.state == SetSession(sys.state, i, s') && sys'.log == sys.log
            && sys'.tasks == if p == Stopped(Threw) then sys.tasks - {task}
                             else sys.tasks[task := Task(i, if p.Continues? then Signing(p.matches) else Finishing, [])]
  {
  }

  /** After the answers for the signatures. */
  lemma {:induction false} SignaturesAnswered(
    cfg: Config, sys: System, task: nat, i: nat, matches: seq<Netting.MatchResult>,
    batchId: string, sigs: seq<Option<Signature>>)
    requires task in sys.tasks && sys.tasks[task] == Task(i, Signing(matches), []) && i < |sys.state.sessions|
    ensures var (s', o) := RemoteSigned(cfg, sys.state.sessions[i], batchId, matches, sigs);
            var sys' := Next(cfg, sys, SignAnswers(task, batchId, sigs));
            && sys'.state == SetSession(sys.state, i, s') && sys'.tasks == sys.tasks[task := Task(i, Finishing, [])]
            && sys'.log == sys.log + (if o.Produced? then [(i, o.batch)] else [])
  {
  }

  /** A round on session i has ended: the session is as the round left it, a batch it produced is logged,
      and the activation lives on unless the round threw. */
  ghost predicate Ended(sys: System, sys': System, task: nat, i: nat, s: Session, o: Outcome)
    requires i < |sys.state.sessions|
  {
    && sys'.state == sys.state.(sessions := sys.state.sessions[i := s])
    && sys'.log == sys.log + (if o.Produced? then [(i, o.batch)] else [])
    && (task in sys'.tasks <==> !o.Threw?) && sys'.tasks - {task} == sys.tasks - {task}
    && (task in sys'.tasks ==> sys'.tasks[task] == Task(i, Finishing, []))
  }

  lemma {:induction false} StoppedEnds(
    cfg: Config, sys: System, task: nat, i: nat, s: Session, replies: seq<Option<Reply>>)
    requires Waiting(sys, task, i, s) && RemoteDecrypted(cfg, s.(status := Matching), replies).1.Stopped?
    ensures var (s', p) := RemoteDecrypted(cfg, s.(status := Matching), replies);
            var sys' := Next(cfg, sys, DecryptAnswers(task, replies));
            Ended(sys, sys', task, i, s', p.outcome) && (task in sys'.tasks ==> !sys'.tasks[task].phase.Signing?)
  {
    SharesAnswered(cfg, sys, task, i, s, replies);
  }

  lemma {:induction false} SignedEnds(
    cfg: Config, sys: System, task: nat, i: nat, s: Session,
    replies: seq<Option<Reply>>, batchId: string, sigs: seq<Option<Signature>>)
    requires Waiting(sys, task, i, s) && RemoteDecrypted(cfg, s.(status := Matching), replies).1.Continues?
    ensures var (s1, p) := RemoteDecrypted(cfg, s.(status := Matching), replies);
            var (s', o) := RemoteSigned(cfg, s1, batchId, p.matches, sigs);
            var sys1 := Next(cfg, sys, DecryptAnswers(task, replies));
            && Enabled(sys1, SignAnswers(task, batchId, sigs))
            && Ended(sys, Next(cfg, sys1, SignAnswers(task, batchId, sigs)), task, i, s', o)
  {
    var p := RemoteDecrypted(cfg, s.(status := Matching), replies).1;
    SharesAnswered(cfg, sys, task, i, s, replies);
    SignaturesAnswered(cfg, Next(cfg, sys, DecryptAnswers(task, replies)), task, i, p.matches, batchId, sigs);
  }

  /** The steps of a remote round make up the round, whatever the nodes answer. */
  lemma {:induction false} RemoteRoundRuns(
    cfg: Config, sys: System, task: nat, i: nat, s: Session,
    replies: seq<Option<Reply>>, batchId: string, sigs: seq<Option<Signature>>)
    requires Waiting(sys, task, i, s) && |s.intents| >= 2
    ensures var (s', o) := RemoteRound(cfg, s, replies, batchId, sigs);
            Ended(sys, Answered(cfg, sys, task, replies, batchId, sigs), task, i, s', o)
  {
    if RemoteDecrypted(cfg, s.(status := Matching), replies).1.Stopped? {
      StoppedEnds(cfg, sys, task, i, s, replies);
    } else {
      SignedEnds(cfg, sys, task, i, s, replies, batchId, sigs);
    }
  }

  /** An activation whose round is over ends, its snapshot having nothing left. */
  lemma {:induction false} ResumeEnds(cfg: Config, sys: System, task: nat, mode: Mode)
    requires Inv(sys) && Enabled(sys, Resume(task, mode))
    ensures Next(cfg, sys, Resume(task, mode)) == sys.(tasks := sys.tasks - {task})
  {
    assert TaskOk(sys.state, sys.tasks[task]);
  }

  // ---------- deliveries and submissions ----------

  ghost function SlotAt(shares: ShareTable, node: string, id: string): Option<ShareEntry> {
    Find(SlotsOf(shares, node), id)
  }

  lemma {:induction false} SlotAtPut(shares: ShareTable, node: string, id: string, e: ShareEntry, n: string, k: string)
    ensures SlotAt(Put(shares, node, Put(SlotsOf(shares, node), id, e)), n, k)
         == if n == node && k == id then Some(e) else SlotAt(shares, n, k)
  {
    SlotsOfPut(shares, node, Put(SlotsOf(shares, node), id, e), n);
    PutFind(SlotsOf(shares, node), id, e, k);
  }

  /** A delivery goes to the session the intent is indexed under. There it replaces the sealed share in
      the node's slot for the intent, if there is one, and touches no plaintext and no other slot. */
  lemma {:induction false} DeliverExact(
    cfg: Config, sys: System, intentId: string, sealed: SealedShare, i: nat, node: string, id: string)
    requires i < |sys.state.sessions|
    ensures var s, t := sys.state.sessions[i].shares,
                        Next(cfg, sys, Deliver(intentId, sealed)).state.sessions[i].shares;
            SlotAt(t, node, id) ==
              if GetSessionForIntent(sys.state, intentId) == Some(i) && (node, id) == (sealed.nodeId, intentId)
                 && SlotAt(s, node, id).Some?
              then Some(ShareEntry(sealed, SlotAt(s, node, id).value.decrypted)) else SlotAt(s, node, id)
  {
    var s, slots := sys.state.sessions[i], SlotsOf(sys.state.sessions[i].shares, sealed.nodeId);
    assert Find(slots, intentId).Some? <==> Has(slots, intentId);
    if Has(slots, intentId) {
      SlotAtPut(s.shares, sealed.nodeId, intentId, Get(slots, intentId).(sealed := sealed), node, id);
    }
  }

  /** The last of the shares that is for the node. */
  ghost function LastFor(sealed: seq<SealedShare>, node: string): Option<SealedShare> {
    if sealed == [] then None
    else if sealed[|sealed| - 1].nodeId == node then Some(sealed[|sealed| - 1])
    else LastFor(sealed[..|sealed| - 1], node)
  }

  lemma {:induction false} StoreSharesAt(
    shares: ShareTable, intentId: string, sealed: seq<SealedShare>, node: string, id: string)
    ensures SlotAt(StoreShares(shares, intentId, sealed), node, id) ==
              if id == intentId && LastFor(sealed, node).Some? then Some(ShareEntry(LastFor(sealed, node).value, None))
              else SlotAt(shares, node, id)
  {
    if sealed != [] {
      var n := |sealed| - 1;
      StoreSharesAt(shares, intentId, sealed[..n], node, id);
      var t := StoreShares(shares, intentId, sealed[..n]);
      SlotAtPut(t, sealed[n].nodeId, intentId, ShareEntry(sealed[n], None), node, id);
    }
  }

  /** A submission puts the intent in the open session, under its id, with the sealed share for each node
      in that node's slot; every other entry of every session stays. */
  lemma {:induction false} SubmitExact(sys: System, intent: MpcIntent, now: string, i: nat, node: string, id: string)
    requires Inv(sys) && i < |AddIntent(sys.state, intent, now).sessions|
    ensures var c, d := sys.state, AddIntent(sys.state, intent, now);
            var before := if i < |c.sessions| then c.sessions[i] else NewSession(now);
            var mine := d.sessions[i].status == Open && id == intent.intentId;
            && d.sessions[i] == before.(intents := d.sessions[i].intents, shares := d.sessions[i].shares)
            && Find(d.sessions[i].intents, id) == (if mine then Some(intent) else Find(before.intents, id))
            && SlotAt(d.sessions[i].shares, node, id) ==
                 (if mine && LastFor(intent.encryptedShares, node).Some?
                  then Some(ShareEntry(LastFor(intent.encryptedShares, node).value, None))
                  else SlotAt(before.shares, node, id))
            && |d.sessions| == |c.sessions| + (if exists k :: 0 <= k < |c.sessions| && c.sessions[k].status == Open
                                               then 0 else 1)
  {
    var c := sys.state;
    var d, slot := WithOpen(c, now), OpenOrLast(c, now);
    WithOpenKeeps(c, now);
    AddKeeps(c, intent, now);
    PutFind(d.sessions[slot].intents, intent.intentId, intent, id);
    StoreSharesAt(d.sessions[slot].shares, intent.intentId, intent.encryptedShares, node, id);
    if OpenSlot(c, 0).None? {
      forall k | 0 <= k < |c.sessions| ensures c.sessions[k].status != Open { NoneOpen(c, k); }
    }
    if i != slot { OneOpen(AddIntent(c, intent, now), slot, i); }
  }

  lemma {:induction false} OneOpen(c: State, slot: nat, i: nat)
    requires IndexOk(c) && slot < |c.sessions| && i < |c.sessions| && i != slot && c.sessions[slot].status == Open
    ensures c.sessions[i].status != Open
  {
  }

  // ---------- the log ----------

  /** Every signed session's batch is in the log. */
  ghost predicate Logged(sys: System) {
    forall i | 0 <= i < |sys.state.sessions| && sys.state.sessions[i].batch.Some? ::
      (i, sys.state.sessions[i].batch.value) in sys.log
  }

  /** A step changes at most one session's batch, and then logs it. */
  lemma {:induction false} LoggedAfter(sys: System, sys': System, slot: nat, s: Session)
    requires Logged(sys) && slot < |sys.state.sessions| && sys'.state.sessions == sys.state.sessions[slot := s]
    requires sys.log <= sys'.log
    requires s.batch.Some? ==> s.batch == sys.state.sessions[slot].batch || (slot, s.batch.value) in sys'.log
    ensures Logged(sys')
  {
    forall i | 0 <= i < |sys'.state.sessions| && sys'.state.sessions[i].batch.Some?
      ensures (i, sys'.state.sessions[i].batch.value) in sys'.log
    {
      if i != slot || s.batch == sys.state.sessions[slot].batch {
        var k :| 0 <= k < |sys.log| && sys.log[k] == (i, sys.state.sessions[i].batch.value);
        assert sys'.log[k] == sys.log[k];
      }
    }
  }

  lemma {:induction false} LocalLogs(cfg: Config, s: Session, batchId: string)
    requires SessionOk(s) && s.status == Open
    ensures var (s', o) := LocalRound(cfg, s, batchId); s'.batch.Some? ==> o.Produced? && s'.batch == Some(o.batch)
  {
  }

  lemma {:induction false} LaunchLogs(cfg: Config, sys: System, task: nat, slots: seq<nat>, mode: Mode)
    requires Inv(sys) && Logged(sys) && |slots| <= 1
    requires forall x | x in slots :: x < |sys.state.sessions| && sys.state.sessions[x].status == Open
    ensures Logged(Launch(cfg, sys, task, slots, mode))
  {
    if slots != [] {
      var slot := slots[0];
      assert slot in slots && slots[1..] == [];
      assert SessionOk(sys.state.sessions[slot]);
      if mode.InProcess? { LocalLogs(cfg, sys.state.sessions[slot], mode.batchId); }
      var s := if mode.OverNetwork? then sys.state.sessions[slot].(status := Matching)
               else LocalRound(cfg, sys.state.sessions[slot], mode.batchId).0;
      if |sys.state.sessions[slot].intents| >= 2 {
        LoggedAfter(sys, Begin(cfg, sys, task, slot, [], mode), slot, s);
      }
    }
  }

  lemma {:induction false} SubmitLogs(sys: System, intent: MpcIntent, now: string)
    requires Inv(sys) && Logged(sys)
    ensures Logged(sys.(state := AddIntent(sys.state, intent, now)))
  {
    WithOpenKeeps(sys.state, now);
    var d, slot := WithOpen(sys.state, now), OpenOrLast(sys.state, now);
    LoggedAfter(sys.(state := d), sys.(state := AddIntent(sys.state, intent, now)), slot,
                Accept(d.sessions[slot], intent));
  }

  lemma {:induction false} DeliverLogs(cfg: Config, sys: System, intentId: string, sealed: SealedShare)
    requires Logged(sys)
    ensures Logged(Next(cfg, sys, Deliver(intentId, sealed)))
  {
    var found := GetSessionForIntent(sys.state, intentId);
    if found.Some? && found.value < |sys.state.sessions| {
      LoggedAfter(sys, Next(cfg, sys, Deliver(intentId, sealed)), found.value,
                  Redeliver(sys.state.sessions[found.value], intentId, sealed));
    }
  }

  lemma {:induction false} AnswersLog(cfg: Config, sys: System, step: Step)
    requires Inv(sys) && Logged(sys) && Enabled(sys, step) && (step.DecryptAnswers? || step.SignAnswers?)
    ensures Logged(Next(cfg, sys, step))
  {
    var t := sys.tasks[step.task];
    assert TaskOk(sys.state, t);
    var s := sys.state.sessions[t.slot];
    match step
    case DecryptAnswers(_, replies) =>
      LoggedAfter(sys, Next(cfg, sys, step), t.slot, RemoteDecrypted(cfg, s, replies).0);
    case SignAnswers(_, batchId, sigs) =>
      var (s', o) := RemoteSigned(cfg, s, batchId, t.phase.matches, sigs);
      assert o.Produced? ==> Next(cfg, sys, step).log[|sys.log|] == (t.slot, o.batch);
      LoggedAfter(sys, Next(cfg, sys, step), t.slot, s');
  }

  lemma {:induction false} StepKeepsLogged(cfg: Config, sys: System, step: Step)
    requires Inv(sys) && Logged(sys) && Enabled(sys, step)
    ensures Logged(Next(cfg, sys, step))
  {
    match step
    case Submit(intent, now) => SubmitLogs(sys, intent, now);
    case Deliver(intentId, sealed) => DeliverLogs(cfg, sys, intentId, sealed);
    case MatchNow(sessionId, task, mode) =>
      var slot := GetSession(sys.state, sessionId);
      if slot.Some? && sys.state.sessions[slot.value].status == Open {
        LaunchLogs(cfg, sys, task, [slot.value], mode);
      }
    case TimerTick(task, mode) =>
      OpenSessionsAtMostOne(sys.state, 0);
      LaunchLogs(cfg, sys, task, OpenSessions(sys.state, 0), mode);
    case DecryptAnswers(_, _) => AnswersLog(cfg, sys, step);
    case SignAnswers(_, _, _) => AnswersLog(cfg, sys, step);
    case Resume(task, mode) => ResumeEnds(cfg, sys, task, mode);
  }

  lemma {:induction false} RunLogged(cfg: Config, sys: System, steps: seq<Step>)
    requires Netting.SortsByAmount(cfg.sort) && Inv(sys) && Logged(sys) && Run(cfg, sys, steps)
    ensures Inv(Reached(cfg, sys, steps)) && Logged(Reached(cfg, sys, steps))
    decreases |steps|
  {
    if steps != [] {
      StepKeeps(cfg, sys, steps[0]);
      StepKeepsLogged(cfg, sys, steps[0]);
      RunLogged(cfg, Next(cfg, sys, steps[0]), steps[1..]);
    }
  }

  /** After every run the log holds exactly the batches of the signed sessions, each once. */
  lemma {:induction false} LogExact(cfg: Config, steps: seq<Step>, i: nat, b: Batch)
    requires Netting.SortsByAmount(cfg.sort) && Run(cfg, INITIAL, steps)
    ensures var sys := Reached(cfg, INITIAL, steps);
            && ((i, b) in sys.log <==>
                  i < |sys.state.sessions| && sys.state.sessions[i].status == Signed
                  && sys.state.sessions[i].batch == Some(b))
            && forall k, l | 0 <= k < l < |sys.log| :: sys.log[k].0 != sys.log[l].0
  {
    InitialInv();
    RunLogged(cfg, INITIAL, steps);
    var sys := Reached(cfg, INITIAL, steps);
    if i < |sys.state.sessions| { assert SessionOk(sys.state.sessions[i]); }
  }
}
