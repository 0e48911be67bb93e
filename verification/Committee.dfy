/** The committee as a step system. A step runs from one await to the next: a submission, a manual
    or timed start of a round, the nodes' answers, the end of a round. */
module Committee {
  import opened JsMap
  import opened Sessions
  import opened Rounds
  import Netting

  /** `sessions` holds every session object ever created, so that one whose id was taken over by a
      later session still exists for the round that runs on it; `index` maps ids to positions. */
  datatype State = State(
    sessions: seq<Session>, index: OrderedMap<string, nat>, intentToSession: OrderedMap<string, string>)

  const EMPTY := State([], [], [])

  // ---------- the state object ----------

  /** The first indexed session that is open, in creation order of the ids. */
  function OpenSlot(c: State, from: nat): (r: Option<nat>)
    requires from <= |c.index|
    ensures r.Some? ==> r.value < |c.sessions| && c.sessions[r.value].status == Open
    decreases |c.index| - from
  {
    if from == |c.index| then None
    else
      var slot := c.index[from].1;
      if slot < |c.sessions| && c.sessions[slot].status == Open then Some(slot) else OpenSlot(c, from + 1)
  }

  function CreateSession(c: State, sessionId: string): State {
    c.(sessions := c.sessions + [NewSession(sessionId)], index := Put(c.index, sessionId, |c.sessions|))
  }

  function WithOpen(c: State, now: string): State {
    if OpenSlot(c, 0).Some? then c else CreateSession(c, now)
  }

  function OpenOrLast(c: State, now: string): (slot: nat)
    ensures slot < |WithOpen(c, now).sessions|
  {
    if OpenSlot(c, 0).Some? then OpenSlot(c, 0).value else |c.sessions|
  }

  function SetSession(c: State, slot: nat, s: Session): State
    requires slot < |c.sessions|
  {
    c.(sessions := c.sessions[slot := s])
  }

  function AddIntent(c: State, intent: MpcIntent, now: string): State {
    var d, slot := WithOpen(c, now), OpenOrLast(c, now);
    SetSession(d, slot, Accept(d.sessions[slot], intent))
      .(intentToSession := Put(d.intentToSession, intent.intentId, d.sessions[slot].sessionId))
  }

  function GetSession(c: State, sessionId: string): Option<nat> {
    if Has(c.index, sessionId) && Get(c.index, sessionId) < |c.sessions| then Some(Get(c.index, sessionId)) else None
  }

  function GetSessionForIntent(c: State, intentId: string): Option<nat> {
    if Has(c.intentToSession, intentId) then GetSession(c, Get(c.intentToSession, intentId)) else None
  }

  function OpenSessions(c: State, from: nat): (slots: seq<nat>)
    requires from <= |c.index|
    ensures forall x | x in slots :: x < |c.sessions| && c.sessions[x].status == Open
    decreases |c.index| - from
  {
    if from == |c.index| then []
    else
      var slot := c.index[from].1;
      (if slot < |c.sessions| && c.sessions[slot].status == Open then [slot] else []) + OpenSessions(c, from + 1)
  }

  /** A node's confirmed delivery overwrites the sealed share of an existing slot. */
  function Redeliver(s: Session, intentId: string, sealed: SealedShare): Session {
    var slots := SlotsOf(s.shares, sealed.nodeId);
    if Has(slots, intentId)
    then s.(shares := Put(s.shares, sealed.nodeId, Put(slots, intentId, Get(slots, intentId).(sealed := sealed))))
    else s
  }

  // ---------- rounds in flight ----------

  /** How a round is run: over the network, or in process under the given batch id. */
  datatype Mode = OverNetwork | InProcess(batchId: string)

  datatype Phase = Decrypting | Signing(matches: seq<Netting.MatchResult>) | Finishing

  /** A handler or timer activation: the session its round runs on, and the sessions of its snapshot
      it has not come to yet. */
  datatype Task = Task(slot: nat, phase: Phase, rest: seq<nat>)

  /** `log` records every signed batch produced, with the session it came from. */
  datatype System = System(state: State, tasks: map<nat, Task>, log: seq<(nat, Batch)>)

  const INITIAL := System(EMPTY, map[], [])

  /** Starts a round on one session, without looking at its status again. An exception out of the round
      ends the activation. */
  function Begin(cfg: Config, sys: System, task: nat, slot: nat, rest: seq<nat>, mode: Mode): System
    requires slot < |sys.state.sessions|
  {
    var s := sys.state.sessions[slot];
    match mode
    case OverNetwork =>
      sys.(state := SetSession(sys.state, slot, s.(status := Matching)),
           tasks := sys.tasks[task := Task(slot, Decrypting, rest)])
    case InProcess(batchId) =>
      var (s', o) := LocalRound(cfg, s, batchId);
      sys.(state := SetSession(sys.state, slot, s'),
           tasks := if o.Threw? then sys.tasks - {task} else sys.tasks[task := Task(slot, Finishing, rest)],
           log := if o.Produced? then sys.log + [(slot, o.batch)] else sys.log)
  }

  /** Goes through a snapshot: sessions with fewer than two intents are skipped. */
  function Launch(cfg: Config, sys: System, task: nat, slots: seq<nat>, mode: Mode): System
    decreases |slots|
  {
    if slots == [] then sys.(tasks := sys.tasks - {task})
    else if slots[0] >= |sys.state.sessions| || |sys.state.sessions[slots[0]].intents| < 2
      then Launch(cfg, sys, task, slots[1..], mode)
    else Begin(cfg, sys, task, slots[0], slots[1..], mode)
  }

  datatype Step =
    | Submit(intent: MpcIntent, now: string)
    | Deliver(intentId: string, sealed: SealedShare)
    | MatchNow(sessionId: string, task: nat, mode: Mode)
    | TimerTick(task: nat, mode: Mode)
    | DecryptAnswers(task: nat, replies: seq<Option<Reply>>)
    | SignAnswers(task: nat, batchId: string, sigs: seq<Option<Signature>>)
    | Resume(task: nat, mode: Mode)

  /** A new activation gets a task number not in use. */
  predicate Enabled(sys: System, step: Step) {
    match step
    case Submit(_, _) => true
    case Deliver(_, _) => true
    case MatchNow(_, task, _) => task !in sys.tasks
    case TimerTick(task, _) => task !in sys.tasks
    case DecryptAnswers(task, _) => task in sys.tasks && sys.tasks[task].phase.Decrypting?
    case SignAnswers(task, _, _) => task in sys.tasks && sys.tasks[task].phase.Signing?
    case Resume(task, _) => task in sys.tasks && sys.tasks[task].phase.Finishing?
  }

  function AfterDecrypt(cfg: Config, sys: System, task: nat, t: Task, replies: seq<Option<Reply>>): System
    requires t.slot < |sys.state.sessions|
  {
    var (s, p) := RemoteDecrypted(cfg, sys.state.sessions[t.slot], replies);
    sys.(state := SetSession(sys.state, t.slot, s),
         tasks := if p == Stopped(Threw) then sys.tasks - {task}
                  else sys.tasks[task := t.(phase := if p.Continues? then Signing(p.matches) else Finishing)])
  }

  function AfterSign(cfg: Config, sys: System, task: nat, t: Task, batchId: string, sigs: seq<Option<Signature>>)
    : System
    requires t.slot < |sys.state.sessions| && t.phase.Signing?
  {
    var (s, o) := RemoteSigned(cfg, sys.state.sessions[t.slot], batchId, t.phase.matches, sigs);
    sys.(state := SetSession(sys.state, t.slot, s),
         tasks := sys.tasks[task := t.(phase := Finishing)],
         log := if o.Produced? then sys.log + [(t.slot, o.batch)] else sys.log)
  }

  function Next(cfg: Config, sys: System, step: Step): System
    requires Enabled(sys, step)
  {
    match step
    case Submit(intent, now) => sys.(state := AddIntent(sys.state, intent, now))
    case Deliver(intentId, sealed) =>
      var slot := GetSessionForIntent(sys.state, intentId);
      if slot.None? || slot.value >= |sys.state.sessions| then sys
      else sys.(state := SetSession(sys.state, slot.value, Redeliver(sys.state.sessions[slot.value], intentId, sealed)))
    case MatchNow(sessionId, task, mode) =>
      var slot := GetSession(sys.state, sessionId);
      if slot.None? || slot.value >= |sys.state.sessions| || sys.state.sessions[slot.value].status != Open then sys
      else Launch(cfg, sys, task, [slot.value], mode)
    case TimerTick(task, mode) => Launch(cfg, sys, task, OpenSessions(sys.state, 0), mode)
    case DecryptAnswers(task, replies) =>
      var t := sys.tasks[task];
      if t.slot >= |sys.state.sessions| then sys else AfterDecrypt(cfg, sys, task, t, replies)
    case SignAnswers(task, batchId, sigs) =>
      var t := sys.tasks[task];
      if t.slot >= |sys.state.sessions| then sys else AfterSign(cfg, sys, task, t, batchId, sigs)
    case Resume(task, mode) => Launch(cfg, sys, task, sys.tasks[task].rest, mode)
  }
}
