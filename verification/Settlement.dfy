/** The settlement tables and every step that changes them: RFQ intents and their routing to the
    committee, direct submissions, rounds and signed batches, the settler, and the RFQ lifecycle from
    quote to settlement. */
module Settlement {
  import opened JsMap
  import opened Netting

  /** `owner` is absent in rows older than user accounts. */
  datatype IntentRow = IntentRow(owner: Option<string>, key: string, session: Option<string>)

  datatype QuoteRow = QuoteRow(intentHash: string, quoteHash: string)

  /** Fills in order of creation; a fill's id is its quote and receipt. */
  datatype FillRow = FillRow(quoteId: string, receipt: string, executed: bool)

  /** A settlement's id is its intent, quote and nullifier. */
  datatype SettlementId = SettlementId(intentHash: string, quoteId: string, nullifier: string)

  /** A match of a batch, by position. */
  datatype MatchRef = MatchRef(batchId: string, i: nat)

  /** The tables of the RFQ lifecycle; a settlement row keeps its proof job. */
  datatype Rfq = Rfq(
    intents: map<string, IntentRow>,
    quotes: map<string, QuoteRow>,
    acceptances: map<string, string>,
    fills: seq<FillRow>,
    proofs: map<string, bool>,
    spent: set<string>,
    settlements: map<SettlementId, string>)

  /** The committee's tables: whether a submission is matched, signed batches, the settler's jobs. */
  datatype Mpc = Mpc(
    statuses: map<string, bool>,
    batches: map<string, seq<MatchResult>>,
    jobs: map<MatchRef, MatchResult>)

  /** What the settler is at: nothing, or a match and which of its sides it has found without a row. */
  datatype Settling = Idle | Looking(r: MatchRef, sawA: bool, sawB: bool)

  /** The direction of an intent. */
  datatype Way = Way(input: string, output: string)

  /** What the steps read of a posted body: whether it carries shares, and its direction. */
  datatype Body = Body(shares: bool, way: Way)

  /** What the committee's process holds in memory: the ids of the open session with their directions,
      those of each session whose round is running, the marks still to be made for a persisted batch,
      each with its partner, and the settler. */
  datatype Memory = Memory(
    gathering: map<string, Way>,
    rounds: map<nat, map<string, Way>>,
    marks: map<string, seq<(string, string)>>,
    settler: Settling)

  /** Requests: the body behind a posted hash, posts on their way to the committee, ids the committee has
      accepted, and those among them submitted directly. */
  datatype Traffic = Traffic(
    bodies: map<string, Body>,
    arriving: multiset<string>,
    accepted: set<string>,
    direct: set<string>)

  datatype Tables = Tables(rfq: Rfq, mpc: Mpc, memory: Memory, traffic: Traffic)

  const NOTHING := Memory(map[], map[], map[], Idle)

  const EMPTY := Tables(
    Rfq(map[], map[], map[], [], map[], {}, map[]), Mpc(map[], map[], map[]), NOTHING,
    Traffic(map[], multiset{}, {}, {}))

  // ---------- intents on their way to the committee ----------

  predicate KeyUsed(r: Rfq, key: string) {
    exists g :: g in r.intents && r.intents[g].key == key
  }

  /** The row is inserted unless its hash or its idempotency key is already there. */
  function InsertIntent(r: Rfq, hash: string, key: string, user: string): Rfq {
    if hash in r.intents || KeyUsed(r, key) then r
    else r.(intents := r.intents[hash := IntentRow(Some(user), key, None)])
  }

  /** With shares in its body the request goes on to the committee, row or no row. */
  function PostBody(q: Traffic, hash: string, body: Body): Traffic {
    q.(bodies := q.bodies[hash := body],
       arriving := if body.shares then q.arriving + multiset{hash} else q.arriving)
  }

  /** A hash stands for one body. */
  predicate OneBody(q: Traffic, hash: string, body: Body) {
    hash in q.bodies ==> q.bodies[hash] == body
  }

  /** The committee accepts a request that arrives. */
  function SendRequest(q: Traffic, hash: string): Traffic {
    if hash !in q.arriving then q
    else q.(arriving := q.arriving - multiset{hash}, accepted := q.accepted + {hash})
  }

  function SubmitDirect(q: Traffic, id: string): Traffic {
    q.(accepted := q.accepted + {id}, direct := q.direct + {id})
  }

  /** Records an accepted submission; an existing row keeps its status. */
  function RecordSubmission(m: Mpc, id: string): Mpc {
    if id in m.statuses then m else m.(statuses := m.statuses[id := false])
  }

  function LinkSession(r: Rfq, hash: string, session: string): Rfq {
    if hash !in r.intents then r
    else r.(intents := r.intents[hash := r.intents[hash].(session := Some(session))])
  }

  // ---------- rounds and batches ----------

  /** The open session's round starts; later submissions go to a new session. */
  function StartRound(m: Memory, n: nat): Memory {
    if n in m.rounds || |m.gathering| < 2 then m
    else m.(rounds := m.rounds[n := m.gathering], gathering := map[])
  }

  /** A direction as the matcher reads it from the grouping key. */
  function AssetsOf(w: Way): (string, string) {
    Assets(JoinKey(w.input, w.output))
  }

  /** The matcher nets intents of the first direction against those of the second. */
  predicate Meet(a: Way, b: Way) {
    ReverseKey(JoinKey(a.input, a.output)) == JoinKey(b.input, b.output)
  }

  /** The matches join ids of the session whose directions meet, never one with itself, and no id twice;
      their amounts are open. */
  predicate MatchesOf(ids: map<string, Way>, ms: seq<MatchResult>) {
    && (forall i | 0 <= i < |ms| :: Joins(ids, ms[i]))
    && (forall i, j | 0 <= i < j < |ms| :: {ms[i].intentA, ms[i].intentB} !! {ms[j].intentA, ms[j].intentB})
  }

  predicate Joins(ids: map<string, Way>, m: MatchResult) {
    && m.intentA in ids && m.intentB in ids && m.intentA != m.intentB
    && Meet(ids[m.intentA], ids[m.intentB]) && (m.input, m.output) == AssetsOf(ids[m.intentA])
  }

  /** A round may end with this batch, which is then persisted and will be marked. */
  predicate Persists(t: Tables, n: nat, batchId: string, ms: seq<MatchResult>) {
    n in t.memory.rounds && batchId !in t.mpc.batches && MatchesOf(t.memory.rounds[n], ms)
  }

  /** The marks of a batch in their order: of every match the first side, then the second. */
  function PairsOf(ms: seq<MatchResult>): seq<(string, string)> {
    seq(2 * |ms|, k requires 0 <= k < 2 * |ms| =>
      if k % 2 == 0 then (ms[k / 2].intentA, ms[k / 2].intentB) else (ms[k / 2].intentB, ms[k / 2].intentA))
  }

  /** A recorded id cannot be marked as matched with one that is not recorded: the update throws. */
  predicate MarkFails(recorded: set<string>, p: (string, string)) {
    p.0 in recorded && p.1 !in recorded
  }

  function MarkMatched(m: Mpc, p: (string, string)): Mpc {
    if p.0 in m.statuses && p.1 in m.statuses then m.(statuses := m.statuses[p.0 := true]) else m
  }

  predicate HasMark(m: Memory, batchId: string) {
    batchId in m.marks && m.marks[batchId] != []
  }

  // ---------- the settler ----------

  predicate IsMatch(m: Mpc, r: MatchRef) {
    r.batchId in m.batches && r.i < |m.batches[r.batchId]|
  }

  function MatchAt(m: Mpc, r: MatchRef): MatchResult
    requires IsMatch(m, r)
  {
    m.batches[r.batchId][r.i]
  }

  function Side(m: MatchResult, second: bool): string {
    if second then m.intentB else m.intentA
  }

  function TakeUp(t: Tables, r: MatchRef): Settling {
    if t.memory.settler.Idle? && IsMatch(t.mpc, r) then Looking(r, false, false) else t.memory.settler
  }

  /** One of the two lookups in the intents table: a row makes the settler skip the match. */
  function LookUp(t: Tables, second: bool): Settling {
    var s := t.memory.settler;
    if s.Idle? || !IsMatch(t.mpc, s.r) then s
    else if Side(MatchAt(t.mpc, s.r), second) in t.rfq.intents then Idle
    else Looking(s.r, s.sawA || !second, s.sawB || second)
  }

  /** Both lookups found no row. */
  predicate Enqueues(t: Tables) {
    var s := t.memory.settler;
    s.Looking? && IsMatch(t.mpc, s.r) && s.sawA && s.sawB
  }

  /** A job is queued once per match. */
  function EnqueueJob(m: Mpc, r: MatchRef): Mpc
    requires IsMatch(m, r)
  {
    if r in m.jobs then m else m.(jobs := m.jobs[r := MatchAt(m, r)])
  }

  // ---------- the RFQ lifecycle ----------

  predicate QuoteHashUsed(r: Rfq, quoteHash: string) {
    exists q :: q in r.quotes && r.quotes[q].quoteHash == quoteHash
  }

  function PostQuote(r: Rfq, quoteId: string, intentHash: string, quoteHash: string): Rfq {
    if intentHash !in r.intents || quoteId in r.quotes || QuoteHashUsed(r, quoteHash) then r
    else r.(quotes := r.quotes[quoteId := QuoteRow(intentHash, quoteHash)])
  }

  datatype Response = Accepted | NotFound | Forbidden | Conflict | Failed

  /** An intent without an owner is anybody's. */
  predicate MayUse(row: IntentRow, user: string) {
    row.owner.None? || row.owner.value == user
  }

  function AcceptQuote(r: Rfq, user: string, quoteId: string, intentHash: string): (Rfq, Response) {
    if intentHash !in r.intents then (r, NotFound)
    else if !MayUse(r.intents[intentHash], user) then (r, Forbidden)
    else if quoteId !in r.quotes then (r, NotFound)
    else if r.quotes[quoteId].intentHash != intentHash || quoteId in r.acceptances then (r, Conflict)
    else (r.(acceptances := r.acceptances[quoteId := intentHash]), Accepted)
  }

  predicate FillExists(fills: seq<FillRow>, quoteId: string, receipt: string) {
    exists i :: 0 <= i < |fills| && fills[i].quoteId == quoteId && fills[i].receipt == receipt
  }

  function PostFill(r: Rfq, quoteId: string, receipt: string): (Rfq, Response) {
    if quoteId !in r.quotes then (r, Failed)
    else if FillExists(r.fills, quoteId, receipt) then (r, Accepted)
    else (r.(fills := r.fills + [FillRow(quoteId, receipt, false)]), Accepted)
  }

  function Executed(fills: seq<FillRow>, quoteId: string, receipt: string): seq<FillRow> {
    seq(|fills|, i requires 0 <= i < |fills| =>
      if fills[i].quoteId == quoteId && fills[i].receipt == receipt then fills[i].(executed := true) else fills[i])
  }

  function ExecuteFill(r: Rfq, quoteId: string, receipt: string): (Rfq, Response) {
    if FillExists(r.fills, quoteId, receipt) then (r.(fills := Executed(r.fills, quoteId, receipt)), Accepted)
    else (r, NotFound)
  }

  /** The most recent fill of a quote. */
  function LatestFill(fills: seq<FillRow>, quoteId: string): (r: Option<FillRow>)
    ensures r.Some? ==> r.value in fills && r.value.quoteId == quoteId
  {
    if fills == [] then None
    else
      var n := |fills| - 1;
      if fills[n].quoteId == quoteId then Some(fills[n]) else LatestFill(fills[..n], quoteId)
  }

  /** `healthy` tells whether the root audit has no critical finding when the request arrives. */
  datatype SettleRequest = SettleRequest(
    user: string, id: SettlementId, receipt: Option<string>, fill: Option<(string, string)>, proofJob: string,
    healthy: bool)

  /** Every check of the settle handler, in its order. */
  function CheckSettle(r: Rfq, statuses: map<string, bool>, q: SettleRequest): Response {
    var hash, fill := q.id.intentHash, LatestFill(r.fills, q.id.quoteId);
    if !q.healthy then Conflict
    else if hash !in r.intents then NotFound
    else if !MayUse(r.intents[hash], q.user) then Forbidden
    else if q.id.quoteId !in r.quotes then NotFound
    else if r.quotes[q.id.quoteId].intentHash != hash then Conflict
    else if q.id.quoteId !in r.acceptances then Conflict
    else if fill.None? || !fill.value.executed then Conflict
    else if q.receipt.Some? && q.receipt.value != "" && fill.value.receipt != q.receipt.value then Conflict
    else if q.proofJob !in r.proofs || !r.proofs[q.proofJob] then Conflict
    else if q.id.nullifier in r.spent then Conflict
    else if r.intents[hash].session.Some? && (hash !in statuses || !statuses[hash]) then Conflict
    else Accepted
  }

  /** The row is inserted with every field of the request, and the table has no column for a receipt; a
      fill the row names must exist. */
  function Settle(r: Rfq, statuses: map<string, bool>, q: SettleRequest): (Rfq, Response) {
    var answer := CheckSettle(r, statuses, q);
    if answer != Accepted then (r, answer)
    else if q.receipt.Some? then (r, Failed)
    else if q.id in r.settlements then (r, Accepted)
    else if q.fill.Some? && !FillExists(r.fills, q.fill.value.0, q.fill.value.1) then (r, Failed)
    else (r.(settlements := r.settlements[q.id := q.proofJob]), Accepted)
  }

  // ---------- steps ----------

  datatype Step =
    | PostIntentStep(hash: string, key: string, user: string, body: Body)
    | SendStep(hash: string)
    | LoseStep(hash: string)
    | DirectStep(id: string, way: Way)
    | RecordStep(id: string)
    | LinkStep(hash: string, session: string)
    | StartStep(n: nat)
    | EndStep(n: nat)
    | PersistStep(n: nat, batchId: string, matches: seq<MatchResult>)
    | MarkStep(batchId: string)
    | RestartStep
    | TakeUpStep(r: MatchRef)
    | LookUpStep(second: bool)
    | EnqueueStep
    | AbandonStep
    | QuoteStep(quoteId: string, intentHash: string, quoteHash: string)
    | AcceptStep(user: string, quoteId: string, intentHash: string)
    | FillStep(quoteId: string, receipt: string)
    | ExecuteStep(quoteId: string, receipt: string)
    | ProofStep(proofJob: string, ready: bool)
    | SpendStep(nullifier: string)
    | SettleStep(request: SettleRequest)

  /** What each step does to the RFQ tables. */
  function NextRfq(t: Tables, step: Step): Rfq {
    match step
    case PostIntentStep(hash, key, user, body) =>
      if OneBody(t.traffic, hash, body) then InsertIntent(t.rfq, hash, key, user) else t.rfq
    case LinkStep(hash, session) => if hash in t.traffic.accepted then LinkSession(t.rfq, hash, session) else t.rfq
    case QuoteStep(quoteId, intentHash, quoteHash) => PostQuote(t.rfq, quoteId, intentHash, quoteHash)
    case AcceptStep(user, quoteId, intentHash) => AcceptQuote(t.rfq, user, quoteId, intentHash).0
    case FillStep(quoteId, receipt) => PostFill(t.rfq, quoteId, receipt).0
    case ExecuteStep(quoteId, receipt) => ExecuteFill(t.rfq, quoteId, receipt).0
    case ProofStep(proofJob, ready) => t.rfq.(proofs := t.rfq.proofs[proofJob := ready])
    case SpendStep(nullifier) => t.rfq.(spent := t.rfq.spent + {nullifier})
    case SettleStep(request) => Settle(t.rfq, t.mpc.statuses, request).0
    case _ => t.rfq
  }

  /** What each step does to the committee's tables. */
  function NextMpc(t: Tables, step: Step): Mpc {
    match step
    case RecordStep(id) => if id in t.traffic.accepted then RecordSubmission(t.mpc, id) else t.mpc
    case PersistStep(n, batchId, ms) =>
      if Persists(t, n, batchId, ms) then t.mpc.(batches := t.mpc.batches[batchId := ms]) else t.mpc
    case MarkStep(batchId) =>
      if HasMark(t.memory, batchId) then MarkMatched(t.mpc, t.memory.marks[batchId][0]) else t.mpc
    case EnqueueStep => if Enqueues(t) then EnqueueJob(t.mpc, t.memory.settler.r) else t.mpc
    case _ => t.mpc
  }

  /** What each step does to the memory of the committee's process. A round that ends without a persisted
      batch, a mark that throws, an abandoned match and a restart lose what they held. */
  function NextMemory(t: Tables, step: Step): Memory {
    var m := t.memory;
    match step
    case SendStep(hash) =>
      if hash in t.traffic.arriving && hash in t.traffic.bodies
      then m.(gathering := m.gathering[hash := t.traffic.bodies[hash].way]) else m
    case DirectStep(id, way) => m.(gathering := m.gathering[id := way])
    case StartStep(n) => StartRound(m, n)
    case EndStep(n) => m.(rounds := m.rounds - {n})
    case PersistStep(n, batchId, ms) =>
      if Persists(t, n, batchId, ms) then m.(rounds := m.rounds - {n}, marks := m.marks[batchId := PairsOf(ms)])
      else m
    case MarkStep(batchId) =>
      if !HasMark(m, batchId) then m
      else if MarkFails(t.mpc.statuses.Keys, m.marks[batchId][0]) then m.(marks := m.marks - {batchId})
      else m.(marks := m.marks[batchId := m.marks[batchId][1..]])
    case TakeUpStep(r) => m.(settler := TakeUp(t, r))
    case LookUpStep(second) => m.(settler := LookUp(t, second))
    case EnqueueStep => if Enqueues(t) then m.(settler := Idle) else m
    case AbandonStep => m.(settler := Idle)
    case RestartStep => NOTHING
    case _ => m
  }

  /** What each step does to the requests. The committee may be down or refuse a request. */
  function NextTraffic(t: Tables, step: Step): Traffic {
    var q := t.traffic;
    match step
    case PostIntentStep(hash, key, user, body) => if OneBody(q, hash, body) then PostBody(q, hash, body) else q
    case SendStep(hash) => SendRequest(q, hash)
    case LoseStep(hash) => q.(arriving := q.arriving - multiset{hash})
    case DirectStep(id, way) => SubmitDirect(q, id)
    case _ => q
  }

  function Next(t: Tables, step: Step): Tables {
    Tables(NextRfq(t, step), NextMpc(t, step), NextMemory(t, step), NextTraffic(t, step))
  }

  // ---------- the handlers on the store ----------

  /** The API's tables as an object the handlers update. */
  class Store {
    var intents: map<string, IntentRow>
    var quotes: map<string, QuoteRow>
    var acceptances: map<string, string>
    var fills: seq<FillRow>
    var proofs: map<string, bool>
    var spent: set<string>
    var settlements: map<SettlementId, string>
    var statuses: map<string, bool>
    var batches: map<string, seq<MatchResult>>

    ghost function View(): Rfq
      reads this
    {
      Rfq(intents, quotes, acceptances, fills, proofs, spent, settlements)
    }

    method PostIntentRow(hash: string, key: string, user: string)
      modifies this`intents
      ensures View() == InsertIntent(old(View()), hash, key, user)
    {
      if hash !in intents && forall g | g in intents :: intents[g].key != key {
        intents := intents[hash := IntentRow(Some(user), key, None)];
      }
    }

    method HandleAccept(user: string, quoteId: string, intentHash: string) returns (answer: Response)
      modifies this`acceptances
      ensures (View(), answer) == AcceptQuote(old(View()), user, quoteId, intentHash)
    {
      if intentHash !in intents { return NotFound; }
      if intents[intentHash].owner.Some? && intents[intentHash].owner.value != user { return Forbidden; }
      if quoteId !in quotes { return NotFound; }
      if quotes[quoteId].intentHash != intentHash { return Conflict; }
      if quoteId in acceptances { return Conflict; }
      acceptances := acceptances[quoteId := intentHash];
      answer := Accepted;
    }

    method HandleFill(quoteId: string, receipt: string) returns (answer: Response)
      modifies this`fills
      ensures (View(), answer) == PostFill(old(View()), quoteId, receipt)
    {
      if quoteId !in quotes { return Failed; }
      if !FillExists(fills, quoteId, receipt) {
        fills := fills + [FillRow(quoteId, receipt, false)];
      }
      answer := Accepted;
    }

    method HandleExecute(quoteId: string, receipt: string) returns (answer: Response)
      modifies this`fills
      ensures (View(), answer) == ExecuteFill(old(View()), quoteId, receipt)
    {
      answer := NotFound;
      for i := 0 to |fills|
        invariant |fills| == |old(fills)|
        invariant forall j | 0 <= j < |fills| ::
                    fills[j] == if j < i then Executed(old(fills), quoteId, receipt)[j] else old(fills)[j]
        invariant answer == if FillExists(old(fills)[..i], quoteId, receipt) then Accepted else NotFound
      {
        if fills[i].quoteId == quoteId && fills[i].receipt == receipt {
          fills := fills[i := fills[i].(executed := true)];
          answer := Accepted;
        }
        assert old(fills)[..i + 1] == old(fills)[..i] + [old(fills)[i]];
      }
      assert old(fills)[..|old(fills)|] == old(fills);
      assert fills == Executed(old(fills), quoteId, receipt);
      if answer == NotFound { assert fills == old(fills); }
    }

    method HandleSettle(q: SettleRequest) returns (answer: Response)
      modifies this`settlements
      ensures (View(), answer) == Settle(old(View()), statuses, q)
    {
      var hash := q.id.intentHash;
      if !q.healthy { return Conflict; }
      if hash !in intents { return NotFound; }
      if intents[hash].owner.Some? && intents[hash].owner.value != q.user { return Forbidden; }
      if q.id.quoteId !in quotes { return NotFound; }
      if quotes[q.id.quoteId].intentHash != hash { return Conflict; }
      if q.id.quoteId !in acceptances { return Conflict; }
      var fill := LatestFill(fills, q.id.quoteId);
      if fill.None? { return Conflict; }
      if !fill.value.executed { return Conflict; }
      if q.receipt.Some? && q.receipt.value != "" && fill.value.receipt != q.receipt.value { return Conflict; }
      if q.proofJob !in proofs || !proofs[q.proofJob] { return Conflict; }
      if q.id.nullifier in spent { return Conflict; }
      if intents[hash].session.Some? {
        if hash !in statuses || !statuses[hash] { return Conflict; }
      }
      if q.receipt.Some? { return Failed; }
      if q.id !in settlements {
        if q.fill.Some? && !FillExists(fills, q.fill.value.0, q.fill.value.1) { return Failed; }
        settlements := settlements[q.id := q.proofJob];
      }
      answer := Accepted;
    }

    /** persistSignedBatch: inserts the batch, then marks both sides of every match in turn, up to the
        first mark that throws. */
    method PersistSignedBatch(batchId: string, ms: seq<MatchResult>) returns (threw: bool)
      modifies this`batches, this`statuses
      ensures batches == if batchId in old(batches) then old(batches) else old(batches)[batchId := ms]
      ensures statuses.Keys == old(statuses).Keys
      ensures threw <==> exists k :: 0 <= k < 2 * |ms| && MarkFails(statuses.Keys, PairsOf(ms)[k])
      ensures forall id | id in statuses ::
                statuses[id] <==> old(statuses)[id] || exists k :: MarkedAt(statuses.Keys, PairsOf(ms), k, id)
    {
      var all := PairsOf(ms);
      if batchId !in batches {
        batches := batches[batchId := ms];
      }
      for k := 0 to |all|
        invariant statuses.Keys == old(statuses).Keys
        invariant batches == if batchId in old(batches) then old(batches) else old(batches)[batchId := ms]
        invariant forall j | 0 <= j < k :: !MarkFails(statuses.Keys, all[j])
        invariant forall id | id in statuses ::
                    statuses[id] <==> old(statuses)[id] || exists j: nat :: j < k && MarkedAt(statuses.Keys, all, j, id)
      {
        if MarkFails(statuses.Keys, all[k]) { return true; }
        if all[k].0 in statuses {
          assert MarkedAt(statuses.Keys, all, k, all[k].0);
          statuses := statuses[all[k].0 := true];
        }
      }
      threw := false;
    }
  }

  /** Mark k is of the id, and no mark up to it throws. */
  ghost predicate MarkedAt(recorded: set<string>, pairs: seq<(string, string)>, k: nat, id: string) {
    k < |pairs| && pairs[k].0 == id && forall j | 0 <= j <= k :: !MarkFails(recorded, pairs[j])
  }
}
